/**
 * The fallback pass of `parse` (`parser.py` lines 165-282), run by the PDF
 * parser when the strict pass found no part and no chapter.
 *
 * A line is a marker when it contains the keyword anywhere (`दफा` or `धारा`
 * for sections) and any digit (`LooseClassify`); the kinds are tried in the
 * order Part, Chapter, Section. Unlike the strict pass:
 *  - a section whose buffer is empty is dropped, and a section's content is
 *    its buffer joined with single spaces;
 *  - at a Section marker or at the end, a section with content but no open
 *    chapter gets a synthesised chapter "1" titled "सामान्य (General)"; at a
 *    Part or Chapter marker it is lost instead;
 *  - a chapter goes to the open part; with no part open it is lost at the
 *    next Part or Chapter marker, and reaches the Act only at the end;
 *  - a marker line is its own title (a section's only when shorter than 100
 *    characters), and a missing number becomes the part's position, the
 *    chapter's position in its part (or "1"), or "1" for a section.
 *
 * `Run` is the loop as a fold, `ParseFallback` the loop itself.
 */
module Fallback {
  import opened Wrappers
  import opened Text
  import opened Numerals
  import opened Markers
  import opened Schema
  import opened Clauses

  function LooseMark(line: string): Marked {
    Marked(line, LooseClassify(line), ExtractNumber(line))
  }

  function LooseMarkAll(lines: seq<string>): (ms: seq<Marked>)
    ensures |ms| == |lines|
  {
    seq(|lines|, k requires 0 <= k < |lines| => LooseMark(lines[k]))
  }

  /** The loop's variables; the Act's own chapter list stays empty until the
      end of the loop. */
  datatype FallbackState = FallbackState(
    parts: seq<Part>,
    part: Option<Part>,
    chapter: Option<Chapter>,
    section: Option<Section>,
    buffer: seq<string>)

  const Start := FallbackState([], None, None, None, [])

  const GeneralTitle: string := "सामान्य (General)"

  /** The chapter opened for a section that has none. */
  const GeneralChapter := Chapter("1", GeneralTitle, [])

  /** A flushed section: its content is the buffer joined with spaces, and
      its clauses are those `detect_clauses` finds there, if any. */
  function Finish(s: Section, buffer: seq<string>, seg: string -> seq<Clause>): Section {
    var content := Join(" ", buffer);
    var found := seg(content);
    s.(content := content, clauses := if |found| > 0 then found else s.clauses)
  }

  /** The section flush at a Part or Chapter marker: a section with content
      goes to the open chapter, and is lost without one. */
  function FlushKeep(st: FallbackState, seg: string -> seq<Clause>): FallbackState {
    if st.section.Some? && |st.buffer| > 0 && st.chapter.Some? then
      var c := st.chapter.value;
      st.(chapter := Some(c.(sections := c.sections + [Finish(st.section.value, st.buffer, seg)])))
    else st
  }

  /** The section flush at a Section marker and at the end: a section with
      content goes to the open chapter, or to a new general chapter. */
  function FlushGeneral(st: FallbackState, seg: string -> seq<Clause>): FallbackState {
    if st.section.Some? && |st.buffer| > 0 then
      var c := if st.chapter.Some? then st.chapter.value else GeneralChapter;
      st.(chapter := Some(c.(sections := c.sections + [Finish(st.section.value, st.buffer, seg)])))
    else st
  }

  /** At a Part or Chapter marker the open chapter goes to the open part;
      with no part open it is dropped. */
  function KeepChapter(st: FallbackState): FallbackState {
    if st.chapter.Some? && st.part.Some? then
      st.(part := Some(st.part.value.(chapters := st.part.value.chapters + [st.chapter.value])))
    else st
  }

  /** `n` when a number was found, else the fallback. */
  function OrElse(n: string, fallback: string): string {
    if n != "" then n else fallback
  }

  /** One iteration of the loop, on line `i`. */
  function Step(ms: seq<Marked>, st: FallbackState, i: nat, seg: string -> seq<Clause>): FallbackState
    requires i < |ms|
  {
    var m := ms[i];
    match m.kind
    case PartM =>
      var f := KeepChapter(FlushKeep(st, seg));
      var ps := if f.part.Some? then f.parts + [f.part.value] else f.parts;
      FallbackState(ps, Some(Part(OrElse(m.number, NatToString(|ps| + 1)), m.text, [])), None, None, [])
    case ChapterM =>
      var f := KeepChapter(FlushKeep(st, seg));
      var n := OrElse(m.number, if f.part.Some? then NatToString(|f.part.value.chapters| + 1) else "1");
      f.(chapter := Some(Chapter(n, m.text, [])), section := None, buffer := [])
    case SectionM =>
      var f := FlushGeneral(st, seg);
      var title := if |m.text| < 100 then m.text else "";
      f.(section := Some(NewSection(OrElse(m.number, "1"), title, "")), buffer := [])
    case NoneM =>
      if st.section.Some? then st.(buffer := st.buffer + [m.text]) else st
  }

  /** The flushes after the loop: the open chapter goes to the open part, or
      to the Act when no part is open. */
  function Close(st: FallbackState, seg: string -> seq<Clause>): Tree {
    var f := FlushGeneral(st, seg);
    if f.part.Some? then
      var p := f.part.value;
      var p' := if f.chapter.Some? then p.(chapters := p.chapters + [f.chapter.value]) else p;
      Tree(f.parts + [p'], [])
    else
      Tree(f.parts, if f.chapter.Some? then [f.chapter.value] else [])
  }

  /** The loop from line `i` on, followed by the final flushes. */
  function Run(ms: seq<Marked>, st: FallbackState, i: nat, seg: string -> seq<Clause>): Tree
    requires i <= |ms|
    decreases |ms| - i
  {
    if i == |ms| then Close(st, seg) else Run(ms, Step(ms, st, i, seg), i + 1, seg)
  }

  // ----- the loop -----

  /** `' '.join(content_buffer)` and `detect_clauses`. */
  method FinishSection(s: Section, buffer: seq<string>) returns (r: Section)
    ensures r == Finish(s, buffer, Segment)
  {
    var content := Join(" ", buffer);
    var found := DetectClauses(content);
    r := s.(content := content);
    if |found| > 0 {
      r := r.(clauses := found);
    }
  }

  method FlushKeepInto(st: FallbackState) returns (r: FallbackState)
    ensures r == FlushKeep(st, Segment)
  {
    r := st;
    if st.section.Some? && |st.buffer| > 0 && st.chapter.Some? {
      var s := FinishSection(st.section.value, st.buffer);
      var c := st.chapter.value;
      r := st.(chapter := Some(c.(sections := c.sections + [s])));
    }
  }

  method FlushGeneralInto(st: FallbackState) returns (r: FallbackState)
    ensures r == FlushGeneral(st, Segment)
  {
    r := st;
    if st.section.Some? && |st.buffer| > 0 {
      var s := FinishSection(st.section.value, st.buffer);
      var c := GeneralChapter;
      if st.chapter.Some? {
        c := st.chapter.value;
      }
      r := st.(chapter := Some(c.(sections := c.sections + [s])));
    }
  }

  /** One iteration of the fallback loop, on line `i`. */
  method StepAt(ms: seq<Marked>, st: FallbackState, i: nat) returns (r: FallbackState)
    requires i < |ms|
    ensures r == Step(ms, st, i, Segment)
  {
    var m := ms[i];
    match m.kind
    case PartM =>
      var f := FlushKeepInto(st);
      f := KeepChapter(f);
      var ps := f.parts;
      if f.part.Some? {
        ps := ps + [f.part.value];
      }
      var n := m.number;
      if n == "" {
        n := NatToString(|ps| + 1);
      }
      r := FallbackState(ps, Some(Part(n, m.text, [])), None, None, []);
    case ChapterM =>
      var f := FlushKeepInto(st);
      f := KeepChapter(f);
      var n := m.number;
      if n == "" {
        n := if f.part.Some? then NatToString(|f.part.value.chapters| + 1) else "1";
      }
      r := f.(chapter := Some(Chapter(n, m.text, [])), section := None, buffer := []);
    case SectionM =>
      var f := FlushGeneralInto(st);
      var n := if m.number != "" then m.number else "1";
      var title := if |m.text| < 100 then m.text else "";
      r := f.(section := Some(NewSection(n, title, "")), buffer := []);
    case NoneM =>
      r := st;
      if st.section.Some? {
        r := st.(buffer := st.buffer + [m.text]);
      }
  }

  /** The fallback pass over the extracted lines. */
  method ParseFallback(lines: seq<string>) returns (parts: seq<Part>, chapters: seq<Chapter>)
    ensures Tree(parts, chapters) == Run(LooseMarkAll(lines), Start, 0, Segment)
  {
    var ms := LooseMarkAll(lines);
    var st := Start;
    var i := 0;
    while i < |ms|
      invariant 0 <= i <= |ms|
      invariant Run(ms, st, i, Segment) == Run(ms, Start, 0, Segment)
    {
      st := StepAt(ms, st, i);
      i := i + 1;
    }
    var f := FlushGeneralInto(st);
    parts, chapters := f.parts, [];
    if f.part.Some? {
      var p := f.part.value;
      if f.chapter.Some? {
        p := p.(chapters := p.chapters + [f.chapter.value]);
      }
      parts := parts + [p];
    } else if f.chapter.Some? {
      chapters := [f.chapter.value];
    }
  }

  // ----- how many parts and chapters -----

  /** Every Part line adds one part, and the open part is kept at the end. */
  lemma {:induction false} RunParts(ms: seq<Marked>, st: FallbackState, i: nat, seg: string -> seq<Clause>)
    requires i <= |ms|
    ensures |Run(ms, st, i, seg).parts| == |st.parts| + (if st.part.Some? then 1 else 0) + CountKind(ms, i, PartM)
    decreases |ms| - i
  {
    if i < |ms| {
      RunParts(ms, Step(ms, st, i, seg), i + 1, seg);
    }
  }

  /** The Act gets at most one direct chapter, and only when no part was
      ever opened. */
  lemma {:induction false} RunChapters(ms: seq<Marked>, st: FallbackState, i: nat, seg: string -> seq<Clause>)
    requires i <= |ms|
    ensures var t := Run(ms, st, i, seg);
            |t.chapters| <= 1 && (|t.chapters| == 1 ==> st.part.None? && CountKind(ms, i, PartM) == 0)
    decreases |ms| - i
  {
    if i < |ms| {
      RunChapters(ms, Step(ms, st, i, seg), i + 1, seg);
    }
  }

  /** The fallback tree has one part per Part line, and at most one chapter
      directly under the Act, only when there are no parts. */
  lemma FallbackShape(ms: seq<Marked>, seg: string -> seq<Clause>)
    ensures var t := Run(ms, Start, 0, seg);
            && |t.parts| == CountKind(ms, 0, PartM)
            && |t.chapters| <= 1
            && (|t.chapters| == 1 ==> |t.parts| == 0)
  {
    RunParts(ms, Start, 0, seg);
    RunChapters(ms, Start, 0, seg);
  }

  // ----- numbers and clauses -----

  /** A section with an ASCII number and at most one clause. */
  predicate SectionOk(s: Section) {
    Numeral(s.sectionNumber) && |s.clauses| <= 1
  }

  predicate ChapterOk(c: Chapter) {
    Numeral(c.chapterNumber) && forall k :: 0 <= k < |c.sections| ==> SectionOk(c.sections[k])
  }

  predicate PartOk(p: Part) {
    Numeral(p.partNumber) && forall k :: 0 <= k < |p.chapters| ==> ChapterOk(p.chapters[k])
  }

  predicate StateOk(st: FallbackState) {
    && (forall k :: 0 <= k < |st.parts| ==> PartOk(st.parts[k]))
    && (st.part.Some? ==> PartOk(st.part.value))
    && (st.chapter.Some? ==> ChapterOk(st.chapter.value))
    && (st.section.Some? ==> SectionOk(st.section.value))
    && (forall k :: 0 <= k < |st.buffer| ==> '\n' !in st.buffer[k])
  }

  /** Lines without line feeds, whose numbers are empty or ASCII numerals. */
  predicate LinesOk(ms: seq<Marked>) {
    forall k :: 0 <= k < |ms| ==> '\n' !in ms[k].text && (ms[k].number == "" || Numeral(ms[k].number))
  }

  /** A clause finder that finds at most one clause in a single line. */
  ghost predicate SingleLineSeg(seg: string -> seq<Clause>) {
    forall content :: '\n' !in content ==> |seg(content)| <= 1
  }

  /** `detect_clauses` finds at most one clause in a single line. */
  lemma SegmentSingleLineSeg()
    ensures SingleLineSeg(Segment)
  {
    forall content | '\n' !in content ensures |Segment(content)| <= 1 {
      SegmentSingleLine(content);
    }
  }

  /** Extracted lines hold no line feed, so the marked lines are fine. */
  lemma LooseMarkAllOk(lines: seq<string>)
    requires forall k :: 0 <= k < |lines| ==> '\n' !in lines[k]
    ensures LinesOk(LooseMarkAll(lines))
  {
    forall k | 0 <= k < |lines| ensures ExtractNumber(lines[k]) == "" || Numeral(ExtractNumber(lines[k])) {
      ExtractNumberShape(lines[k]);
    }
  }

  /** Space-joined content is a single line, so it has at most one clause. */
  lemma FinishOk(s: Section, buffer: seq<string>, seg: string -> seq<Clause>)
    requires SectionOk(s) && SingleLineSeg(seg)
    requires forall k :: 0 <= k < |buffer| ==> '\n' !in buffer[k]
    ensures SectionOk(Finish(s, buffer, seg))
  {
    JoinAvoids(" ", buffer, '\n');
  }

  lemma AddSectionOk(c: Chapter, s: Section)
    requires ChapterOk(c) && SectionOk(s)
    ensures ChapterOk(c.(sections := c.sections + [s]))
  {
  }

  lemma AddChapterOk(p: Part, c: Chapter)
    requires PartOk(p) && ChapterOk(c)
    ensures PartOk(p.(chapters := p.chapters + [c]))
  {
  }

  lemma FlushKeepOk(st: FallbackState, seg: string -> seq<Clause>)
    requires StateOk(st) && SingleLineSeg(seg)
    ensures StateOk(FlushKeep(st, seg))
  {
    if st.section.Some? && |st.buffer| > 0 && st.chapter.Some? {
      FinishOk(st.section.value, st.buffer, seg);
      AddSectionOk(st.chapter.value, Finish(st.section.value, st.buffer, seg));
    }
  }

  lemma FlushGeneralOk(st: FallbackState, seg: string -> seq<Clause>)
    requires StateOk(st) && SingleLineSeg(seg)
    ensures StateOk(FlushGeneral(st, seg))
  {
    if st.section.Some? && |st.buffer| > 0 {
      FinishOk(st.section.value, st.buffer, seg);
      var c := if st.chapter.Some? then st.chapter.value else GeneralChapter;
      assert Numeral(GeneralChapter.chapterNumber);
      AddSectionOk(c, Finish(st.section.value, st.buffer, seg));
    }
  }

  lemma KeepChapterOk(st: FallbackState)
    requires StateOk(st)
    ensures StateOk(KeepChapter(st))
  {
    if st.chapter.Some? && st.part.Some? {
      AddChapterOk(st.part.value, st.chapter.value);
    }
  }

  /** Each iteration keeps every number an ASCII numeral and every section
      at no more than one clause. */
  lemma StepOk(ms: seq<Marked>, st: FallbackState, i: nat, seg: string -> seq<Clause>)
    requires i < |ms| && LinesOk(ms) && StateOk(st) && SingleLineSeg(seg)
    ensures StateOk(Step(ms, st, i, seg))
  {
    var m := ms[i];
    match m.kind
    case PartM =>
      FlushKeepOk(st, seg);
      KeepChapterOk(FlushKeep(st, seg));
    case ChapterM =>
      FlushKeepOk(st, seg);
      KeepChapterOk(FlushKeep(st, seg));
    case SectionM =>
      FlushGeneralOk(st, seg);
      assert Numeral("1");
    case NoneM =>
  }

  /** Every number in the tree is an ASCII numeral and every section holds at
      most one clause. */
  predicate TreeOk(t: Tree) {
    (forall k :: 0 <= k < |t.parts| ==> PartOk(t.parts[k])) &&
    (forall k :: 0 <= k < |t.chapters| ==> ChapterOk(t.chapters[k]))
  }

  /** The tree the fallback pass builds from lines without line feeds has
      ASCII numerals for every number and at most one clause per section. */
  lemma {:induction false} RunOk(ms: seq<Marked>, st: FallbackState, i: nat, seg: string -> seq<Clause>)
    requires i <= |ms| && LinesOk(ms) && StateOk(st) && SingleLineSeg(seg)
    ensures TreeOk(Run(ms, st, i, seg))
    decreases |ms| - i
  {
    if i < |ms| {
      var next := Step(ms, st, i, seg);
      StepOk(ms, st, i, seg);
      RunOk(ms, next, i + 1, seg);
      assert Run(ms, st, i, seg) == Run(ms, next, i + 1, seg);
    } else {
      FlushGeneralOk(st, seg);
      var f := FlushGeneral(st, seg);
      if f.part.Some? && f.chapter.Some? {
        AddChapterOk(f.part.value, f.chapter.value);
      }
    }
  }

  lemma FallbackOk(lines: seq<string>)
    requires forall k :: 0 <= k < |lines| ==> '\n' !in lines[k]
    ensures TreeOk(Run(LooseMarkAll(lines), Start, 0, Segment))
  {
    LooseMarkAllOk(lines);
    SegmentSingleLineSeg();
    RunOk(LooseMarkAll(lines), Start, 0, Segment);
  }

  // ----- defaults, the general chapter and dropped sections -----

  /** The number a marker line gets: the number found on the line, or else
      the part's position among the parts, the chapter's position in the
      open part ("1" with no part open), or "1" for a section. */
  lemma StepDefaults(ms: seq<Marked>, st: FallbackState, i: nat, seg: string -> seq<Clause>)
    requires i < |ms|
    ensures var m, r := ms[i], Step(ms, st, i, seg);
            && (m.kind == PartM ==>
                  r.part.Some? && r.part.value.partNumber == (if m.number != "" then m.number else NatToString(|r.parts| + 1)))
            && (m.kind == ChapterM ==>
                  r.chapter.Some? && r.chapter.value.chapterNumber ==
                    (if m.number != "" then m.number
                     else if r.part.Some? then NatToString(|r.part.value.chapters| + 1)
                     else "1"))
            && (m.kind == SectionM ==>
                  r.section.Some? && r.section.value.sectionNumber == (if m.number != "" then m.number else "1"))
  {
  }

  /** At a Section marker, a section with content but no open chapter is
      kept in a new chapter "1" titled "सामान्य (General)". */
  lemma SectionOpensGeneral(ms: seq<Marked>, st: FallbackState, i: nat, seg: string -> seq<Clause>)
    requires i < |ms| && ms[i].kind == SectionM
    requires st.section.Some? && |st.buffer| > 0 && st.chapter.None?
    ensures Step(ms, st, i, seg).chapter == Some(Chapter("1", GeneralTitle, [Finish(st.section.value, st.buffer, seg)]))
  {
    assert GeneralChapter.sections + [Finish(st.section.value, st.buffer, seg)] == [Finish(st.section.value, st.buffer, seg)];
  }

  /** At the end, a section with content and neither a chapter nor a part
      open reaches the Act inside a chapter "1" titled "सामान्य (General)". */
  lemma CloseOpensGeneral(st: FallbackState, seg: string -> seq<Clause>)
    requires st.section.Some? && |st.buffer| > 0 && st.chapter.None? && st.part.None?
    ensures Close(st, seg) == Tree(st.parts, [Chapter("1", GeneralTitle, [Finish(st.section.value, st.buffer, seg)])])
  {
    assert GeneralChapter.sections + [Finish(st.section.value, st.buffer, seg)] == [Finish(st.section.value, st.buffer, seg)];
  }

  /** At a Part or Chapter marker with no chapter open, the open section
      and its content are lost: the step is the same without them. */
  lemma HeadingLosesSection(ms: seq<Marked>, st: FallbackState, i: nat, seg: string -> seq<Clause>)
    requires i < |ms| && (ms[i].kind == PartM || ms[i].kind == ChapterM) && st.chapter.None?
    ensures Step(ms, st, i, seg) == Step(ms, st.(section := None, buffer := []), i, seg)
  {
  }

  /** A section whose buffer is empty is dropped at every marker and at the
      end: the step, and the final flush, are the same without it. */
  lemma EmptySectionDropped(ms: seq<Marked>, st: FallbackState, i: nat, seg: string -> seq<Clause>)
    requires i < |ms| && ms[i].kind != NoneM && st.buffer == []
    ensures Step(ms, st, i, seg) == Step(ms, st.(section := None), i, seg)
    ensures Close(st, seg) == Close(st.(section := None), seg)
  {
  }

  // ----- every kept section has content -----

  predicate ChapterFilled(c: Chapter) {
    forall k :: 0 <= k < |c.sections| ==> c.sections[k].content != ""
  }

  predicate PartFilled(p: Part) {
    forall k :: 0 <= k < |p.chapters| ==> ChapterFilled(p.chapters[k])
  }

  /** Every section the loop has kept has content, and so has every buffered
      line. */
  predicate StateFilled(st: FallbackState) {
    && (forall k :: 0 <= k < |st.parts| ==> PartFilled(st.parts[k]))
    && (st.part.Some? ==> PartFilled(st.part.value))
    && (st.chapter.Some? ==> ChapterFilled(st.chapter.value))
    && (forall k :: 0 <= k < |st.buffer| ==> st.buffer[k] != "")
  }

  /** Every section in the tree has content. */
  predicate TreeFilled(t: Tree) {
    (forall k :: 0 <= k < |t.parts| ==> PartFilled(t.parts[k])) &&
    (forall k :: 0 <= k < |t.chapters| ==> ChapterFilled(t.chapters[k]))
  }

  /** A flushed section's content is its non-empty buffer joined, so it is
      not empty when the first buffered line is not. */
  lemma FinishFilled(s: Section, buffer: seq<string>, seg: string -> seq<Clause>)
    requires |buffer| > 0 && buffer[0] != ""
    ensures Finish(s, buffer, seg).content != ""
  {
    JoinHead(" ", buffer);
  }

  lemma FlushKeepFilled(st: FallbackState, seg: string -> seq<Clause>)
    requires StateFilled(st)
    ensures StateFilled(FlushKeep(st, seg))
  {
    if st.section.Some? && |st.buffer| > 0 && st.chapter.Some? {
      FinishFilled(st.section.value, st.buffer, seg);
    }
  }

  lemma FlushGeneralFilled(st: FallbackState, seg: string -> seq<Clause>)
    requires StateFilled(st)
    ensures StateFilled(FlushGeneral(st, seg))
  {
    if st.section.Some? && |st.buffer| > 0 {
      FinishFilled(st.section.value, st.buffer, seg);
    }
  }

  lemma KeepChapterFilled(st: FallbackState)
    requires StateFilled(st)
    ensures StateFilled(KeepChapter(st))
  {
  }

  /** Each iteration over non-empty lines keeps only sections with content:
      a section with an empty buffer is never flushed. */
  lemma StepFilled(ms: seq<Marked>, st: FallbackState, i: nat, seg: string -> seq<Clause>)
    requires i < |ms| && ms[i].text != "" && StateFilled(st)
    ensures StateFilled(Step(ms, st, i, seg))
  {
    match ms[i].kind
    case PartM =>
      FlushKeepFilled(st, seg);
      KeepChapterFilled(FlushKeep(st, seg));
    case ChapterM =>
      FlushKeepFilled(st, seg);
      KeepChapterFilled(FlushKeep(st, seg));
    case SectionM =>
      FlushGeneralFilled(st, seg);
    case NoneM =>
  }

  /** Over non-empty lines, every section of the fallback tree has content. */
  lemma {:induction false} RunFilled(ms: seq<Marked>, st: FallbackState, i: nat, seg: string -> seq<Clause>)
    requires i <= |ms| && StateFilled(st)
    requires forall k :: 0 <= k < |ms| ==> ms[k].text != ""
    ensures TreeFilled(Run(ms, st, i, seg))
    decreases |ms| - i
  {
    if i < |ms| {
      StepFilled(ms, st, i, seg);
      RunFilled(ms, Step(ms, st, i, seg), i + 1, seg);
    } else {
      FlushGeneralFilled(st, seg);
    }
  }

  /** The fallback pass over non-empty lines keeps only sections with
      content. */
  lemma FallbackFilled(lines: seq<string>)
    requires forall k :: 0 <= k < |lines| ==> lines[k] != ""
    ensures TreeFilled(Run(LooseMarkAll(lines), Start, 0, Segment))
  {
    RunFilled(LooseMarkAll(lines), Start, 0, Segment);
  }
}
