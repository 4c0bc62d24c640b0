/**
 * The strict pass of `parse` (`parser.py` lines 94-162 with the helpers at
 * lines 286-317; `html_parser.py` lines 92-191).
 *
 * Both parsers run the same state machine over the list of lines: a line
 * that the anchored Part pattern matches closes the open section, chapter
 * and part and opens a part; a Chapter line closes the open section and
 * chapter and opens a chapter; a Section line closes the open section and
 * opens a section; any other line is buffered while a section is open and
 * dropped otherwise. The only difference is that the PDF parser fills a
 * closed section's clauses with `detect_clauses` and the HTML parser does
 * not: the clause finder `seg` is `Segment` for the one and `NoClauses` for
 * the other.
 *
 * `Run` is the loop as a fold over the lines, `ParseStrict` is the loop
 * itself, and `Outline` is an independent, declarative reading of the
 * document: each part holds the chapters whose markers follow it up to the
 * next Part marker, each chapter the sections up to the next Part or Chapter
 * marker, each section the lines up to the next marker. `RunIsOutline`
 * proves that the machine builds exactly that tree.
 *
 * Part, Chapter and Section objects are mutated by the source only while
 * they are the open ones, and never after they have been appended to their
 * parent, so they are modelled as values.
 */
module Strict {
  import opened Wrappers
  import opened Text
  import opened Numerals
  import opened Markers
  import opened Schema
  import opened Clauses

  function Mark(line: string): Marked {
    Marked(line, Classify(line), ExtractNumber(line))
  }

  function MarkAll(lines: seq<string>): (ms: seq<Marked>)
    ensures |ms| == |lines|
  {
    seq(|lines|, k requires 0 <= k < |lines| => Mark(lines[k]))
  }

  function Texts(ms: seq<Marked>): (r: seq<string>)
    ensures |r| == |ms|
  {
    seq(|ms|, k requires 0 <= k < |ms| => ms[k].text)
  }

  /** The HTML parser's `_flush_section` looks for no clauses. */
  function NoClauses(content: string): seq<Clause> {
    []
  }

  /** `_get_title_after(i)`: the next line, unless there is none or it is
      itself a marker. */
  function TitleAfter(ms: seq<Marked>, i: nat): string
    requires i < |ms|
  {
    if i + 1 < |ms| && ms[i + 1].kind == NoneM then ms[i + 1].text else ""
  }

  /** A line none of the three anchored patterns matches. */
  predicate PlainLine(line: string) {
    !AnchoredMarker(line, PartKeyword) && !AnchoredMarker(line, ChapterKeyword) &&
    !AnchoredMarker(line, SectionKeyword)
  }

  /** The title is the next line exactly when that line exists and none of
      the three anchored patterns matches it; otherwise it is empty. */
  lemma TitleAfterSpec(lines: seq<string>, i: nat)
    requires i < |lines|
    ensures TitleAfter(MarkAll(lines), i) ==
            if i + 1 < |lines| && PlainLine(lines[i + 1]) then lines[i + 1] else ""
  {
    if i + 1 < |lines| {
      var m := MarkAll(lines)[i + 1];
      assert m.kind == Classify(lines[i + 1]);
      assert m.text == lines[i + 1];
      if PlainLine(lines[i + 1]) {
        assert m.kind == NoneM;
      } else {
        assert m.kind != NoneM;
      }
    }
  }

  // ----- the state machine -----

  /** The loop's variables: the lists of the Act under construction, the
      open part, chapter and section, and the content buffer. */
  datatype StrictState = StrictState(
    parts: seq<Part>,
    chapters: seq<Chapter>,
    part: Option<Part>,
    chapter: Option<Chapter>,
    section: Option<Section>,
    buffer: seq<string>)

  const Init := StrictState([], [], None, None, None, [])

  /** The section `_flush_section` completes: its content is the buffer
      joined with line feeds, and (PDF parser only) its clauses are those
      `detect_clauses` finds in it, when it finds any. */
  function Complete(s: Section, buffer: seq<string>, seg: string -> seq<Clause>): Section {
    var content := Join("\n", buffer);
    var found := seg(content);
    s.(content := content, clauses := if |found| > 0 then found else s.clauses)
  }

  /** `_flush_section`: the open section is completed and appended to the
      open chapter; without an open chapter it is lost. */
  function FlushSection(st: StrictState, seg: string -> seq<Clause>): StrictState {
    if st.section.Some? && st.chapter.Some? then
      var c := st.chapter.value;
      st.(chapter := Some(c.(sections := c.sections + [Complete(st.section.value, st.buffer, seg)])))
    else st
  }

  /** `_flush_chapter`: the open chapter goes to the open part, or to the Act
      when no part is open. */
  function FlushChapter(st: StrictState): StrictState {
    if st.chapter.Some? then
      if st.part.Some? then
        st.(part := Some(st.part.value.(chapters := st.part.value.chapters + [st.chapter.value])))
      else st.(chapters := st.chapters + [st.chapter.value])
    else st
  }

  /** `_flush_part`: the open part goes to the Act. */
  function FlushPart(st: StrictState): StrictState {
    if st.part.Some? then st.(parts := st.parts + [st.part.value]) else st
  }

  /** One iteration of the loop, on line `i`. */
  function Step(ms: seq<Marked>, st: StrictState, i: nat, seg: string -> seq<Clause>): StrictState
    requires i < |ms|
  {
    match ms[i].kind
    case PartM =>
      FlushPart(FlushChapter(FlushSection(st, seg))).(
        part := Some(NewPart(ms[i].number, TitleAfter(ms, i))),
        chapter := None, section := None, buffer := [])
    case ChapterM =>
      FlushChapter(FlushSection(st, seg)).(
        chapter := Some(NewChapter(ms[i].number, TitleAfter(ms, i))),
        section := None, buffer := [])
    case SectionM =>
      FlushSection(st, seg).(
        section := Some(NewSection(ms[i].number, TitleAfter(ms, i), "")),
        buffer := [])
    case NoneM =>
      if st.section.Some? then st.(buffer := st.buffer + [ms[i].text]) else st
  }

  /** The flushes after the loop. */
  function Close(st: StrictState, seg: string -> seq<Clause>): StrictState {
    FlushPart(FlushChapter(FlushSection(st, seg)))
  }

  /** The loop from line `i` on, followed by the final flushes. */
  function Run(ms: seq<Marked>, st: StrictState, i: nat, seg: string -> seq<Clause>): Tree
    requires i <= |ms|
    decreases |ms| - i
  {
    if i == |ms| then
      var c := Close(st, seg);
      Tree(c.parts, c.chapters)
    else Run(ms, Step(ms, st, i, seg), i + 1, seg)
  }

  // ----- the document as a tree of markers -----

  const AnyMarker: set<Marker> := {PartM, ChapterM, SectionM}
  const Heading: set<Marker> := {PartM, ChapterM}
  const PartOnly: set<Marker> := {PartM}

  /** The first line at or after `i` whose kind is in `kinds`, or `|ms|`. */
  function NextIn(ms: seq<Marked>, i: nat, kinds: set<Marker>): (j: nat)
    requires i <= |ms|
    ensures i <= j <= |ms|
    ensures j < |ms| ==> ms[j].kind in kinds
    decreases |ms| - i
  {
    if i == |ms| || ms[i].kind in kinds then i else NextIn(ms, i + 1, kinds)
  }

  /** The section opened by the Section line `j`: its number and title, and
      the lines up to the next marker as its body. */
  function SectionAt(ms: seq<Marked>, j: nat, seg: string -> seq<Clause>): Section
    requires j < |ms| && ms[j].kind == SectionM
  {
    var body := Texts(ms[j + 1..NextIn(ms, j + 1, AnyMarker)]);
    Complete(NewSection(ms[j].number, TitleAfter(ms, j), ""), body, seg)
  }

  /** The sections whose Section lines come at or after `i` and before the
      next Part or Chapter line. */
  function SectionsFrom(ms: seq<Marked>, i: nat, seg: string -> seq<Clause>): seq<Section>
    requires i <= |ms|
    decreases |ms| - i
  {
    var j := NextIn(ms, i, AnyMarker);
    if j == |ms| || ms[j].kind != SectionM then []
    else [SectionAt(ms, j, seg)] + SectionsFrom(ms, j + 1, seg)
  }

  function ChapterAt(ms: seq<Marked>, j: nat, seg: string -> seq<Clause>): Chapter
    requires j < |ms| && ms[j].kind == ChapterM
  {
    Chapter(ms[j].number, TitleAfter(ms, j), SectionsFrom(ms, j + 1, seg))
  }

  /** The chapters whose Chapter lines come at or after `i` and before the
      next Part line. */
  function ChaptersFrom(ms: seq<Marked>, i: nat, seg: string -> seq<Clause>): seq<Chapter>
    requires i <= |ms|
    decreases |ms| - i
  {
    var j := NextIn(ms, i, Heading);
    if j == |ms| || ms[j].kind != ChapterM then []
    else [ChapterAt(ms, j, seg)] + ChaptersFrom(ms, j + 1, seg)
  }

  function PartAt(ms: seq<Marked>, j: nat, seg: string -> seq<Clause>): Part
    requires j < |ms| && ms[j].kind == PartM
  {
    Part(ms[j].number, TitleAfter(ms, j), ChaptersFrom(ms, j + 1, seg))
  }

  /** The parts whose Part lines come at or after `i`. */
  function PartsFrom(ms: seq<Marked>, i: nat, seg: string -> seq<Clause>): seq<Part>
    requires i <= |ms|
    decreases |ms| - i
  {
    var j := NextIn(ms, i, PartOnly);
    if j == |ms| then [] else [PartAt(ms, j, seg)] + PartsFrom(ms, j + 1, seg)
  }

  /** The document read as a tree: every Part line with its chapters, and
      the chapters before the first Part line directly under the Act.
      Sections before the first Chapter line of the document or of a part
      belong to no chapter and are not in the tree. */
  function Outline(ms: seq<Marked>, seg: string -> seq<Clause>): Tree {
    Tree(PartsFrom(ms, 0, seg), ChaptersFrom(ms, 0, seg))
  }

  // ----- helpers for the proof -----

  function AddSections(c: Option<Chapter>, ss: seq<Section>): Option<Chapter> {
    if c.Some? then Some(c.value.(sections := c.value.sections + ss)) else None
  }

  /** The chapters `cs` placed where `_flush_chapter` would place them. */
  function PutChapters(st: StrictState, cs: seq<Chapter>): StrictState {
    if st.part.Some? then st.(part := Some(st.part.value.(chapters := st.part.value.chapters + cs)))
    else st.(chapters := st.chapters + cs)
  }

  /** No section open, no chapter open. */
  function Settled(st: StrictState): StrictState {
    st.(chapter := None, section := None, buffer := [])
  }

  lemma {:induction false} NextInSkip(ms: seq<Marked>, i: nat, k: nat, kinds: set<Marker>, wider: set<Marker>)
    requires kinds <= wider
    requires i <= |ms| && i <= k <= NextIn(ms, i, wider)
    ensures NextIn(ms, i, kinds) == NextIn(ms, k, kinds)
    decreases k - i
  {
    if i < k {
      assert NextIn(ms, i, wider) == NextIn(ms, i + 1, wider);
      NextInSkip(ms, i + 1, k, kinds, wider);
    }
  }

  lemma NextInStays(ms: seq<Marked>, i: nat, kinds: set<Marker>)
    requires i == |ms| || (i < |ms| && ms[i].kind in kinds)
    ensures NextIn(ms, i, kinds) == i
  {
  }

  lemma NextInPast(ms: seq<Marked>, j: nat, kinds: set<Marker>)
    requires j < |ms| && ms[j].kind !in kinds
    ensures NextIn(ms, j, kinds) == NextIn(ms, j + 1, kinds)
  {
  }

  /** Lines that are no markers go to the open section's buffer. */
  lemma {:induction false} Absorb(ms: seq<Marked>, st: StrictState, i: nat, k: nat, seg: string -> seq<Clause>)
    requires st.section.Some?
    requires i <= |ms| && i <= k <= NextIn(ms, i, AnyMarker)
    ensures Run(ms, st, i, seg) ==
            Run(ms, st.(buffer := st.buffer + Texts(ms[i..k])), k, seg)
    decreases k - i
  {
    if i < k {
      assert NextIn(ms, i, AnyMarker) == NextIn(ms, i + 1, AnyMarker);
      var st1 := st.(buffer := st.buffer + [ms[i].text]);
      assert Step(ms, st, i, seg) == st1;
      Absorb(ms, st1, i + 1, k, seg);
      assert st1.buffer + Texts(ms[i + 1..k]) == st.buffer + Texts(ms[i..k]);
    } else {
      assert st.buffer + Texts(ms[i..k]) == st.buffer;
    }
  }

  /** Lines that are no markers are dropped when no section is open. */
  lemma {:induction false} Skip(ms: seq<Marked>, st: StrictState, i: nat, k: nat, seg: string -> seq<Clause>)
    requires st.section.None?
    requires i <= |ms| && i <= k <= NextIn(ms, i, AnyMarker)
    ensures Run(ms, st, i, seg) == Run(ms, st, k, seg)
    decreases k - i
  {
    if i < k {
      assert NextIn(ms, i, AnyMarker) == NextIn(ms, i + 1, AnyMarker);
      assert Step(ms, st, i, seg) == st;
      Skip(ms, st, i + 1, k, seg);
    }
  }

  /** At a marker or at the end, the open section is flushed first. */
  lemma SettleSection(ms: seq<Marked>, st: StrictState, i: nat, seg: string -> seq<Clause>)
    requires i == |ms| || (i < |ms| && ms[i].kind != NoneM)
    ensures Run(ms, st, i, seg) ==
            Run(ms, FlushSection(st, seg).(section := None, buffer := []), i, seg)
  {
    var fs := FlushSection(st, seg);
    var st' := fs.(section := None, buffer := []);
    assert FlushSection(st', seg) == st';
    assert FlushChapter(st') == FlushChapter(fs).(section := None, buffer := []);
    if i < |ms| {
      match ms[i].kind
      case PartM =>
        assert Step(ms, st, i, seg) == Step(ms, st', i, seg);
      case ChapterM =>
        assert Step(ms, st, i, seg) == Step(ms, st', i, seg);
      case SectionM =>
        assert Step(ms, st, i, seg) == Step(ms, st', i, seg);
    }
  }

  /** At a Part line or at the end, the open chapter is flushed first. */
  lemma SettleChapter(ms: seq<Marked>, st: StrictState, i: nat, seg: string -> seq<Clause>)
    requires st.section.None? && st.buffer == []
    requires i == |ms| || (i < |ms| && ms[i].kind == PartM)
    ensures Run(ms, st, i, seg) == Run(ms, Settled(FlushChapter(st)), i, seg)
  {
    if i < |ms| {
      assert Step(ms, st, i, seg) == Step(ms, Settled(FlushChapter(st)), i, seg);
    }
  }

  // The grammar's recursions, one step at a time.

  lemma SectionsFromSkip(ms: seq<Marked>, i: nat, k: nat, seg: string -> seq<Clause>)
    requires i <= |ms| && i <= k <= NextIn(ms, i, AnyMarker)
    ensures SectionsFrom(ms, i, seg) == SectionsFrom(ms, k, seg)
  {
    NextInSkip(ms, i, k, AnyMarker, AnyMarker);
  }

  lemma SectionsFromAt(ms: seq<Marked>, j: nat, seg: string -> seq<Clause>)
    requires j < |ms| && ms[j].kind == SectionM
    ensures SectionsFrom(ms, j, seg) == [SectionAt(ms, j, seg)] + SectionsFrom(ms, j + 1, seg)
  {
    assert ms[j].kind in AnyMarker;
    NextInStays(ms, j, AnyMarker);
  }

  lemma SectionsFromEnd(ms: seq<Marked>, j: nat, seg: string -> seq<Clause>)
    requires j == |ms| || (j < |ms| && ms[j].kind in Heading)
    ensures SectionsFrom(ms, j, seg) == []
  {
    NextInStays(ms, j, AnyMarker);
  }

  lemma ChaptersFromSkip(ms: seq<Marked>, i: nat, k: nat, seg: string -> seq<Clause>)
    requires i <= |ms| && i <= k <= NextIn(ms, i, Heading)
    ensures ChaptersFrom(ms, i, seg) == ChaptersFrom(ms, k, seg)
  {
    NextInSkip(ms, i, k, Heading, Heading);
  }

  lemma ChaptersFromAt(ms: seq<Marked>, j: nat, seg: string -> seq<Clause>)
    requires j < |ms| && ms[j].kind == ChapterM
    ensures ChaptersFrom(ms, j, seg) == [ChapterAt(ms, j, seg)] + ChaptersFrom(ms, j + 1, seg)
  {
    NextInStays(ms, j, Heading);
  }

  lemma ChaptersFromEnd(ms: seq<Marked>, j: nat, seg: string -> seq<Clause>)
    requires j == |ms| || (j < |ms| && ms[j].kind == PartM)
    ensures ChaptersFrom(ms, j, seg) == []
  {
    NextInStays(ms, j, Heading);
  }

  lemma PartsFromSkip(ms: seq<Marked>, i: nat, k: nat, seg: string -> seq<Clause>)
    requires i <= |ms| && i <= k <= NextIn(ms, i, PartOnly)
    ensures PartsFrom(ms, i, seg) == PartsFrom(ms, k, seg)
  {
    NextInSkip(ms, i, k, PartOnly, PartOnly);
  }

  lemma PartsFromAt(ms: seq<Marked>, j: nat, seg: string -> seq<Clause>)
    requires j < |ms| && ms[j].kind == PartM
    ensures PartsFrom(ms, j, seg) == [PartAt(ms, j, seg)] + PartsFrom(ms, j + 1, seg)
  {
    NextInStays(ms, j, PartOnly);
  }

  /** A Section line opens a section that takes the lines up to the next
      marker and is then flushed into the open chapter. */
  lemma SectionStep(ms: seq<Marked>, st: StrictState, j: nat, seg: string -> seq<Clause>)
    requires j < |ms| && ms[j].kind == SectionM
    requires st.section.None? && st.buffer == []
    ensures Run(ms, st, j, seg) ==
            Run(ms, st.(chapter := AddSections(st.chapter, [SectionAt(ms, j, seg)])),
                NextIn(ms, j + 1, AnyMarker), seg)
  {
    var sec := NewSection(ms[j].number, TitleAfter(ms, j), "");
    var st1 := st.(section := Some(sec));
    assert Step(ms, st, j, seg) == st1;
    var m := NextIn(ms, j + 1, AnyMarker);
    Absorb(ms, st1, j + 1, m, seg);
    var st2 := st1.(buffer := Texts(ms[j + 1..m]));
    assert st1.buffer + Texts(ms[j + 1..m]) == Texts(ms[j + 1..m]);
    SettleSection(ms, st2, m, seg);
  }

  lemma AddSectionsTwice(c: Option<Chapter>, a: seq<Section>, b: seq<Section>)
    ensures AddSections(AddSections(c, a), b) == AddSections(c, a + b)
  {
    if c.Some? {
      assert c.value.sections + a + b == c.value.sections + (a + b);
    }
  }

  /** From `i` to the next Part or Chapter line, the machine appends
      `SectionsFrom(i)` to the open chapter. */
  lemma {:induction false} SectionsRun(ms: seq<Marked>, st: StrictState, i: nat, seg: string -> seq<Clause>)
    requires i <= |ms|
    requires st.section.None? && st.buffer == []
    ensures Run(ms, st, i, seg) ==
            Run(ms, st.(chapter := AddSections(st.chapter, SectionsFrom(ms, i, seg))),
                NextIn(ms, i, Heading), seg)
    decreases |ms| - i, 1
  {
    var j := NextIn(ms, i, AnyMarker);
    Skip(ms, st, i, j, seg);
    NextInSkip(ms, i, j, Heading, AnyMarker);
    SectionsFromSkip(ms, i, j, seg);
    if j == |ms| || ms[j].kind != SectionM {
      NextInStays(ms, j, Heading);
      SectionsFromEnd(ms, j, seg);
      if st.chapter.Some? {
        assert st.chapter.value.sections + [] == st.chapter.value.sections;
      }
    } else {
      SectionsRunAt(ms, st, j, seg);
    }
  }

  /** The same, from a Section line. */
  lemma {:induction false} SectionsRunAt(ms: seq<Marked>, st: StrictState, j: nat, seg: string -> seq<Clause>)
    requires j < |ms| && ms[j].kind == SectionM
    requires st.section.None? && st.buffer == []
    ensures Run(ms, st, j, seg) ==
            Run(ms, st.(chapter := AddSections(st.chapter, SectionsFrom(ms, j, seg))),
                NextIn(ms, j, Heading), seg)
    decreases |ms| - j, 0
  {
    var sj := SectionAt(ms, j, seg);
    var m := NextIn(ms, j + 1, AnyMarker);
    SectionStep(ms, st, j, seg);
    var st3 := st.(chapter := AddSections(st.chapter, [sj]));
    SectionsRun(ms, st3, m, seg);
    SectionsFromAt(ms, j, seg);
    SectionsFromSkip(ms, j + 1, m, seg);
    AddSectionsTwice(st.chapter, [sj], SectionsFrom(ms, m, seg));
    NextInSkip(ms, j + 1, m, Heading, AnyMarker);
    NextInPast(ms, j, Heading);
  }

  /** A Chapter line, with no section open, flushes the open chapter and
      opens a new one. */
  lemma ChapterStep(ms: seq<Marked>, st: StrictState, j: nat, seg: string -> seq<Clause>)
    requires j < |ms| && ms[j].kind == ChapterM
    requires st.section.None? && st.buffer == []
    ensures Run(ms, st, j, seg) ==
            Run(ms, FlushChapter(st).(chapter := Some(NewChapter(ms[j].number, TitleAfter(ms, j)))), j + 1, seg)
  {
    assert Step(ms, st, j, seg) == FlushChapter(st).(chapter := Some(NewChapter(ms[j].number, TitleAfter(ms, j))));
  }

  /** A Part line, with nothing open below the part, flushes the open part
      and opens a new one. */
  lemma PartStep(ms: seq<Marked>, st: StrictState, j: nat, seg: string -> seq<Clause>)
    requires j < |ms| && ms[j].kind == PartM
    requires st.chapter.None? && st.section.None? && st.buffer == []
    ensures Run(ms, st, j, seg) ==
            Run(ms, FlushPart(st).(part := Some(NewPart(ms[j].number, TitleAfter(ms, j)))), j + 1, seg)
  {
    assert Step(ms, st, j, seg) == FlushPart(st).(part := Some(NewPart(ms[j].number, TitleAfter(ms, j))));
  }

  /** Placing no chapters changes nothing. */
  lemma PutNone(st: StrictState)
    ensures PutChapters(st, []) == st
  {
    if st.part.Some? {
      assert st.part.value.chapters + [] == st.part.value.chapters;
    } else {
      assert st.chapters + [] == st.chapters;
    }
  }

  /** Flushing chapter `c` and then placing `rest` places `[c] + rest`. */
  lemma PutAfterFlush(st: StrictState, c: Chapter, rest: seq<Chapter>)
    ensures Settled(PutChapters(FlushChapter(st.(chapter := Some(c))), rest)) ==
            Settled(PutChapters(st, [c] + rest))
  {
    if st.part.Some? {
      assert st.part.value.chapters + [c] + rest == st.part.value.chapters + ([c] + rest);
    } else {
      assert st.chapters + [c] + rest == st.chapters + ([c] + rest);
    }
  }

  /** A part opened with no chapters and then given `cs` is the part with
      chapters `cs`. */
  lemma PartFilled(st: StrictState, pt: Part, cs: seq<Chapter>)
    requires st.chapter.None? && st.section.None? && st.buffer == [] && pt.chapters == []
    ensures var st1 := FlushPart(st).(part := Some(pt));
            Settled(PutChapters(FlushChapter(st1), cs)) == FlushPart(st).(part := Some(pt.(chapters := cs)))
  {
    assert [] + cs == cs;
  }

  /** From `i` to the next Part line, the machine completes the open chapter
      with `SectionsFrom(i)`, flushes it, and then places `ChaptersFrom(i)`
      where the open chapter went. */
  lemma {:induction false} ChaptersRun(ms: seq<Marked>, st: StrictState, i: nat, seg: string -> seq<Clause>)
    requires i <= |ms|
    requires st.section.None? && st.buffer == []
    ensures Run(ms, st, i, seg) ==
            Run(ms,
                Settled(PutChapters(
                  FlushChapter(st.(chapter := AddSections(st.chapter, SectionsFrom(ms, i, seg)))),
                  ChaptersFrom(ms, i, seg))),
                NextIn(ms, i, PartOnly), seg)
    decreases |ms| - i, 1
  {
    var j := NextIn(ms, i, Heading);
    var st1 := st.(chapter := AddSections(st.chapter, SectionsFrom(ms, i, seg)));
    SectionsRun(ms, st, i, seg);
    NextInSkip(ms, i, j, PartOnly, Heading);
    ChaptersFromSkip(ms, i, j, seg);
    if j == |ms| || ms[j].kind != ChapterM {
      NextInStays(ms, j, PartOnly);
      SettleChapter(ms, st1, j, seg);
      ChaptersFromEnd(ms, j, seg);
      PutNone(FlushChapter(st1));
    } else {
      ChaptersRunAt(ms, st1, j, seg);
    }
  }

  /** From a Chapter line, with no section open: the open chapter is flushed
      and `ChaptersFrom(j)` is placed after it. */
  lemma {:induction false} ChaptersRunAt(ms: seq<Marked>, st: StrictState, j: nat, seg: string -> seq<Clause>)
    requires j < |ms| && ms[j].kind == ChapterM
    requires st.section.None? && st.buffer == []
    ensures Run(ms, st, j, seg) ==
            Run(ms, Settled(PutChapters(FlushChapter(st), ChaptersFrom(ms, j, seg))),
                NextIn(ms, j, PartOnly), seg)
    decreases |ms| - j, 0
  {
    var f := FlushChapter(st);
    var st2 := f.(chapter := Some(NewChapter(ms[j].number, TitleAfter(ms, j))));
    ChapterStep(ms, st, j, seg);
    ChaptersRun(ms, st2, j + 1, seg);
    var cj := ChapterAt(ms, j, seg);
    assert [] + SectionsFrom(ms, j + 1, seg) == SectionsFrom(ms, j + 1, seg);
    assert st2.(chapter := AddSections(st2.chapter, SectionsFrom(ms, j + 1, seg))) == f.(chapter := Some(cj));
    ChaptersFromAt(ms, j, seg);
    PutAfterFlush(f, cj, ChaptersFrom(ms, j + 1, seg));
    NextInPast(ms, j, PartOnly);
  }

  /** A Part line, with no chapter open: the open part is flushed and the
      part of this line, with its chapters, is opened; the machine goes on
      from the next Part line. */
  lemma PartBlock(ms: seq<Marked>, st: StrictState, i: nat, seg: string -> seq<Clause>)
    requires i < |ms| && ms[i].kind == PartM
    requires st.chapter.None? && st.section.None? && st.buffer == []
    ensures Run(ms, st, i, seg) ==
            Run(ms, FlushPart(st).(part := Some(PartAt(ms, i, seg))), NextIn(ms, i + 1, PartOnly), seg)
  {
    var pt := NewPart(ms[i].number, TitleAfter(ms, i));
    var st1 := FlushPart(st).(part := Some(pt));
    PartStep(ms, st, i, seg);
    ChaptersRun(ms, st1, i + 1, seg);
    assert AddSections(None, SectionsFrom(ms, i + 1, seg)) == None;
    PartFilled(st, pt, ChaptersFrom(ms, i + 1, seg));
  }

  lemma AppendPart(ps: seq<Part>, opt: seq<Part>, p: Part, rest: seq<Part>)
    ensures ps + opt + [p] + rest == ps + opt + ([p] + rest)
  {
  }

  /** From a Part line or the end, with no chapter open, the machine appends
      the open part (if any) and then `PartsFrom(i)` to the Act. */
  lemma {:induction false} PartsRun(ms: seq<Marked>, st: StrictState, i: nat, seg: string -> seq<Clause>)
    requires i == |ms| || (i < |ms| && ms[i].kind == PartM)
    requires st.chapter.None? && st.section.None? && st.buffer == []
    ensures Run(ms, st, i, seg) ==
            Tree(st.parts + (if st.part.Some? then [st.part.value] else []) + PartsFrom(ms, i, seg),
                 st.chapters)
    decreases |ms| - i
  {
    if i < |ms| {
      var opt := if st.part.Some? then [st.part.value] else [];
      var pi := PartAt(ms, i, seg);
      var n := FlushPart(st).(part := Some(pi));
      assert n.parts == st.parts + opt && n.chapters == st.chapters;
      var p := NextIn(ms, i + 1, PartOnly);
      PartBlock(ms, st, i, seg);
      PartsRun(ms, n, p, seg);
      assert Run(ms, st, i, seg) == Tree(st.parts + opt + [pi] + PartsFrom(ms, p, seg), st.chapters);
      PartsFromAt(ms, i, seg);
      PartsFromSkip(ms, i + 1, p, seg);
      assert PartsFrom(ms, i, seg) == [pi] + PartsFrom(ms, p, seg);
      AppendPart(st.parts, opt, pi, PartsFrom(ms, p, seg));
    } else {
      assert PartsFrom(ms, i, seg) == [];
    }
  }

  /** The state machine builds the document's tree: the parts of the Part
      lines with their chapters, and the chapters before the first Part line
      directly under the Act. */
  lemma RunIsOutline(ms: seq<Marked>, seg: string -> seq<Clause>)
    ensures Run(ms, Init, 0, seg) == Outline(ms, seg)
  {
    ChaptersRun(ms, Init, 0, seg);
    var p := NextIn(ms, 0, PartOnly);
    var n := Init.(chapters := ChaptersFrom(ms, 0, seg));
    assert Settled(PutChapters(FlushChapter(Init.(chapter := AddSections(None, SectionsFrom(ms, 0, seg)))),
                               ChaptersFrom(ms, 0, seg))) == n;
    PartsRun(ms, n, p, seg);
    PartsFromSkip(ms, 0, p, seg);
  }

  // ----- the loop -----

  /** The clause finder of each parser: `detect_clauses` for the PDF parser,
      none for the HTML parser. */
  function SegOf(withClauses: bool): string -> seq<Clause> {
    if withClauses then Segment else NoClauses
  }

  /** `_flush_section`; the PDF parser runs `detect_clauses` on the joined
      buffer. */
  method FlushSectionInto(st: StrictState, withClauses: bool) returns (r: StrictState)
    ensures r == FlushSection(st, SegOf(withClauses))
  {
    r := st;
    if st.section.Some? && st.chapter.Some? {
      var content := Join("\n", st.buffer);
      var found: seq<Clause> := [];
      if withClauses {
        found := DetectClauses(content);
      }
      var s := st.section.value.(content := content);
      if |found| > 0 {
        s := s.(clauses := found);
      }
      var c := st.chapter.value;
      r := st.(chapter := Some(c.(sections := c.sections + [s])));
    }
  }

  /** One iteration of the loop of `parse`, on line `i`. */
  method StepAt(ms: seq<Marked>, st: StrictState, i: nat, withClauses: bool) returns (r: StrictState)
    requires i < |ms|
    ensures r == Step(ms, st, i, SegOf(withClauses))
  {
    var m := ms[i];
    match m.kind
    case PartM =>
      r := FlushSectionInto(st, withClauses);
      r := FlushPart(FlushChapter(r));
      r := r.(part := Some(NewPart(m.number, TitleAfter(ms, i))),
              chapter := None, section := None, buffer := []);
    case ChapterM =>
      r := FlushSectionInto(st, withClauses);
      r := FlushChapter(r);
      r := r.(chapter := Some(NewChapter(m.number, TitleAfter(ms, i))),
              section := None, buffer := []);
    case SectionM =>
      r := FlushSectionInto(st, withClauses);
      r := r.(section := Some(NewSection(m.number, TitleAfter(ms, i), "")), buffer := []);
    case NoneM =>
      r := st;
      if st.section.Some? {
        r := st.(buffer := st.buffer + [m.text]);
      }
  }

  /** The loop of `parse` over classified lines, and the final flushes: it
      builds exactly the document's outline. */
  method RunMachine(ms: seq<Marked>, withClauses: bool) returns (parts: seq<Part>, chapters: seq<Chapter>)
    ensures Tree(parts, chapters) == Outline(ms, SegOf(withClauses))
  {
    ghost var seg := SegOf(withClauses);
    var st := Init;
    var i := 0;
    while i < |ms|
      invariant 0 <= i <= |ms|
      invariant Run(ms, st, i, seg) == Run(ms, Init, 0, seg)
    {
      st := StepAt(ms, st, i, withClauses);
      i := i + 1;
    }
    st := FlushSectionInto(st, withClauses);
    st := FlushPart(FlushChapter(st));
    parts, chapters := st.parts, st.chapters;
    RunIsOutline(ms, seg);
  }

  /** The strict pass of `parse` (PDF parser: `withClauses`; HTML parser:
      not), over the extracted lines. */
  method ParseStrict(lines: seq<string>, withClauses: bool) returns (parts: seq<Part>, chapters: seq<Chapter>)
    ensures Tree(parts, chapters) == Outline(MarkAll(lines), SegOf(withClauses))
  {
    parts, chapters := RunMachine(MarkAll(lines), withClauses);
  }
}
