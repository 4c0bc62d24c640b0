/**
 * What the strict pass promises about the tree it builds, read off the
 * outline that `ParseStrict` is proved to compute: every Part and Chapter
 * line yields exactly one part or chapter, every section comes from a
 * Section line with the lines up to the next marker as its body, numbers are
 * ASCII numerals, a section's title line is also its first content line,
 * and the HTML parser's sections have no clauses.
 */
module StrictFacts {
  import opened Wrappers
  import opened Text
  import opened Numerals
  import opened Markers
  import opened Schema
  import opened Clauses
  import opened Strict

  /** Every chapter of the tree: those directly under the Act, then those of
      the parts. */
  function AllChapters(t: Tree): seq<Chapter> {
    t.chapters + ChaptersOf(t.parts)
  }

  function AllSections(t: Tree): seq<Section> {
    SectionsOf(AllChapters(t))
  }

  /** `NextIn` skips only lines whose kind is not sought. */
  lemma {:induction false} NextInBetween(ms: seq<Marked>, i: nat, kinds: set<Marker>)
    requires i <= |ms|
    ensures forall k :: i <= k < NextIn(ms, i, kinds) ==> ms[k].kind !in kinds
    decreases |ms| - i
  {
    if i < |ms| && ms[i].kind !in kinds {
      NextInBetween(ms, i + 1, kinds);
    }
  }

  // ----- where the parts, chapters and sections come from -----

  lemma {:induction false} SectionsFromMembers(ms: seq<Marked>, i: nat, seg: string -> seq<Clause>)
    requires i <= |ms|
    ensures forall s :: s in SectionsFrom(ms, i, seg) ==>
              exists j :: i <= j < |ms| && ms[j].kind == SectionM && s == SectionAt(ms, j, seg)
    decreases |ms| - i
  {
    var j := NextIn(ms, i, AnyMarker);
    if j < |ms| && ms[j].kind == SectionM {
      SectionsFromMembers(ms, j + 1, seg);
      var rest := SectionsFrom(ms, j + 1, seg);
      assert SectionsFrom(ms, i, seg) == [SectionAt(ms, j, seg)] + rest;
      forall s | s in SectionsFrom(ms, i, seg)
        ensures exists j' :: i <= j' < |ms| && ms[j'].kind == SectionM && s == SectionAt(ms, j', seg)
      {
        if s != SectionAt(ms, j, seg) {
          assert s in rest;
        }
      }
    } else {
      assert SectionsFrom(ms, i, seg) == [];
    }
  }

  lemma {:induction false} ChaptersFromMembers(ms: seq<Marked>, i: nat, seg: string -> seq<Clause>)
    requires i <= |ms|
    ensures forall c :: c in ChaptersFrom(ms, i, seg) ==>
              exists j :: i <= j < |ms| && ms[j].kind == ChapterM && c == ChapterAt(ms, j, seg)
    decreases |ms| - i
  {
    var j := NextIn(ms, i, Heading);
    if j < |ms| && ms[j].kind == ChapterM {
      ChaptersFromMembers(ms, j + 1, seg);
      var rest := ChaptersFrom(ms, j + 1, seg);
      assert ChaptersFrom(ms, i, seg) == [ChapterAt(ms, j, seg)] + rest;
      forall c | c in ChaptersFrom(ms, i, seg)
        ensures exists j' :: i <= j' < |ms| && ms[j'].kind == ChapterM && c == ChapterAt(ms, j', seg)
      {
        if c != ChapterAt(ms, j, seg) {
          assert c in rest;
        }
      }
    } else {
      assert ChaptersFrom(ms, i, seg) == [];
    }
  }

  lemma {:induction false} PartsFromMembers(ms: seq<Marked>, i: nat, seg: string -> seq<Clause>)
    requires i <= |ms|
    ensures forall p :: p in PartsFrom(ms, i, seg) ==>
              exists j :: i <= j < |ms| && ms[j].kind == PartM && p == PartAt(ms, j, seg)
    decreases |ms| - i
  {
    var j := NextIn(ms, i, PartOnly);
    if j < |ms| {
      PartsFromMembers(ms, j + 1, seg);
      var rest := PartsFrom(ms, j + 1, seg);
      assert PartsFrom(ms, i, seg) == [PartAt(ms, j, seg)] + rest;
      forall p | p in PartsFrom(ms, i, seg)
        ensures exists j' :: i <= j' < |ms| && ms[j'].kind == PartM && p == PartAt(ms, j', seg)
      {
        if p != PartAt(ms, j, seg) {
          assert p in rest;
        }
      }
    } else {
      assert PartsFrom(ms, i, seg) == [];
    }
  }

  /** Every chapter of the outline is the chapter of some Chapter line. */
  lemma OutlineChapters(ms: seq<Marked>, seg: string -> seq<Clause>)
    ensures forall c :: c in AllChapters(Outline(ms, seg)) ==>
              exists j :: 0 <= j < |ms| && ms[j].kind == ChapterM && c == ChapterAt(ms, j, seg)
  {
    var t := Outline(ms, seg);
    forall c | c in AllChapters(t)
      ensures exists j :: 0 <= j < |ms| && ms[j].kind == ChapterM && c == ChapterAt(ms, j, seg)
    {
      if c in t.chapters {
        ChaptersFromMembers(ms, 0, seg);
      } else {
        ChaptersOfMember(t.parts, c);
        var p :| p in t.parts && c in p.chapters;
        PartsFromMembers(ms, 0, seg);
        var jp :| 0 <= jp < |ms| && ms[jp].kind == PartM && p == PartAt(ms, jp, seg);
        ChapterOfPart(ms, jp, seg, c);
      }
    }
  }

  /** A chapter of a part is the chapter of some Chapter line. */
  lemma ChapterOfPart(ms: seq<Marked>, jp: nat, seg: string -> seq<Clause>, c: Chapter)
    requires jp < |ms| && ms[jp].kind == PartM && c in PartAt(ms, jp, seg).chapters
    ensures exists j :: 0 <= j < |ms| && ms[j].kind == ChapterM && c == ChapterAt(ms, j, seg)
  {
    ChaptersFromMembers(ms, jp + 1, seg);
  }

  /** Every section of the outline is the section of some Section line. */
  lemma OutlineSections(ms: seq<Marked>, seg: string -> seq<Clause>)
    ensures forall s :: s in AllSections(Outline(ms, seg)) ==>
              exists j :: 0 <= j < |ms| && ms[j].kind == SectionM && s == SectionAt(ms, j, seg)
  {
    var t := Outline(ms, seg);
    OutlineChapters(ms, seg);
    forall s | s in AllSections(t)
      ensures exists j :: 0 <= j < |ms| && ms[j].kind == SectionM && s == SectionAt(ms, j, seg)
    {
      SectionsOfMember(AllChapters(t), s);
      var c :| c in AllChapters(t) && s in c.sections;
      var jc :| 0 <= jc < |ms| && ms[jc].kind == ChapterM && c == ChapterAt(ms, jc, seg);
      SectionOfChapter(ms, jc, seg, s);
    }
  }

  /** A section of a chapter is the section of some Section line. */
  lemma SectionOfChapter(ms: seq<Marked>, jc: nat, seg: string -> seq<Clause>, s: Section)
    requires jc < |ms| && ms[jc].kind == ChapterM && s in ChapterAt(ms, jc, seg).sections
    ensures exists j :: 0 <= j < |ms| && ms[j].kind == SectionM && s == SectionAt(ms, j, seg)
  {
    SectionsFromMembers(ms, jc + 1, seg);
  }

  // ----- one section -----

  /** A section's body is the run of lines after its Section line up to the
      next marker line or the end: no marker line enters it, and every line
      of the run does. Its content is those lines joined with line feeds, its
      clauses are what the clause finder makes of that content, and its
      title is the first line of the run when that run is not empty. */
  lemma SectionAtBody(ms: seq<Marked>, j: nat, seg: string -> seq<Clause>)
    requires j < |ms| && ms[j].kind == SectionM
    ensures var s := SectionAt(ms, j, seg);
            exists m :: j < m <= |ms| &&
              (forall k :: j < k < m ==> ms[k].kind == NoneM) &&
              (m == |ms| || ms[m].kind != NoneM) &&
              s.content == Join("\n", Texts(ms[j + 1..m])) &&
              s.clauses == seg(s.content) &&
              s.sectionNumber == ms[j].number &&
              s.title == Some(if j + 1 < m then ms[j + 1].text else "")
  {
    var m := NextIn(ms, j + 1, AnyMarker);
    NextInBetween(ms, j + 1, AnyMarker);
    assert m == |ms| || ms[m].kind != NoneM;
  }

  /** A non-empty section title is also the start of the section's content. */
  lemma SectionTitleLeadsContent(ms: seq<Marked>, j: nat, seg: string -> seq<Clause>)
    requires j < |ms| && ms[j].kind == SectionM
    ensures var s := SectionAt(ms, j, seg);
            s.title.Some? && (s.title.value != "" ==> StartsWith(s.content, s.title.value))
  {
    var s := SectionAt(ms, j, seg);
    var m := NextIn(ms, j + 1, AnyMarker);
    if TitleAfter(ms, j) != "" {
      assert m > j + 1;
      JoinHead("\n", Texts(ms[j + 1..m]));
    }
  }

  // ----- the whole tree -----

  /** Lines without any anchored marker give an empty tree. */
  lemma NoMarkerNoTree(lines: seq<string>, seg: string -> seq<Clause>)
    requires forall k :: 0 <= k < |lines| ==> PlainLine(lines[k])
    ensures Outline(MarkAll(lines), seg) == Tree([], [])
  {
    var ms := MarkAll(lines);
    forall k | 0 <= k < |ms| ensures ms[k].kind == NoneM {
      ClassifyExact(lines[k]);
    }
    NextInNone(ms, 0, PartOnly);
    NextInNone(ms, 0, Heading);
  }

  /** With no line of the kinds from `i` on, the search reaches the end. */
  lemma {:induction false} NextInNone(ms: seq<Marked>, i: nat, kinds: set<Marker>)
    requires i <= |ms|
    requires forall k :: i <= k < |ms| ==> ms[k].kind == NoneM
    requires NoneM !in kinds
    ensures NextIn(ms, i, kinds) == |ms|
    decreases |ms| - i
  {
    if i < |ms| {
      NextInNone(ms, i + 1, kinds);
    }
  }

  /** One part per Part line, and one chapter per Chapter line: the chapters
      before the first Part line go to the Act, the others to the part
      before them, and none is lost. */
  lemma {:induction false} HeadingsCounted(ms: seq<Marked>, i: nat, seg: string -> seq<Clause>)
    requires i <= |ms|
    ensures |PartsFrom(ms, i, seg)| == CountKind(ms, i, PartM)
    ensures |ChaptersFrom(ms, i, seg)| + |ChaptersOf(PartsFrom(ms, i, seg))| == CountKind(ms, i, ChapterM)
    decreases |ms| - i
  {
    if i < |ms| {
      HeadingsCounted(ms, i + 1, seg);
      if ms[i].kind == PartM {
        HeadingsStepPart(ms, i, seg);
      } else if ms[i].kind == ChapterM {
        HeadingsStepChapter(ms, i, seg);
      } else {
        HeadingsStepSkip(ms, i, seg);
      }
    } else {
      assert PartsFrom(ms, i, seg) == [] && ChaptersFrom(ms, i, seg) == [];
    }
  }

  predicate HeadingsCountedFrom(ms: seq<Marked>, i: nat, seg: string -> seq<Clause>)
    requires i <= |ms|
  {
    && |PartsFrom(ms, i, seg)| == CountKind(ms, i, PartM)
    && |ChaptersFrom(ms, i, seg)| + |ChaptersOf(PartsFrom(ms, i, seg))| == CountKind(ms, i, ChapterM)
  }

  lemma HeadingsStepPart(ms: seq<Marked>, i: nat, seg: string -> seq<Clause>)
    requires i < |ms| && ms[i].kind == PartM
    requires HeadingsCountedFrom(ms, i + 1, seg)
    ensures HeadingsCountedFrom(ms, i, seg)
  {
    PartsFromAt(ms, i, seg);
    ChaptersFromEnd(ms, i, seg);
    var p := PartAt(ms, i, seg);
    var rest := PartsFrom(ms, i + 1, seg);
    assert ([p] + rest)[1..] == rest;
    assert ChaptersOf([p] + rest) == p.chapters + ChaptersOf(rest);
  }

  lemma HeadingsStepChapter(ms: seq<Marked>, i: nat, seg: string -> seq<Clause>)
    requires i < |ms| && ms[i].kind == ChapterM
    requires HeadingsCountedFrom(ms, i + 1, seg)
    ensures HeadingsCountedFrom(ms, i, seg)
  {
    PartsFromSkip(ms, i, i + 1, seg);
    ChaptersFromAtLength(ms, i, seg);
    assert CountKind(ms, i, ChapterM) == 1 + CountKind(ms, i + 1, ChapterM);
    assert CountKind(ms, i, PartM) == CountKind(ms, i + 1, PartM);
  }

  lemma ChaptersFromAtLength(ms: seq<Marked>, j: nat, seg: string -> seq<Clause>)
    requires j < |ms| && ms[j].kind == ChapterM
    ensures |ChaptersFrom(ms, j, seg)| == 1 + |ChaptersFrom(ms, j + 1, seg)|
  {
    ChaptersFromAt(ms, j, seg);
  }

  lemma HeadingsStepSkip(ms: seq<Marked>, i: nat, seg: string -> seq<Clause>)
    requires i < |ms| && ms[i].kind != PartM && ms[i].kind != ChapterM
    requires HeadingsCountedFrom(ms, i + 1, seg)
    ensures HeadingsCountedFrom(ms, i, seg)
  {
    PartsFromSkip(ms, i, i + 1, seg);
    ChaptersFromSkip(ms, i, i + 1, seg);
    assert CountKind(ms, i, ChapterM) == CountKind(ms, i + 1, ChapterM);
    assert CountKind(ms, i, PartM) == CountKind(ms, i + 1, PartM);
  }



  lemma OutlineCounts(ms: seq<Marked>, seg: string -> seq<Clause>)
    ensures |Outline(ms, seg).parts| == CountKind(ms, 0, PartM)
    ensures |AllChapters(Outline(ms, seg))| == CountKind(ms, 0, ChapterM)
  {
    HeadingsCounted(ms, 0, seg);
  }

  /** The HTML parser's sections have no clauses. */
  lemma HtmlSectionsHaveNoClauses(ms: seq<Marked>)
    ensures forall s :: s in AllSections(Outline(ms, NoClauses)) ==> s.clauses == []
  {
    OutlineSections(ms, NoClauses);
  }

  /** Every marker line carries a number. */
  lemma MarkedNumbers(lines: seq<string>, k: nat)
    requires k < |lines| && MarkAll(lines)[k].kind != NoneM
    ensures Numeral(MarkAll(lines)[k].number)
  {
    MarkerNumber(lines[k]);
    ExtractNumberShape(lines[k]);
  }

  /** Every part, chapter and section number in the tree is an ASCII numeral
      (Devanagari digits normalised). */
  lemma NumbersAreNumerals(lines: seq<string>, seg: string -> seq<Clause>)
    ensures var t := Outline(MarkAll(lines), seg);
            && (forall p :: p in t.parts ==> Numeral(p.partNumber))
            && (forall c :: c in AllChapters(t) ==> Numeral(c.chapterNumber))
            && (forall s :: s in AllSections(t) ==> Numeral(s.sectionNumber))
  {
    var ms := MarkAll(lines);
    var t := Outline(ms, seg);
    PartsFromMembers(ms, 0, seg);
    OutlineChapters(ms, seg);
    OutlineSections(ms, seg);
    forall p | p in t.parts ensures Numeral(p.partNumber) {
      var j :| 0 <= j < |ms| && ms[j].kind == PartM && p == PartAt(ms, j, seg);
      MarkedNumbers(lines, j);
    }
    forall c | c in AllChapters(t) ensures Numeral(c.chapterNumber) {
      var j :| 0 <= j < |ms| && ms[j].kind == ChapterM && c == ChapterAt(ms, j, seg);
      MarkedNumbers(lines, j);
    }
    forall s | s in AllSections(t) ensures Numeral(s.sectionNumber) {
      var j :| 0 <= j < |ms| && ms[j].kind == SectionM && s == SectionAt(ms, j, seg);
      MarkedNumbers(lines, j);
    }
  }

  /** In every section of the tree, a non-empty title is the first line of
      the content. */
  lemma TitlesLeadContent(ms: seq<Marked>, seg: string -> seq<Clause>)
    ensures forall s :: s in AllSections(Outline(ms, seg)) ==>
              s.title.Some? && (s.title.value != "" ==> StartsWith(s.content, s.title.value))
  {
    OutlineSections(ms, seg);
    forall s | s in AllSections(Outline(ms, seg))
      ensures s.title.Some? && (s.title.value != "" ==> StartsWith(s.content, s.title.value))
    {
      var j :| 0 <= j < |ms| && ms[j].kind == SectionM && s == SectionAt(ms, j, seg);
      SectionTitleLeadsContent(ms, j, seg);
    }
  }
}
