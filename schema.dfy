/**
 * The document tree `Act -> Part -> Chapter -> Section -> Clause` of
 * `src/schema.py`, as immutable values.
 *
 * Pydantic's `default_factory=list` and `= None` defaults become the builder
 * functions below (Dafny constructors take every field). `Act.created_at`
 * (a wall-clock timestamp) is not part of this model; `Act.metadata`, an
 * untyped dict, is a map from strings to strings.
 */
module Schema {
  import opened Wrappers

  /** `Literal["nepali", "english"]` */
  datatype Language = Nepali | English

  datatype Clause = Clause(clauseId: string, content: string, language: Language)

  datatype SubSection = SubSection(number: string, content: string, clauses: seq<Clause>)

  datatype Section = Section(
    sectionNumber: string,
    title: Option<string>,
    content: string,
    subSections: seq<SubSection>,
    clauses: seq<Clause>,
    pageNumber: Option<int>)

  datatype Chapter = Chapter(chapterNumber: string, title: string, sections: seq<Section>)

  datatype Part = Part(partNumber: string, title: string, chapters: seq<Chapter>)

  datatype Act = Act(
    title: string,
    actYear: Option<string>,
    sourceUrl: string,
    publicationDate: Option<string>,
    parts: seq<Part>,
    chapters: seq<Chapter>,
    metadata: map<string, string>)

  /** What a parsing loop leaves in the Act: its parts and the chapters
      directly under it. */
  datatype Tree = Tree(parts: seq<Part>, chapters: seq<Chapter>)

  /** `Clause(clause_id=..., content=...)`: the language defaults to Nepali. */
  function NewClause(clauseId: string, content: string): Clause {
    Clause(clauseId, content, Nepali)
  }

  /** `SubSection(number=..., content=...)` with no clauses. */
  function NewSubSection(number: string, content: string): SubSection {
    SubSection(number, content, [])
  }

  /** `Section(section_number=..., title=..., content=..., sub_sections=[])`:
      no clauses and no page number. */
  function NewSection(number: string, title: string, content: string): Section {
    Section(number, Some(title), content, [], [], None)
  }

  /** `Chapter(chapter_number=..., title=..., sections=[])` */
  function NewChapter(number: string, title: string): Chapter {
    Chapter(number, title, [])
  }

  /** `Part(part_number=..., title=..., chapters=[])` */
  function NewPart(number: string, title: string): Part {
    Part(number, title, [])
  }

  /** `Act(title=..., source_url=..., act_year=..., parts=[], chapters=[])`:
      no publication date and empty metadata. */
  function NewAct(title: string, sourceUrl: string, actYear: Option<string>): Act {
    Act(title, actYear, sourceUrl, None, [], [], map[])
  }

  /** The sections of a list of chapters, in order. */
  function SectionsOf(chapters: seq<Chapter>): seq<Section> {
    if |chapters| == 0 then [] else chapters[0].sections + SectionsOf(chapters[1..])
  }

  /** The chapters of a list of parts, in order. */
  function ChaptersOf(parts: seq<Part>): seq<Chapter> {
    if |parts| == 0 then [] else parts[0].chapters + ChaptersOf(parts[1..])
  }

  lemma SectionsOfAppend(a: seq<Chapter>, b: seq<Chapter>)
    ensures SectionsOf(a + b) == SectionsOf(a) + SectionsOf(b)
  {
    if |a| > 0 {
      assert (a + b)[1..] == a[1..] + b;
    } else {
      assert a + b == b;
    }
  }

  lemma ChaptersOfAppend(a: seq<Part>, b: seq<Part>)
    ensures ChaptersOf(a + b) == ChaptersOf(a) + ChaptersOf(b)
  {
    if |a| > 0 {
      assert (a + b)[1..] == a[1..] + b;
    } else {
      assert a + b == b;
    }
  }

  /** A section of a list of chapters is a section of one of them. */
  lemma {:induction false} SectionsOfMember(chapters: seq<Chapter>, s: Section)
    requires s in SectionsOf(chapters)
    ensures exists c :: c in chapters && s in c.sections
  {
    if s !in chapters[0].sections {
      SectionsOfMember(chapters[1..], s);
      var c :| c in chapters[1..] && s in c.sections;
      assert c in chapters;
    }
  }

  /** A chapter of a list of parts is a chapter of one of them. */
  lemma {:induction false} ChaptersOfMember(parts: seq<Part>, c: Chapter)
    requires c in ChaptersOf(parts)
    ensures exists p :: p in parts && c in p.chapters
  {
    if c !in parts[0].chapters {
      ChaptersOfMember(parts[1..], c);
      var p :| p in parts[1..] && c in p.chapters;
      assert p in parts;
    }
  }
}
