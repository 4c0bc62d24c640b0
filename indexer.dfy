/**
 * The flattening half of `LegalIndexer.index_act` (`src/retrieval/indexer.py`):
 * an Act becomes a list of chunks, one per clause, or one per section when
 * the section has no clause; first the sections inside parts, then those of
 * the chapters directly under the Act. Each chunk has an id, a document text
 * and a metadata record, kept by the source in three parallel lists.
 *
 * The id prefix is the first eight hex digits of the title's md5 digest; the
 * digest is not modelled and the prefix is a parameter. Embedding the
 * documents and upserting them are not modelled either: `IndexAct` reports
 * whether that step runs, and the counts it prints.
 */
module Indexer {
  import opened Wrappers
  import opened Text
  import opened Numerals
  import opened Schema

  /** Where a chunk comes from: the 1-based positions of its part (none for
      a chapter directly under the Act), chapter, section and clause (none
      for a section-level chunk). */
  datatype Position = Position(part: Option<nat>, chapter: nat, section: nat, clause: Option<nat>)

  /** The metadata dict; `part_number` and `clause_number` are present only
      for part-nested and clause-level chunks. */
  datatype Metadata = Metadata(
    actTitle: string,
    partNumber: Option<string>,
    chapter: string,
    sectionNumber: string,
    clauseNumber: Option<string>,
    sourceUrl: string)

  /** One chunk: where it comes from, its document text and its metadata. */
  datatype Chunk = Chunk(pos: Position, document: string, metadata: Metadata)

  /** The part a chapter is enumerated under: none, or the part's 1-based
      position and its number. */
  datatype PartRef = Direct | InPart(index: nat, number: string)

  function PartIndex(ref: PartRef): Option<nat> {
    if ref.InPart? then Some(ref.index) else None
  }

  function PartNumber(ref: PartRef): Option<string> {
    if ref.InPart? then Some(ref.number) else None
  }

  // ----- ids -----

  /** The pieces of an id: `{hash}_p{i}_c{j}_s{k}_cl{l}`, the part and
      clause pieces only when present. */
  function IdPieces(hash: string, pos: Position): seq<string> {
    [hash] +
    (if pos.part.Some? then ["p" + NatToString(pos.part.value)] else []) +
    ["c" + NatToString(pos.chapter), "s" + NatToString(pos.section)] +
    (if pos.clause.Some? then ["cl" + NatToString(pos.clause.value)] else [])
  }

  /** The chunk id: the f-string is the pieces joined with underscores. */
  function IdOf(hash: string, pos: Position): string {
    Join("_", IdPieces(hash, pos))
  }

  // ----- documents -----

  function Header(act: Act, ref: PartRef, chapter: Chapter): string {
    "Act: " + act.title + "\n" +
    (if ref.InPart? then "Part: " + ref.number + "\n" else "") +
    "Chapter: " + chapter.title + "\n"
  }

  function ClauseDocument(act: Act, ref: PartRef, chapter: Chapter, section: Section, clause: Clause): string {
    Header(act, ref, chapter) +
    "Section (दफा) " + section.sectionNumber + "\n" +
    "Clause (खण्ड) " + clause.clauseId + ": " + clause.content
  }

  function SectionDocument(act: Act, ref: PartRef, chapter: Chapter, section: Section): string {
    Header(act, ref, chapter) + "Section (दफा) " + section.sectionNumber + ": " + section.content
  }

  // ----- the chunks -----

  /** The chunk of clause `l` (1-based) of section `s` of chapter `c`. */
  function ClauseChunk(act: Act, ref: PartRef, c: nat, chapter: Chapter, s: nat, section: Section, l: nat): Chunk
    requires 1 <= l <= |section.clauses|
  {
    var clause := section.clauses[l - 1];
    Chunk(
      Position(PartIndex(ref), c, s, Some(l)),
      ClauseDocument(act, ref, chapter, section, clause),
      Metadata(act.title, PartNumber(ref), chapter.title, section.sectionNumber, Some(clause.clauseId), act.sourceUrl))
  }

  /** The chunk of a section without clauses. */
  function BareChunk(act: Act, ref: PartRef, c: nat, chapter: Chapter, s: nat, section: Section): Chunk {
    Chunk(
      Position(PartIndex(ref), c, s, None),
      SectionDocument(act, ref, chapter, section),
      Metadata(act.title, PartNumber(ref), chapter.title, section.sectionNumber, None, act.sourceUrl))
  }

  /** The chunks of one section: one per clause, or one for the section. */
  function SectionChunks(act: Act, ref: PartRef, c: nat, chapter: Chapter, s: nat, section: Section): seq<Chunk> {
    if |section.clauses| > 0 then
      seq(|section.clauses|, k requires 0 <= k < |section.clauses| => ClauseChunk(act, ref, c, chapter, s, section, k + 1))
    else [BareChunk(act, ref, c, chapter, s, section)]
  }

  /** The chunks of the sections of `chapter` from index `s` (0-based) on. */
  function SectionsChunks(act: Act, ref: PartRef, c: nat, chapter: Chapter, s: nat): seq<Chunk>
    decreases |chapter.sections| - s
  {
    if s >= |chapter.sections| then []
    else SectionChunks(act, ref, c, chapter, s + 1, chapter.sections[s]) + SectionsChunks(act, ref, c, chapter, s + 1)
  }

  /** The chunks of `chapters` from index `j` (0-based) on. */
  function ChaptersChunks(act: Act, ref: PartRef, chapters: seq<Chapter>, j: nat): seq<Chunk>
    decreases |chapters| - j
  {
    if j >= |chapters| then []
    else SectionsChunks(act, ref, j + 1, chapters[j], 0) + ChaptersChunks(act, ref, chapters, j + 1)
  }

  /** The chunks of the Act's parts from index `i` (0-based) on. */
  function PartsChunks(act: Act, i: nat): seq<Chunk>
    decreases |act.parts| - i
  {
    if i >= |act.parts| then []
    else ChaptersChunks(act, InPart(i + 1, act.parts[i].partNumber), act.parts[i].chapters, 0) + PartsChunks(act, i + 1)
  }

  /** All the chunks of an Act, in the order `index_act` appends them. */
  function ActChunks(act: Act): seq<Chunk> {
    PartsChunks(act, 0) + ChaptersChunks(act, Direct, act.chapters, 0)
  }

  // ----- the loops -----

  /** The three lists `ids`, `documents` and `metadatas`. */
  datatype Batch = Batch(ids: seq<string>, documents: seq<string>, metadatas: seq<Metadata>)

  /** Appending one chunk to the three lists. */
  function Push(b: Batch, hash: string, chunk: Chunk): Batch {
    Batch(b.ids + [IdOf(hash, chunk.pos)], b.documents + [chunk.document], b.metadatas + [chunk.metadata])
  }

  /** The three lists holding, at each index, the id, the document and the
      metadata of the chunk at that index. */
  function BatchOf(hash: string, chunks: seq<Chunk>): (b: Batch)
    ensures |b.ids| == |b.documents| == |b.metadatas| == |chunks|
  {
    Batch(
      seq(|chunks|, k requires 0 <= k < |chunks| => IdOf(hash, chunks[k].pos)),
      seq(|chunks|, k requires 0 <= k < |chunks| => chunks[k].document),
      seq(|chunks|, k requires 0 <= k < |chunks| => chunks[k].metadata))
  }

  /** Appending a chunk to the lists of `done` gives the lists of `done`
      followed by that chunk. */
  lemma BatchOfPush(hash: string, done: seq<Chunk>, chunk: Chunk)
    ensures BatchOf(hash, done + [chunk]) == Push(BatchOf(hash, done), hash, chunk)
  {
    var b := BatchOf(hash, done + [chunk]);
    var p := Push(BatchOf(hash, done), hash, chunk);
    assert b.ids == p.ids;
    assert b.documents == p.documents;
    assert b.metadatas == p.metadatas;
  }

  lemma Regroup(a: seq<Chunk>, b: seq<Chunk>, c: seq<Chunk>)
    ensures a + (b + c) == (a + b) + c
  {
  }

  /** The clause loop, or the section-level chunk, of one section. */
  method AddSection(act: Act, hash: string, ref: PartRef, c: nat, chapter: Chapter, s: nat, section: Section,
                    b: Batch, ghost done: seq<Chunk>) returns (r: Batch)
    requires b == BatchOf(hash, done)
    ensures r == BatchOf(hash, done + SectionChunks(act, ref, c, chapter, s, section))
  {
    var chunks := SectionChunks(act, ref, c, chapter, s, section);
    if |section.clauses| > 0 {
      r := b;
      var l := 0;
      assert done + chunks[..0] == done;
      while l < |section.clauses|
        invariant 0 <= l <= |section.clauses|
        invariant r == BatchOf(hash, done + chunks[..l])
      {
        BatchOfPush(hash, done + chunks[..l], chunks[l]);
        assert chunks[..l + 1] == chunks[..l] + [chunks[l]];
        assert done + chunks[..l + 1] == done + chunks[..l] + [chunks[l]];
        r := Push(r, hash, ClauseChunk(act, ref, c, chapter, s, section, l + 1));
        l := l + 1;
      }
      assert chunks[..l] == chunks;
    } else {
      BatchOfPush(hash, done, BareChunk(act, ref, c, chapter, s, section));
      r := Push(b, hash, BareChunk(act, ref, c, chapter, s, section));
    }
  }

  /** The section loop of one chapter. */
  method AddChapter(act: Act, hash: string, ref: PartRef, c: nat, chapter: Chapter,
                    b: Batch, ghost done: seq<Chunk>) returns (r: Batch)
    requires b == BatchOf(hash, done)
    ensures r == BatchOf(hash, done + SectionsChunks(act, ref, c, chapter, 0))
  {
    r := b;
    ghost var acc := done;
    var s := 0;
    while s < |chapter.sections|
      invariant 0 <= s <= |chapter.sections|
      invariant r == BatchOf(hash, acc)
      invariant acc + SectionsChunks(act, ref, c, chapter, s) == done + SectionsChunks(act, ref, c, chapter, 0)
      decreases |chapter.sections| - s
    {
      var block := SectionChunks(act, ref, c, chapter, s + 1, chapter.sections[s]);
      r := AddSection(act, hash, ref, c, chapter, s + 1, chapter.sections[s], r, acc);
      Regroup(acc, block, SectionsChunks(act, ref, c, chapter, s + 1));
      acc := acc + block;
      s := s + 1;
    }
    assert acc + [] == acc;
  }

  /** The chapter loop over `chapters`. */
  method AddChapters(act: Act, hash: string, ref: PartRef, chapters: seq<Chapter>,
                     b: Batch, ghost done: seq<Chunk>) returns (r: Batch)
    requires b == BatchOf(hash, done)
    ensures r == BatchOf(hash, done + ChaptersChunks(act, ref, chapters, 0))
  {
    r := b;
    ghost var acc := done;
    var j := 0;
    while j < |chapters|
      invariant 0 <= j <= |chapters|
      invariant r == BatchOf(hash, acc)
      invariant acc + ChaptersChunks(act, ref, chapters, j) == done + ChaptersChunks(act, ref, chapters, 0)
      decreases |chapters| - j
    {
      var block := SectionsChunks(act, ref, j + 1, chapters[j], 0);
      r := AddChapter(act, hash, ref, j + 1, chapters[j], r, acc);
      Regroup(acc, block, ChaptersChunks(act, ref, chapters, j + 1));
      acc := acc + block;
      j := j + 1;
    }
    assert acc + [] == acc;
  }

  /** What `index_act` prints after the upsert: the number of chunks, of
      clause-level chunks and of section-level chunks. */
  datatype Summary = Summary(chunks: nat, clauses: nat, sections: nat)

  /** `sum(1 for m in metadatas if "clause_number" in m)` */
  function ClauseMetadata(metas: seq<Metadata>): (n: nat)
    ensures n <= |metas|
  {
    if |metas| == 0 then 0
    else (if metas[0].clauseNumber.Some? then 1 else 0) + ClauseMetadata(metas[1..])
  }

  /** The summary of the three lists, or None when they are empty and
      nothing is embedded or upserted. */
  function SummaryOf(b: Batch): Option<Summary>
    requires |b.metadatas| == |b.ids|
  {
    if |b.ids| == 0 then None
    else
      var clauses := ClauseMetadata(b.metadatas);
      Some(Summary(|b.ids|, clauses, |b.ids| - clauses))
  }

  /** `index_act`: the loop over the parts and their chapters, then over the
      Act's own chapters. */
  method IndexAct(act: Act, hash: string) returns (ids: seq<string>, documents: seq<string>,
                                                    metadatas: seq<Metadata>, summary: Option<Summary>)
    ensures Batch(ids, documents, metadatas) == BatchOf(hash, ActChunks(act))
    ensures summary == SummaryOf(BatchOf(hash, ActChunks(act)))
  {
    var b := Batch([], [], []);
    ghost var acc: seq<Chunk> := [];
    var i := 0;
    while i < |act.parts|
      invariant 0 <= i <= |act.parts|
      invariant b == BatchOf(hash, acc)
      invariant acc + PartsChunks(act, i) == PartsChunks(act, 0)
      decreases |act.parts| - i
    {
      var part := act.parts[i];
      var ref := InPart(i + 1, part.partNumber);
      var block := ChaptersChunks(act, ref, part.chapters, 0);
      b := AddChapters(act, hash, ref, part.chapters, b, acc);
      Regroup(acc, block, PartsChunks(act, i + 1));
      acc := acc + block;
      i := i + 1;
    }
    assert acc + [] == acc;
    b := AddChapters(act, hash, Direct, act.chapters, b, acc);
    ids, documents, metadatas := b.ids, b.documents, b.metadatas;
    summary := SummaryOf(b);
  }

  // ----- how many chunks -----

  /** The sections `index_act` visits, in its order: those inside parts,
      then those of the Act's own chapters. */
  function IndexedSections(act: Act): seq<Section> {
    SectionsOf(ChaptersOf(act.parts)) + SectionsOf(act.chapters)
  }

  /** The number of clauses of the sections. */
  function ClauseTotal(ss: seq<Section>): nat {
    if |ss| == 0 then 0 else |ss[0].clauses| + ClauseTotal(ss[1..])
  }

  /** The number of sections without clauses. */
  function BareTotal(ss: seq<Section>): nat {
    if |ss| == 0 then 0 else (if |ss[0].clauses| == 0 then 1 else 0) + BareTotal(ss[1..])
  }

  lemma {:induction false} TotalsAppend(a: seq<Section>, b: seq<Section>)
    ensures ClauseTotal(a + b) == ClauseTotal(a) + ClauseTotal(b)
    ensures BareTotal(a + b) == BareTotal(a) + BareTotal(b)
  {
    if |a| == 0 {
      assert a + b == b;
    } else {
      TotalsAppend(a[1..], b);
      assert (a + b)[1..] == a[1..] + b;
    }
  }

  /** Every section counts at least once: as its clauses or as itself. */
  lemma {:induction false} TotalsCoverSections(ss: seq<Section>)
    ensures ClauseTotal(ss) + BareTotal(ss) >= |ss|
  {
    if |ss| > 0 {
      TotalsCoverSections(ss[1..]);
    }
  }

  lemma {:induction false} ClauseMetadataAppend(a: seq<Metadata>, b: seq<Metadata>)
    ensures ClauseMetadata(a + b) == ClauseMetadata(a) + ClauseMetadata(b)
  {
    if |a| == 0 {
      assert a + b == b;
    } else {
      ClauseMetadataAppend(a[1..], b);
      assert (a + b)[1..] == a[1..] + b;
    }
  }

  /** `ClauseMetadata` of a list where every entry has a clause number, or
      none has, is its length, or zero. */
  lemma {:induction false} ClauseMetadataUniform(ms: seq<Metadata>, tagged: bool)
    requires forall k :: 0 <= k < |ms| ==> ms[k].clauseNumber.Some? == tagged
    ensures ClauseMetadata(ms) == if tagged then |ms| else 0
  {
    if |ms| > 0 {
      ClauseMetadataUniform(ms[1..], tagged);
    }
  }

  /** The metadata column of a list of chunks. */
  function MetasOf(chunks: seq<Chunk>): seq<Metadata> {
    BatchOf("", chunks).metadatas
  }

  lemma MetasOfAppend(a: seq<Chunk>, b: seq<Chunk>)
    ensures MetasOf(a + b) == MetasOf(a) + MetasOf(b)
  {
    assert forall k :: 0 <= k < |a| + |b| ==> MetasOf(a + b)[k] == (a + b)[k].metadata;
  }

  /** A predicate for the counts of a list of chunks against the sections it
      comes from: one chunk per clause plus one per section without clauses,
      and one clause number per clause. */
  predicate Counted(chunks: seq<Chunk>, ss: seq<Section>) {
    && |chunks| == ClauseTotal(ss) + BareTotal(ss)
    && ClauseMetadata(MetasOf(chunks)) == ClauseTotal(ss)
  }

  lemma CountedAppend(a: seq<Chunk>, sa: seq<Section>, b: seq<Chunk>, sb: seq<Section>)
    requires Counted(a, sa) && Counted(b, sb)
    ensures Counted(a + b, sa + sb)
  {
    TotalsAppend(sa, sb);
    MetasOfAppend(a, b);
    ClauseMetadataAppend(MetasOf(a), MetasOf(b));
  }

  lemma SectionCounted(act: Act, ref: PartRef, c: nat, chapter: Chapter, s: nat, section: Section)
    ensures Counted(SectionChunks(act, ref, c, chapter, s, section), [section])
  {
    var chunks := SectionChunks(act, ref, c, chapter, s, section);
    assert [section][1..] == [];
    ClauseMetadataUniform(MetasOf(chunks), |section.clauses| > 0);
  }

  lemma {:induction false} SectionsCounted(act: Act, ref: PartRef, c: nat, chapter: Chapter, s: nat)
    requires s <= |chapter.sections|
    ensures Counted(SectionsChunks(act, ref, c, chapter, s), chapter.sections[s..])
    decreases |chapter.sections| - s
  {
    if s < |chapter.sections| {
      SectionsCounted(act, ref, c, chapter, s + 1);
      SectionCounted(act, ref, c, chapter, s + 1, chapter.sections[s]);
      CountedAppend(SectionChunks(act, ref, c, chapter, s + 1, chapter.sections[s]), [chapter.sections[s]],
                    SectionsChunks(act, ref, c, chapter, s + 1), chapter.sections[s + 1..]);
      assert chapter.sections[s..] == [chapter.sections[s]] + chapter.sections[s + 1..];
    } else {
      assert chapter.sections[s..] == [];
    }
  }

  lemma {:induction false} ChaptersCounted(act: Act, ref: PartRef, chapters: seq<Chapter>, j: nat)
    requires j <= |chapters|
    ensures Counted(ChaptersChunks(act, ref, chapters, j), SectionsOf(chapters[j..]))
    decreases |chapters| - j
  {
    if j < |chapters| {
      ChaptersCounted(act, ref, chapters, j + 1);
      SectionsCounted(act, ref, j + 1, chapters[j], 0);
      assert chapters[j].sections[0..] == chapters[j].sections;
      CountedAppend(SectionsChunks(act, ref, j + 1, chapters[j], 0), chapters[j].sections,
                    ChaptersChunks(act, ref, chapters, j + 1), SectionsOf(chapters[j + 1..]));
      assert chapters[j..][1..] == chapters[j + 1..];
    } else {
      assert chapters[j..] == [];
    }
  }

  lemma {:induction false} PartsCounted(act: Act, i: nat)
    requires i <= |act.parts|
    ensures Counted(PartsChunks(act, i), SectionsOf(ChaptersOf(act.parts[i..])))
    decreases |act.parts| - i
  {
    if i < |act.parts| {
      var p := act.parts[i];
      PartsCounted(act, i + 1);
      ChaptersCounted(act, InPart(i + 1, p.partNumber), p.chapters, 0);
      assert p.chapters[0..] == p.chapters;
      CountedAppend(ChaptersChunks(act, InPart(i + 1, p.partNumber), p.chapters, 0), SectionsOf(p.chapters),
                    PartsChunks(act, i + 1), SectionsOf(ChaptersOf(act.parts[i + 1..])));
      assert act.parts[i..][1..] == act.parts[i + 1..];
      SectionsOfAppend(p.chapters, ChaptersOf(act.parts[i + 1..]));
    } else {
      assert act.parts[i..] == [];
    }
  }

  /** The chunk count is the number of clauses plus the number of sections
      without clauses, over all sections; exactly the clauses' chunks carry a
      clause number. */
  lemma ActCounted(act: Act)
    ensures Counted(ActChunks(act), IndexedSections(act))
  {
    PartsCounted(act, 0);
    ChaptersCounted(act, Direct, act.chapters, 0);
    assert act.parts[0..] == act.parts;
    assert act.chapters[0..] == act.chapters;
    CountedAppend(PartsChunks(act, 0), SectionsOf(ChaptersOf(act.parts)),
                  ChaptersChunks(act, Direct, act.chapters, 0), SectionsOf(act.chapters));
  }

  /** What `index_act` prints: as many clause chunks as the Act has clauses,
      as many section chunks as it has sections without clauses; and nothing
      is embedded or upserted exactly when the Act has no section at all. */
  lemma SummaryCounts(act: Act, hash: string)
    ensures var ss := IndexedSections(act);
            && (SummaryOf(BatchOf(hash, ActChunks(act))).None? <==> ss == [])
            && (ss != [] ==>
                  SummaryOf(BatchOf(hash, ActChunks(act))) ==
                  Some(Summary(ClauseTotal(ss) + BareTotal(ss), ClauseTotal(ss), BareTotal(ss))))
  {
    var ss := IndexedSections(act);
    ActCounted(act);
    TotalsCoverSections(ss);
    assert BatchOf(hash, ActChunks(act)).metadatas == MetasOf(ActChunks(act));
  }

  // ----- order and ids -----

  /** `x` comes before `y` in `index_act`'s order: parts first and in order,
      then the Act's own chapters; then chapters, sections and clauses in
      order. */
  predicate Before(x: Position, y: Position) {
    || (x.part.Some? && y.part.None?)
    || (x.part.Some? && y.part.Some? && x.part.value < y.part.value)
    || (x.part == y.part &&
        (|| x.chapter < y.chapter
         || (x.chapter == y.chapter &&
             (|| x.section < y.section
              || (x.section == y.section && x.clause.Some? && y.clause.Some? && x.clause.value < y.clause.value)))))
  }

  predicate Sorted(chunks: seq<Chunk>) {
    forall a, b :: 0 <= a < b < |chunks| ==> Before(chunks[a].pos, chunks[b].pos)
  }

  /** Only clause chunks carry a clause number, only part-nested chunks a part
      number. */
  predicate Tagged(chunk: Chunk) {
    && (chunk.metadata.clauseNumber.Some? <==> chunk.pos.clause.Some?)
    && (chunk.metadata.partNumber.Some? <==> chunk.pos.part.Some?)
  }

  /** Two sorted lists, each element of the first before each of the second,
      make a sorted list. */
  lemma SortedAppend(a: seq<Chunk>, b: seq<Chunk>)
    requires Sorted(a) && Sorted(b)
    requires forall x, y :: x in a && y in b ==> Before(x.pos, y.pos)
    ensures Sorted(a + b)
  {
    forall i, j | 0 <= i < j < |a + b| ensures Before((a + b)[i].pos, (a + b)[j].pos) {
      if j < |a| {
        assert (a + b)[i] == a[i] && (a + b)[j] == a[j];
      } else if i >= |a| {
        assert (a + b)[i] == b[i - |a|] && (a + b)[j] == b[j - |a|];
      } else {
        assert (a + b)[i] in a && (a + b)[j] in b;
      }
    }
  }

  lemma SectionShape(act: Act, ref: PartRef, c: nat, chapter: Chapter, s: nat, section: Section)
    ensures var cs := SectionChunks(act, ref, c, chapter, s, section);
            && Sorted(cs)
            && forall x :: x in cs ==> x.pos.part == PartIndex(ref) && x.pos.chapter == c && x.pos.section == s && Tagged(x)
  {
  }

  lemma {:induction false} SectionsShape(act: Act, ref: PartRef, c: nat, chapter: Chapter, s: nat)
    ensures var cs := SectionsChunks(act, ref, c, chapter, s);
            && Sorted(cs)
            && forall x :: x in cs ==> x.pos.part == PartIndex(ref) && x.pos.chapter == c && x.pos.section > s && Tagged(x)
    decreases |chapter.sections| - s
  {
    if s < |chapter.sections| {
      var head := SectionChunks(act, ref, c, chapter, s + 1, chapter.sections[s]);
      var tail := SectionsChunks(act, ref, c, chapter, s + 1);
      SectionShape(act, ref, c, chapter, s + 1, chapter.sections[s]);
      SectionsShape(act, ref, c, chapter, s + 1);
      SortedAppend(head, tail);
    }
  }

  lemma {:induction false} ChaptersShape(act: Act, ref: PartRef, chapters: seq<Chapter>, j: nat)
    ensures var cs := ChaptersChunks(act, ref, chapters, j);
            && Sorted(cs)
            && forall x :: x in cs ==> x.pos.part == PartIndex(ref) && x.pos.chapter > j && Tagged(x)
    decreases |chapters| - j
  {
    if j < |chapters| {
      var head := SectionsChunks(act, ref, j + 1, chapters[j], 0);
      var tail := ChaptersChunks(act, ref, chapters, j + 1);
      SectionsShape(act, ref, j + 1, chapters[j], 0);
      ChaptersShape(act, ref, chapters, j + 1);
      SortedAppend(head, tail);
    }
  }

  lemma {:induction false} PartsShape(act: Act, i: nat)
    ensures var cs := PartsChunks(act, i);
            && Sorted(cs)
            && forall x :: x in cs ==> x.pos.part.Some? && x.pos.part.value > i && Tagged(x)
    decreases |act.parts| - i
  {
    if i < |act.parts| {
      var ref := InPart(i + 1, act.parts[i].partNumber);
      var head := ChaptersChunks(act, ref, act.parts[i].chapters, 0);
      var tail := PartsChunks(act, i + 1);
      ChaptersShape(act, ref, act.parts[i].chapters, 0);
      PartsShape(act, i + 1);
      SortedAppend(head, tail);
    }
  }

  /** The chunks come in `index_act`'s order (so all part-nested chunks come
      before the chunks of the Act's own chapters), and each carries the
      part and clause numbers that fit its position. */
  lemma ActShape(act: Act)
    ensures Sorted(ActChunks(act))
    ensures forall x :: x in ActChunks(act) ==> Tagged(x)
    ensures forall a, b :: 0 <= a < b < |ActChunks(act)| && ActChunks(act)[b].pos.part.Some? ==>
              ActChunks(act)[a].pos.part.Some?
  {
    PartsShape(act, 0);
    ChaptersShape(act, Direct, act.chapters, 0);
    SortedAppend(PartsChunks(act, 0), ChaptersChunks(act, Direct, act.chapters, 0));
  }

  /** No piece of an id holds an underscore when the prefix holds none. */
  lemma IdPiecesPlain(hash: string, pos: Position)
    requires '_' !in hash
    ensures forall k :: 0 <= k < |IdPieces(hash, pos)| ==> '_' !in IdPieces(hash, pos)[k]
  {
    forall n: nat ensures '_' !in NatToString(n) {
      assert AllAsciiDigits(NatToString(n));
    }
  }

  /** The numeral after a one- or two-letter tag determines the number. */
  lemma TaggedNumeral(tag: string, m: nat, n: nat)
    requires tag + NatToString(m) == tag + NatToString(n)
    ensures m == n
  {
    assert NatToString(m) == (tag + NatToString(m))[|tag|..];
    assert NatToString(n) == (tag + NatToString(n))[|tag|..];
    NatToStringInjective(m, n);
  }

  /** Different positions have different ids (the hash prefix holds no
      underscore, as a hex digest does not). */
  lemma IdInjective(hash: string, x: Position, y: Position)
    requires '_' !in hash
    requires IdOf(hash, x) == IdOf(hash, y)
    ensures x == y
  {
    var px := IdPieces(hash, x);
    var py := IdPieces(hash, y);
    IdPiecesPlain(hash, x);
    IdPiecesPlain(hash, y);
    SplitJoin(px, '_');
    SplitJoin(py, '_');
    assert px == py;
    assert x.part.Some? == y.part.Some? by {
      assert px[1][0] == py[1][0];
    }
    var o := if x.part.Some? then 1 else 0;
    if x.part.Some? {
      TaggedNumeral("p", x.part.value, y.part.value);
    }
    assert px[o + 1] == py[o + 1];
    TaggedNumeral("c", x.chapter, y.chapter);
    assert px[o + 2] == py[o + 2];
    TaggedNumeral("s", x.section, y.section);
    assert x.clause.Some? == y.clause.Some? by {
      assert |px| == |py|;
    }
    if x.clause.Some? {
      assert px[o + 3] == py[o + 3];
      TaggedNumeral("cl", x.clause.value, y.clause.value);
    }
  }

  /** The ids of one Act are distinct. */
  lemma IdsDistinct(act: Act, hash: string)
    requires '_' !in hash
    ensures var ids := BatchOf(hash, ActChunks(act)).ids;
            forall a, b :: 0 <= a < b < |ids| ==> ids[a] != ids[b]
  {
    var cs := ActChunks(act);
    var ids := BatchOf(hash, cs).ids;
    ActShape(act);
    forall a, b | 0 <= a < b < |ids| ensures ids[a] != ids[b] {
      assert Before(cs[a].pos, cs[b].pos);
      if ids[a] == ids[b] {
        IdInjective(hash, cs[a].pos, cs[b].pos);
      }
    }
  }
}
