/**
 * The two parsers' `parse` methods from end to end: the PDF parser
 * (`parser.py`) reads the text of every page, keeps its stripped non-empty
 * lines, takes title and year from them, runs the strict pass with clause
 * detection and, when that finds no part and no chapter, the fallback
 * pass; the HTML parser (`html_parser.py`) takes the lines the page yields,
 * its own simpler title, the same year, and the strict pass without clause
 * detection and without fallback.
 *
 * Opening the PDF and reading a page's text (PyMuPDF), and reading the HTML
 * page's lines (BeautifulSoup), are not modelled: the page texts and the
 * HTML lines are parameters.
 */
module Parse {
  import opened Wrappers
  import opened Text
  import opened Numerals
  import opened Schema
  import opened Clauses
  import opened TitleYear
  import Strict
  import StrictFacts
  import Fallback

  const LocalFile: string := "local_file"

  /** `self.source_url or "local_file"` */
  function SourceOr(sourceUrl: string): (r: string)
    ensures r != ""
    ensures sourceUrl != "" ==> r == sourceUrl
  {
    if sourceUrl != "" then sourceUrl else LocalFile
  }

  // ----- the lines of the PDF -----

  /** `[line.strip() for line in pieces if line.strip()]` */
  function KeepStripped(pieces: seq<string>): (r: seq<string>)
    ensures |r| <= |pieces|
  {
    if |pieces| == 0 then []
    else (if Strip(pieces[0]) != "" then [Strip(pieces[0])] else []) + KeepStripped(pieces[1..])
  }

  /** The lines of one page's text. */
  function PageLines(text: string): seq<string> {
    KeepStripped(Split(text, '\n'))
  }

  /** `extract_text`: the lines of all pages, page after page. */
  function ExtractLines(pages: seq<string>): seq<string> {
    if |pages| == 0 then [] else ExtractLines(pages[..|pages| - 1]) + PageLines(pages[|pages| - 1])
  }

  /** `extract_text` as the source runs it, a loop over the pages. */
  method ExtractText(pages: seq<string>) returns (lines: seq<string>)
    ensures lines == ExtractLines(pages)
  {
    lines := [];
    var i := 0;
    while i < |pages|
      invariant 0 <= i <= |pages|
      invariant lines == ExtractLines(pages[..i])
    {
      assert pages[..i + 1][..i] == pages[..i];
      lines := lines + PageLines(pages[i]);
      i := i + 1;
    }
    assert pages[..i] == pages;
  }

  /** A stripped line holds no whitespace at either end. */
  predicate CleanLine(line: string) {
    line != "" && Strip(line) == line && '\n' !in line
  }

  /** What `strip` keeps of a text without line feeds has none either. */
  lemma StripKeepsNoLineFeed(s: string)
    requires '\n' !in s
    ensures '\n' !in Strip(s)
  {
    StripInfix(s);
  }

  lemma {:induction false} KeepStrippedClean(pieces: seq<string>)
    requires forall k :: 0 <= k < |pieces| ==> '\n' !in pieces[k]
    ensures forall k :: 0 <= k < |KeepStripped(pieces)| ==> CleanLine(KeepStripped(pieces)[k])
  {
    if |pieces| > 0 {
      KeepStrippedClean(pieces[1..]);
      StripKeepsNoLineFeed(pieces[0]);
      StripIdempotent(pieces[0]);
    }
  }

  /** Every extracted line is non-empty, stripped and free of line feeds. */
  lemma {:induction false} ExtractedLinesClean(pages: seq<string>)
    ensures forall k :: 0 <= k < |ExtractLines(pages)| ==> CleanLine(ExtractLines(pages)[k])
  {
    if |pages| > 0 {
      ExtractedLinesClean(pages[..|pages| - 1]);
      SplitPieces(pages[|pages| - 1], '\n');
      KeepStrippedClean(Split(pages[|pages| - 1], '\n'));
    }
  }

  lemma {:induction false} KeepStrippedUnchanged(lines: seq<string>)
    requires forall k :: 0 <= k < |lines| ==> CleanLine(lines[k])
    ensures KeepStripped(lines) == lines
  {
    if |lines| > 0 {
      KeepStrippedUnchanged(lines[1..]);
      assert lines == [lines[0]] + lines[1..];
    }
  }

  /** A page whose text is clean lines joined by line feeds gives back
      exactly those lines. */
  lemma PageLinesRoundTrip(lines: seq<string>)
    requires forall k :: 0 <= k < |lines| ==> CleanLine(lines[k])
    ensures PageLines(Join("\n", lines)) == lines
  {
    if |lines| == 0 {
      assert Split("", '\n') == [""];
      assert Strip("") == "";
    } else {
      SplitJoin(lines, '\n');
      KeepStrippedUnchanged(lines);
    }
  }

  // ----- the PDF parser -----

  /** The tree of the PDF parser: the strict pass, or the fallback pass when
      the strict pass found no part and no chapter. */
  function PdfTree(lines: seq<string>): Tree {
    var strict := Strict.Outline(Strict.MarkAll(lines), Segment);
    if strict.parts == [] && strict.chapters == [] then Fallback.Run(Fallback.LooseMarkAll(lines), Fallback.Start, 0, Segment)
    else strict
  }

  /** `NepaliLegalParser.parse` */
  function PdfAct(pages: seq<string>, sourceUrl: string): Act {
    var lines := ExtractLines(pages);
    var t := PdfTree(lines);
    Act(TitleOf(lines), YearOf(lines), SourceOr(sourceUrl), None, t.parts, t.chapters, map[])
  }

  /** `NepaliLegalParser.parse` as the source runs it. */
  method ParsePdf(pages: seq<string>, sourceUrl: string) returns (act: Act)
    ensures act == PdfAct(pages, sourceUrl)
  {
    var lines := ExtractText(pages);
    var title := FindTitle(lines);
    var year := ExtractYear(lines);
    act := NewAct(title, SourceOr(sourceUrl), year);
    var parts, chapters := Strict.ParseStrict(lines, true);
    if |parts| == 0 && |chapters| == 0 {
      parts, chapters := Fallback.ParseFallback(lines);
    }
    act := act.(parts := parts, chapters := chapters);
  }

  /** Every part, chapter and section number of a tree is an ASCII numeral. */
  predicate Numbered(t: Tree) {
    && (forall p :: p in t.parts ==> Numeral(p.partNumber))
    && (forall c :: c in StrictFacts.AllChapters(t) ==> Numeral(c.chapterNumber))
    && (forall s :: s in StrictFacts.AllSections(t) ==> Numeral(s.sectionNumber))
  }

  /** A fallback tree with well-formed parts and chapters is numbered, and
      each of its sections has at most one clause. */
  lemma FallbackNumbered(t: Tree)
    requires Fallback.TreeOk(t)
    ensures Numbered(t)
    ensures forall s :: s in StrictFacts.AllSections(t) ==> |s.clauses| <= 1
  {
    var chapters := StrictFacts.AllChapters(t);
    forall c | c in chapters ensures Fallback.ChapterOk(c) {
      if c !in t.chapters {
        assert c in ChaptersOf(t.parts);
        ChaptersOfMember(t.parts, c);
      }
    }
    forall s | s in StrictFacts.AllSections(t) ensures Fallback.SectionOk(s) {
      SectionsOfMember(chapters, s);
    }
  }

  /** Whichever pass built it, every number in the PDF parser's tree is an
      ASCII numeral, and when the fallback pass built it every section holds
      at most one clause. */
  lemma PdfNumbered(lines: seq<string>)
    requires forall k :: 0 <= k < |lines| ==> '\n' !in lines[k]
    ensures Numbered(PdfTree(lines))
    ensures var strict := Strict.Outline(Strict.MarkAll(lines), Segment);
            strict.parts == [] && strict.chapters == [] ==>
              forall s :: s in StrictFacts.AllSections(PdfTree(lines)) ==> |s.clauses| <= 1
  {
    var strict := Strict.Outline(Strict.MarkAll(lines), Segment);
    if strict.parts == [] && strict.chapters == [] {
      Fallback.FallbackOk(lines);
      FallbackNumbered(PdfTree(lines));
    } else {
      StrictFacts.NumbersAreNumerals(lines, Segment);
    }
  }

  /** In a fallback tree whose parts and chapters keep only sections with
      content, every section has content. */
  lemma FallbackSectionsFilled(t: Tree)
    requires Fallback.TreeFilled(t)
    ensures forall s :: s in StrictFacts.AllSections(t) ==> s.content != ""
  {
    var chapters := StrictFacts.AllChapters(t);
    forall c | c in chapters ensures Fallback.ChapterFilled(c) {
      if c !in t.chapters {
        assert c in ChaptersOf(t.parts);
        ChaptersOfMember(t.parts, c);
      }
    }
    forall s | s in StrictFacts.AllSections(t) ensures s.content != "" {
      SectionsOfMember(chapters, s);
    }
  }

  /** When the fallback pass builds the PDF parser's tree, no section in it
      is empty: a section with no text after its marker line is dropped. */
  lemma PdfFallbackFilled(pages: seq<string>)
    ensures var lines := ExtractLines(pages);
            var strict := Strict.Outline(Strict.MarkAll(lines), Segment);
            strict.parts == [] && strict.chapters == [] ==>
              forall s :: s in StrictFacts.AllSections(PdfTree(lines)) ==> s.content != ""
  {
    var lines := ExtractLines(pages);
    var strict := Strict.Outline(Strict.MarkAll(lines), Segment);
    if strict.parts == [] && strict.chapters == [] {
      ExtractedLinesClean(pages);
      Fallback.FallbackFilled(lines);
      FallbackSectionsFilled(PdfTree(lines));
    }
  }

  /** What `parse` promises of the Act: a source, a title that names the Act
      when one of the first 50 lines does, and numbered parts, chapters and
      sections. */
  lemma PdfActShape(pages: seq<string>, sourceUrl: string)
    ensures var act := PdfAct(pages, sourceUrl);
            && act.sourceUrl != "" && act.title != ""
            && (act.sourceUrl == sourceUrl || sourceUrl == "")
            && (Contains(act.title, ActWord) <==>
                exists k :: 0 <= k < Min(ActScan, |ExtractLines(pages)|) && Contains(ExtractLines(pages)[k], ActWord))
            && Numbered(Tree(act.parts, act.chapters))
  {
    var lines := ExtractLines(pages);
    ExtractedLinesClean(pages);
    TitleNamesAct(lines);
    PdfNumbered(lines);
  }

  // ----- the HTML parser -----

  /** `NepaliHTMLParser.parse` over the lines the page yields. */
  function HtmlAct(lines: seq<string>, sourceUrl: string): Act {
    var t := Strict.Outline(Strict.MarkAll(lines), Strict.NoClauses);
    Act(HtmlTitle(lines), YearOf(lines), SourceOr(sourceUrl), None, t.parts, t.chapters, map[])
  }

  /** `NepaliHTMLParser.parse` as the source runs it. */
  method ParseHtml(lines: seq<string>, sourceUrl: string) returns (act: Act)
    ensures act == HtmlAct(lines, sourceUrl)
  {
    var year := ExtractYear(lines);
    act := NewAct(HtmlTitle(lines), SourceOr(sourceUrl), year);
    var parts, chapters := Strict.ParseStrict(lines, false);
    act := act.(parts := parts, chapters := chapters);
  }

  /** The HTML parser's sections never hold clauses, its numbers are ASCII
      numerals, and a page without anchored markers gives an Act with no part
      and no chapter: there is no fallback. */
  lemma HtmlActShape(lines: seq<string>, sourceUrl: string)
    ensures var act := HtmlAct(lines, sourceUrl);
            && (forall s :: s in StrictFacts.AllSections(Tree(act.parts, act.chapters)) ==> s.clauses == [])
            && Numbered(Tree(act.parts, act.chapters))
            && ((forall k :: 0 <= k < |lines| ==> Strict.PlainLine(lines[k])) ==> act.parts == [] && act.chapters == [])
  {
    StrictFacts.HtmlSectionsHaveNoClauses(Strict.MarkAll(lines));
    StrictFacts.NumbersAreNumerals(lines, Strict.NoClauses);
    if forall k :: 0 <= k < |lines| ==> Strict.PlainLine(lines[k]) {
      StrictFacts.NoMarkerNoTree(lines, Strict.NoClauses);
    }
  }
}
