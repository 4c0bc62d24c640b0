# Nepali statute segmenter — a verified model

This project models the core of a retrieval system for Nepali legislation in
Dafny. The core turns the text of an Act into a tree Act → Part → Chapter →
Section → Clause, flattens the tree into chunks for a vector index, and
tracks chat sessions and the lineage of each answered query. It has five
parts:

- **The PDF parser** (`NepaliLegalParser`):
  - It keeps the stripped, non-empty lines of every page.
  - It takes the title (`_find_title`) and the year (`_extract_year`) from the first lines.
  - It runs a *strict pass*. The strict pass is a state machine driven by three anchored patterns: `भाग` (Part), `परिच्छेद` (Chapter) and `दफा` (Section), each followed by optional whitespace or hyphens and then a digit.
  - Closed sections are split into clauses by `detect_clauses`.
  - When the strict pass finds no part and no chapter, the parser runs the *fallback pass*. The fallback pass accepts a keyword anywhere in a line, as long as the line also holds a digit.
- **The HTML parser** (`NepaliHTMLParser`). It runs the same strict state machine, with these differences:
  - it never looks for clauses;
  - it has no fallback;
  - its title is the first two lines.
- **The schema.** The pydantic records, modelled as immutable datatypes.
- **The indexer's flattening loop** (`LegalIndexer.index_act`). An Act becomes one chunk per clause, or one per section that has no clause. Each chunk has an id, a document text and a metadata record.
- **The in-memory conversation manager and lineage tracker.** These are classes whose fields their methods update.

What is proved:

- **The strict pass.**
  - The parsing loop (`Strict.ParseStrict`) builds exactly a declarative reading of the document (`Strict.Outline`). In that reading:
    - each Part line owns the Chapter lines up to the next Part line;
    - each Chapter line owns the Section lines up to the next heading;
    - each Section line owns the plain lines up to the next marker.
  - Consequences, proved from that reading:
    - one part per Part line and one chapter per Chapter line;
    - every part, chapter and section number is an ASCII numeral;
    - every section body is the run of lines up to the next marker;
    - the HTML parser's sections have no clauses.
- **The clause segmenter.**
  - `detect_clauses` is proved against a clause-by-clause specification: one clause per line that the clause pattern matches, in line order.
  - The clause pattern itself is characterised character by character.
- **The fallback pass.** It yields one part per Part line and at most one chapter directly under the Act. All its numbers are ASCII numerals, and each of its sections holds at most one clause.
- **The indexer.**
  - The chunk count is the number of clauses plus the number of sections without clauses.
  - Chunks come in the loops' order.
  - The ids of one Act are pairwise distinct.
- **Sessions and traces.**
  - Sessions only grow at their end.
  - The chat history is a suffix of the session, with the exact length of Python's `xs[-limit:]`.
  - Each citation string consists of the act and section, plus the clause exactly when a clause is present.

A file's PyMuPDF pages and its BeautifulSoup lines are parameters. So are the md5 prefix of a chunk id, the uuid of a new session or trace, and the clock reading.

Two behaviours of the code are easy to misread, and the model keeps them as written:

- **A heading line can open a clause.** A line such as `खण्ड शीर्षक` ("clause heading") after a Section line opens a clause of its own. Its first letter `ख` lies in the enumeration range `[क-ज]`, so a section headed that way gets one clause more than its numbered items (`Clauses.LetterOpensClause`).
- **The empty title.** An empty document is titled "Unknown Act", not left untitled (`TitleYear.TitleFallback`, `TitleYear.HtmlTitle`).

## Model

| member | source | states |
|---|---|---|
| Numerals.NormalizeDigit | src/ingestion/parser.py:13-16 | A Devanagari digit maps to the ASCII digit of the same value; every other character is unchanged |
| Numerals.NepaliToEnglishNum | src/ingestion/parser.py:40-44 | The loop of ten `replace` calls, in the table's order, computes `ToAscii` |
| Numerals.ReplaceDigitPairs | src/ingestion/parser.py:13-16 | Replacing along a table of (Devanagari, ASCII) digit pairs from value i on maps exactly the digits of those values and leaves every other character unchanged |
| Numerals.ToAsciiPointwise | src/ingestion/parser.py:40-44 | `nepali_to_english_num` acts character by character, as `NormalizeDigit` |
| Numerals.ToAsciiIdempotent | src/ingestion/parser.py:40-44 | Normalising leaves no Devanagari digit, and normalising twice is normalising once |
| Numerals.ToAsciiUnchanged | src/ingestion/parser.py:40-44 | A text without Devanagari digits comes back unchanged |
| Numerals.ToAsciiNumeral | src/ingestion/parser.py:40-44 | A numeral in either script becomes an ASCII numeral of the same length and the same digit values |
| Numerals.DigitRunLength | src/ingestion/parser.py:49 | The run it measures is all digits, and it is maximal |
| Numerals.ExtractNumberShape | src/ingestion/parser.py:46-52 | `extract_number` yields ASCII digits only, and "" exactly when the text holds no digit |
| Numerals.ExtractNumberFirstRun | src/ingestion/parser.py:46-52 | The extracted number is the normalised first maximal run of digits (what `re.search` of `[०-९0-9]+` finds) |
| Numerals.NatToString | src/retrieval/indexer.py:76-78 | `str(n)` is a non-empty ASCII numeral |
| Numerals.ParseNatToString | src/retrieval/indexer.py:76-78 | Reading back `str(n)` gives n |
| Numerals.NatToStringInjective | src/retrieval/indexer.py:89-90 | Different positions print differently |
| Text.TrimLeftSuffix | src/ingestion/parser.py:59 | `lstrip` removes exactly the leading whitespace run |
| Text.TrimRightPrefix | src/ingestion/parser.py:59 | `rstrip` removes exactly the trailing whitespace run |
| Text.StripInfix | src/ingestion/parser.py:59 | `strip` keeps the infix between the leading and trailing whitespace runs, and that infix neither starts nor ends with whitespace |
| Text.StripIdempotent | src/ingestion/parser.py:59 | Stripping twice is stripping once |
| Text.ContainsIff | src/ingestion/parser.py:323 | `sub in s` holds exactly when `sub` occurs at some position of `s` |
| Text.Split | src/ingestion/parser.py:67 | `split` never returns an empty list |
| Text.SplitPieces | src/ingestion/parser.py:67 | No piece of a split holds the separator |
| Text.JoinSplit | src/ingestion/parser.py:67 | Joining the pieces of a split gives back the text |
| Text.SplitJoin | src/ingestion/parser.py:286-291 | Splitting a join of separator-free pieces gives back the pieces |
| Text.JoinAvoids | src/ingestion/parser.py:256-260 | A character in neither the separator nor any piece is not in the join |
| Schema.SectionsOfMember | src/schema.py:32-38 | A section of a list of chapters belongs to one of the chapters |
| Schema.ChaptersOfMember | src/schema.py:40-46 | A chapter of a list of parts belongs to one of the parts |
| Schema.SectionsOfAppend | src/schema.py:32-38 | The sections of concatenated chapter lists are the concatenated sections |
| Schema.ChaptersOfAppend | src/schema.py:40-46 | The chapters of concatenated part lists are the concatenated chapters |
| Markers.SkipSeparatorsSuffix | src/ingestion/parser.py:26 | `[\s-]*` consumes a run of whitespace and hyphens and stops at the first other character |
| Markers.AnchoredMarkerIff | src/ingestion/parser.py:26-32 | An anchored pattern matches exactly when the line starts with the keyword and a digit follows after nothing but whitespace and hyphens |
| Markers.ClassifyExact | src/ingestion/parser.py:113-143 | At most one anchored pattern matches a line, so the Part/Chapter/Section order decides nothing; each kind is assigned exactly when its pattern matches |
| Markers.MarkerNumber | src/ingestion/parser.py:119 | The number of a marker line is the normalised digit run right after the keyword and separators, and it is never empty |
| Markers.StrictMarkerIsLooseMarker | src/ingestion/parser.py:174-228 | Every line that the strict pass takes for a marker is a marker for the fallback pass too |
| Markers.LooseMarkerOf | src/ingestion/parser.py:174-228 | A line with a digit and any of the three keywords is a fallback marker |
| Markers.AfterLabelSuffix | src/ingestion/parser.py:35 | What the clause pattern leaves after the label is a suffix of the line that does not start with whitespace |
| Markers.LabelTextSuffix | src/ingestion/parser.py:35 | The label is searched in a suffix of the line |
| Markers.MatchClauseShape | src/ingestion/parser.py:35 | The clause pattern matches exactly the lines that open a clause, and it captures a whole digit run or one enumeration letter |
| Markers.MatchClauseRest | src/ingestion/parser.py:79 | What `clause_pattern.sub('', line)` keeps is a suffix of the line that does not start with whitespace |
| Markers.MatchClauseIff | src/ingestion/parser.py:35 | A line opens a clause exactly when, after leading whitespace and at most one opening bracket, its next character is a digit or an enumeration letter |
| Clauses.ReadLineShape | src/ingestion/parser.py:71-86 | A line is read as an opening line exactly when the pattern matches it. The id is then an ASCII numeral or a single letter, and the text is the stripped rest of the line. Any other line keeps its stripped text |
| Clauses.ReadLinesAt | src/ingestion/parser.py:70-71 | The k-th read line is the reading of the k-th line |
| Clauses.NextOpening | src/ingestion/parser.py:84-86 | The first opening line at or after i; every line before it is plain |
| Clauses.PendingOpen | src/ingestion/parser.py:72-83 | An opening line emits the clause under construction and starts its own |
| Clauses.PendingPlain | src/ingestion/parser.py:84-86 | A plain line extends the open clause by a space and its stripped text, and is dropped when no clause is open |
| Clauses.PendingEnd | src/ingestion/parser.py:88-92 | At the end the open clause, if any, is emitted |
| Clauses.ClauseStep | src/ingestion/parser.py:70-86 | One iteration keeps "emitted so far + still to come" equal to the clauses of the whole content |
| Clauses.DetectClauses | src/ingestion/parser.py:64-92 | `detect_clauses` returns exactly the clause-by-clause specification `Segment` of its content |
| Clauses.OpeningIndicesIncreasing | src/ingestion/parser.py:70-83 | The opening lines are listed in strictly increasing order |
| Clauses.OpeningIndicesComplete | src/ingestion/parser.py:70-83 | No opening line is missed |
| Clauses.ClausesFromIndexed | src/ingestion/parser.py:64-92 | One clause per opening line, in line order: the n-th clause is the one that the n-th opening line opens |
| Clauses.NoOpeningNoClauses | src/ingestion/parser.py:84-92 | Content without an opening line has no clauses |
| Clauses.SegmentSingleLine | src/ingestion/parser.py:177-178 | Single-line content, as the fallback pass builds it, has at most one clause: the line's own |
| Clauses.ClausesFromOne | src/ingestion/parser.py:88-92 | A single read line yields its own clause, or none |
| Clauses.SegmentJoin | src/ingestion/parser.py:289-291 | Content joined from buffered lines with line feeds is segmented line by line |
| Clauses.LetterOpensClause | src/ingestion/parser.py:35 | A line starting with an enumeration letter directly followed by text opens a clause labelled with that letter, whatever the word |
| Clauses.StripUnchanged | src/ingestion/parser.py:79 | A text that neither starts nor ends with whitespace is its own strip |
| Strict.MarkAll | src/ingestion/parser.py:111 | One classified line per line |
| Strict.TitleAfterSpec | src/ingestion/parser.py:309-317 | The title after a marker is the next line exactly when it exists and no anchored pattern matches it; otherwise it is "" |
| Strict.NextIn | src/ingestion/parser.py:111-157 | The first line of the sought kinds at or after i |
| Strict.Absorb | src/ingestion/parser.py:155-157 | Plain lines go to the buffer of the open section |
| Strict.Skip | src/ingestion/parser.py:155-157 | Plain lines are dropped when no section is open |
| Strict.SettleSection | src/ingestion/parser.py:286-294 | At a marker or at the end, the open section is flushed into the open chapter, or lost without one |
| Strict.SettleChapter | src/ingestion/parser.py:296-302 | At a Part line or at the end, the open chapter goes to the open part, or to the Act |
| Strict.SectionStep | src/ingestion/parser.py:143-153 | A Section line opens a section that takes the lines up to the next marker and is then flushed into the open chapter |
| Strict.SectionsRun | src/ingestion/parser.py:143-157 | Up to the next heading, the machine appends the outline's sections to the open chapter |
| Strict.ChapterStep | src/ingestion/parser.py:129-140 | A Chapter line flushes the open chapter and opens a new one with its number and title |
| Strict.PartStep | src/ingestion/parser.py:113-126 | A Part line flushes the open part and opens a new one with its number and title |
| Strict.ChaptersRun | src/ingestion/parser.py:129-157 | Up to the next Part line, the machine places the outline's chapters where the open chapter goes |
| Strict.PartBlock | src/ingestion/parser.py:113-126 | A Part line opens the outline's part for that line, with all its chapters |
| Strict.PartsRun | src/ingestion/parser.py:159-162 | From a Part line or the end, the machine appends the outline's parts to the Act |
| Strict.RunIsOutline | src/ingestion/parser.py:106-162 | The state machine builds exactly the declarative outline of the document |
| Strict.FlushSectionInto | src/ingestion/parser.py:286-294 | `_flush_section`, with `detect_clauses` for the PDF parser only |
| Strict.StepAt | src/ingestion/parser.py:111-157 | One iteration of the strict loop |
| Strict.RunMachine | src/ingestion/parser.py:106-162 | The strict loop with its final flushes computes the outline |
| Strict.ParseStrict | src/ingestion/html_parser.py:104-162 | Both parsers' strict passes compute the outline of their lines, with or without clauses |
| StrictFacts.NextInBetween | src/ingestion/parser.py:111-157 | The lines that the search skips are not of the sought kinds |
| StrictFacts.SectionsFromMembers | src/ingestion/parser.py:143-153 | Every section in a run comes from a Section line of that run |
| StrictFacts.ChaptersFromMembers | src/ingestion/parser.py:129-140 | Every chapter in a run comes from a Chapter line of that run |
| StrictFacts.PartsFromMembers | src/ingestion/parser.py:113-126 | Every part comes from a Part line |
| StrictFacts.OutlineChapters | src/ingestion/parser.py:129-140 | Every chapter of the tree is the chapter of some Chapter line |
| StrictFacts.ChapterOfPart | src/ingestion/parser.py:296-302 | A chapter inside a part comes from some Chapter line |
| StrictFacts.OutlineSections | src/ingestion/parser.py:143-153 | Every section of the tree is the section of some Section line |
| StrictFacts.SectionOfChapter | src/ingestion/parser.py:286-294 | A section inside a chapter comes from some Section line |
| StrictFacts.SectionAtBody | src/ingestion/parser.py:143-157 | A section's body is exactly the run of non-marker lines after its Section line. Its content is that run joined with line feeds, its clauses are the segmentation of that content, its number is the line's number, and its title is the first line of the run |
| StrictFacts.SectionTitleLeadsContent | src/ingestion/parser.py:146-157 | A non-empty section title is also the first line of the section's content |
| StrictFacts.NoMarkerNoTree | src/ingestion/html_parser.py:109-162 | Lines without any anchored marker give no part and no chapter |
| StrictFacts.NextInNone | src/ingestion/parser.py:111-157 | With no marker from i on, the search reaches the end |
| StrictFacts.HeadingsCounted | src/ingestion/parser.py:113-140 | From any line on: one part per Part line, and one chapter per Chapter line, whether under the Act or under a part |
| StrictFacts.HeadingsStepPart | src/ingestion/parser.py:113-126 | A Part line adds one part and moves the chapters after it under that part |
| StrictFacts.HeadingsStepChapter | src/ingestion/parser.py:129-140 | A Chapter line adds one chapter |
| StrictFacts.HeadingsStepSkip | src/ingestion/parser.py:143-157 | Section and plain lines add no part and no chapter |
| StrictFacts.ChaptersFromAtLength | src/ingestion/parser.py:129-140 | A Chapter line adds exactly one chapter to the run |
| StrictFacts.OutlineCounts | src/ingestion/parser.py:106-162 | The tree has exactly one part per Part line and one chapter per Chapter line: no heading is lost |
| StrictFacts.HtmlSectionsHaveNoClauses | src/ingestion/html_parser.py:164-168 | The HTML parser's sections have no clauses |
| StrictFacts.MarkedNumbers | src/ingestion/parser.py:119 | Every marker line carries an ASCII numeral |
| StrictFacts.NumbersAreNumerals | src/ingestion/parser.py:113-153 | Every part, chapter and section number in the tree is an ASCII numeral |
| StrictFacts.TitlesLeadContent | src/ingestion/parser.py:146-157 | In every section of the tree, a non-empty title is the first line of the content |
| Fallback.LooseMarkAll | src/ingestion/parser.py:172 | One classified line per line |
| Fallback.FinishSection | src/ingestion/parser.py:176-180 | A flushed section's content is its buffer joined with spaces, and its clauses are those found there, if any |
| Fallback.FlushKeepInto | src/ingestion/parser.py:176-182 | At a Part or Chapter marker, a section with content goes to the open chapter, and is lost without one |
| Fallback.FlushGeneralInto | src/ingestion/parser.py:230-243 | At a Section marker, a section with content goes to the open chapter or to a new chapter "1" titled "सामान्य (General)" |
| Fallback.StepAt | src/ingestion/parser.py:172-256 | One iteration of the fallback loop |
| Fallback.ParseFallback | src/ingestion/parser.py:165-282 | The fallback loop with its final flushes computes `Fallback.Run` |
| Fallback.RunParts | src/ingestion/parser.py:187-196 | Every Part line adds one part, and the open part is kept at the end |
| Fallback.RunChapters | src/ingestion/parser.py:272-278 | The Act gets at most one direct chapter, and only when no part was opened |
| Fallback.FallbackShape | src/ingestion/parser.py:165-282 | One part per Part line, and at most one chapter directly under the Act, only when there is no part |
| Fallback.SegmentSingleLineSeg | src/ingestion/parser.py:177-178 | `detect_clauses` finds at most one clause in a single line |
| Fallback.LooseMarkAllOk | src/ingestion/parser.py:191 | Marked lines have no line feeds, and their numbers are empty or ASCII numerals |
| Fallback.FinishOk | src/ingestion/parser.py:177-180 | A space-joined section keeps at most one clause |
| Fallback.AddSectionOk | src/ingestion/parser.py:182 | Appending a well-formed section keeps a chapter well-formed |
| Fallback.AddChapterOk | src/ingestion/parser.py:185 | Appending a well-formed chapter keeps a part well-formed |
| Fallback.FlushKeepOk | src/ingestion/parser.py:176-182 | The flush at a Part or Chapter marker keeps the state well-formed |
| Fallback.FlushGeneralOk | src/ingestion/parser.py:230-243 | The flush at a Section marker keeps the state well-formed |
| Fallback.KeepChapterOk | src/ingestion/parser.py:184-185 | Moving the chapter into the part keeps the state well-formed |
| Fallback.StepOk | src/ingestion/parser.py:172-256 | Each iteration keeps the loop's state well-formed: every part, chapter and section number in it stays an ASCII numeral and every section has at most one clause |
| Fallback.RunOk | src/ingestion/parser.py:172-282 | The whole fallback tree is well-formed |
| Fallback.FallbackOk | src/ingestion/parser.py:165-282 | From extracted lines, every fallback number is an ASCII numeral and every section has at most one clause |
| Fallback.StepDefaults | src/ingestion/parser.py:191-248 | A marker line's number is the one found on it; failing that, a part gets its position among the parts, a chapter its position in the open part ("1" with no part open), and a section "1" |
| Fallback.SectionOpensGeneral | src/ingestion/parser.py:230-243 | At a Section marker with no chapter open, the finished section goes into a new chapter "1" titled "सामान्य (General)" |
| Fallback.CloseOpensGeneral | src/ingestion/parser.py:259-278 | At the end, with neither a chapter nor a part open, the finished section reaches the Act in a chapter "1" titled "सामान्य (General)" |
| Fallback.HeadingLosesSection | src/ingestion/parser.py:176-214 | At a Part or Chapter marker with no chapter open, the open section and its content are lost |
| Fallback.EmptySectionDropped | src/ingestion/parser.py:176-270 | A section with an empty buffer leaves no trace at any marker or at the end |
| Fallback.FinishFilled | src/ingestion/parser.py:176-177 | A section flushed from a buffer whose first line is not empty has content |
| Fallback.StepFilled | src/ingestion/parser.py:172-256 | Over a non-empty line, each iteration keeps only sections with content |
| Fallback.RunFilled | src/ingestion/parser.py:172-282 | Over non-empty lines, every section of the fallback tree has content |
| Fallback.FallbackFilled | src/ingestion/parser.py:165-282 | From non-empty lines, every section the fallback pass keeps has content |
| TitleYear.FirstActLine | src/ingestion/parser.py:322-323 | The first of the first 50 lines that holds ऐन, or None when none does |
| TitleYear.FirstCandidate | src/ingestion/parser.py:345-352 | The first of the first 20 lines that is not a URL, too short or a page number, or None |
| TitleYear.FindTitle | src/ingestion/parser.py:319-354 | `_find_title`'s two loops compute `TitleOf` |
| TitleYear.ContainsStrip | src/ingestion/parser.py:342 | A word that neither starts nor ends with whitespace survives `strip` |
| TitleYear.TitlePartsJoin | src/ingestion/parser.py:325-342 | The joined title is the ऐन line, with each neighbour on its side when that neighbour passes its filter |
| TitleYear.TitlePartsContain | src/ingestion/parser.py:325-342 | The joined title parts hold ऐन |
| TitleYear.TitleNamesAct | src/ingestion/parser.py:319-354 | The title holds ऐन exactly when one of the first 50 lines does, and it is never empty |
| TitleYear.UnknownTitleHasNoActWord | src/ingestion/parser.py:354 | "Unknown Act" does not hold ऐन |
| TitleYear.TitleFallback | src/ingestion/parser.py:344-354 | Without an ऐन line, the title is the first candidate among the first 20 lines, or "Unknown Act" |
| TitleYear.HtmlTitle | src/ingestion/html_parser.py:193-199 | The HTML title: the first two lines joined by a space, the only line, or "Unknown Act" |
| TitleYear.HtmlTitleSplits | src/ingestion/html_parser.py:193-199 | When the first two lines hold no space, the HTML title splits back into them |
| TitleYear.FirstYearAt | src/ingestion/parser.py:360 | `re.search` of the year pattern: the leftmost position where it matches, or None when there is none |
| TitleYear.ExtractYear | src/ingestion/parser.py:356-363 | `_extract_year`'s loop computes `YearOf` |
| TitleYear.YearMatchShape | src/ingestion/parser.py:360-362 | A normalised year is four decimal digits with no Devanagari digit left |
| TitleYear.YearMatchDecimal | src/ingestion/parser.py:360 | The four characters that either alternative matches are decimal digits |
| TitleYear.NormalizeKeepsDecimal | src/ingestion/parser.py:362 | Normalising keeps a decimal digit decimal |
| TitleYear.YearFromShape | src/ingestion/parser.py:358-363 | From line i on, no year exactly when none of the remaining scanned lines matches; otherwise the normalised match of one of them |
| TitleYear.YearShape | src/ingestion/html_parser.py:201-207 | The year is None exactly when none of the first five lines matches; otherwise it is four normalised decimal digits matched in one of them |
| TitleYear.YearFromFirst | src/ingestion/parser.py:358-363 | The year comes from the first of the five lines that holds a match |
| Parse.SourceOr | src/ingestion/parser.py:100 | The source is never empty, and it is the given URL when there is one |
| Parse.KeepStripped | src/ingestion/parser.py:59 | Filtering never adds lines |
| Parse.ExtractText | src/ingestion/parser.py:54-62 | The page loop computes the lines of all pages, in page order |
| Parse.StripKeepsNoLineFeed | src/ingestion/parser.py:59 | `strip` adds no line feed |
| Parse.KeepStrippedClean | src/ingestion/parser.py:59 | Every kept line is non-empty, stripped and free of line feeds |
| Parse.ExtractedLinesClean | src/ingestion/parser.py:54-62 | Every extracted line is non-empty, stripped and free of line feeds |
| Parse.KeepStrippedUnchanged | src/ingestion/parser.py:59 | Clean lines pass the filter unchanged |
| Parse.PageLinesRoundTrip | src/ingestion/parser.py:58-60 | A page whose text is clean lines joined by line feeds gives back exactly those lines |
| Parse.ParsePdf | src/ingestion/parser.py:94-284 | `parse` of the PDF parser: title, year, source, then the strict pass, or the fallback pass when the strict pass finds no part and no chapter |
| Parse.FallbackNumbered | src/ingestion/parser.py:165-282 | A well-formed fallback tree is numbered, with at most one clause per section |
| Parse.PdfNumbered | src/ingestion/parser.py:94-284 | Whichever pass built the PDF tree, every number in it is an ASCII numeral |
| Parse.FallbackSectionsFilled | src/ingestion/parser.py:165-282 | In a fallback tree of filled parts and chapters, every section has content |
| Parse.PdfFallbackFilled | src/ingestion/parser.py:165-282 | When the fallback pass builds the PDF parser's tree, no section in it is empty |
| Parse.PdfActShape | src/ingestion/parser.py:94-104 | The Act has a source and a non-empty title. The title names the Act exactly when one of the first 50 lines does. The tree is numbered |
| Parse.ParseHtml | src/ingestion/html_parser.py:92-162 | `parse` of the HTML parser: its title, the year, and the strict pass without clauses |
| Parse.HtmlActShape | src/ingestion/html_parser.py:92-162 | HTML sections have no clauses and the numbers are ASCII numerals. A page without anchored markers has no structure, because there is no fallback |
| Indexer.BatchOf | src/retrieval/indexer.py:69-71 | The three parallel lists have the same length as the chunk list |
| Indexer.BatchOfPush | src/retrieval/indexer.py:92-94 | Appending one chunk to the three lists is appending it to the chunk list |
| Indexer.AddSection | src/retrieval/indexer.py:80-120 | A section's loop appends its chunks: one per clause, or one for the section |
| Indexer.AddChapter | src/retrieval/indexer.py:78-120 | The section loop of one chapter appends the chunks of its sections in order |
| Indexer.AddChapters | src/retrieval/indexer.py:77-120 | The chapter loop appends the chunks of its chapters in order |
| Indexer.ClauseMetadata | src/retrieval/indexer.py:173 | The count of clause-level metadata never exceeds the number of metadata records |
| Indexer.IndexAct | src/retrieval/indexer.py:62-175 | `index_act` builds the three lists of `ActChunks` (parts first, then the Act's own chapters) and reports the printed counts, or None when nothing is upserted |
| Indexer.TotalsAppend | src/retrieval/indexer.py:80-120 | The clause and bare-section totals add over concatenation |
| Indexer.TotalsCoverSections | src/retrieval/indexer.py:80-120 | Every section yields at least one chunk |
| Indexer.ClauseMetadataAppend | src/retrieval/indexer.py:173 | The clause count adds over concatenation |
| Indexer.ClauseMetadataUniform | src/retrieval/indexer.py:173 | The clause count is the length when every record has a clause number, and 0 when none has |
| Indexer.MetasOfAppend | src/retrieval/indexer.py:94-101 | The metadata column distributes over concatenation |
| Indexer.CountedAppend | src/retrieval/indexer.py:76-161 | The chunk counts add over concatenated sections |
| Indexer.SectionCounted | src/retrieval/indexer.py:80-120 | One section: as many chunks as clauses, or one when it has none |
| Indexer.SectionsCounted | src/retrieval/indexer.py:78-120 | The chunks of a chapter's sections are counted by their clauses and bare sections |
| Indexer.ChaptersCounted | src/retrieval/indexer.py:77-120 | The chunks of a chapter list are counted by their clauses and bare sections |
| Indexer.PartsCounted | src/retrieval/indexer.py:76-120 | The chunks of the parts are counted by their clauses and bare sections |
| Indexer.ActCounted | src/retrieval/indexer.py:62-161 | Chunks number the clauses plus the sections without clauses, and exactly the clause chunks carry a clause number |
| Indexer.SummaryCounts | src/retrieval/indexer.py:163-175 | The printed counts are the clause count and the bare-section count, and nothing is upserted exactly when the Act has no section |
| Indexer.SortedAppend | src/retrieval/indexer.py:76-161 | Two sorted chunk lists, the first entirely before the second, concatenate to a sorted list |
| Indexer.SectionShape | src/retrieval/indexer.py:80-120 | A section's chunks are sorted by clause and carry its part, chapter and section positions, with matching tags |
| Indexer.SectionsShape | src/retrieval/indexer.py:78-120 | The chunks of sections from s on are sorted and come after section s |
| Indexer.ChaptersShape | src/retrieval/indexer.py:77-120 | The chunks of chapters from j on are sorted and come after chapter j |
| Indexer.PartsShape | src/retrieval/indexer.py:76-120 | The chunks of parts from i on are sorted and come after part i |
| Indexer.ActShape | src/retrieval/indexer.py:62-161 | All chunks come in the loops' order, every part-nested chunk precedes the direct-chapter chunks, and each chunk carries part and clause numbers exactly where its position has them |
| Indexer.IdPiecesPlain | src/retrieval/indexer.py:90 | No piece of an id holds an underscore |
| Indexer.TaggedNumeral | src/retrieval/indexer.py:90 | The numeral after a tag determines the number |
| Indexer.IdInjective | src/retrieval/indexer.py:90-134 | Different positions have different ids |
| Indexer.IdsDistinct | src/retrieval/indexer.py:62-161 | The ids of one Act are pairwise distinct, so the upsert overwrites none of them |
| Conversation.SliceFrom | src/reasoning/conversation.py:30 | Python's `xs[start:]` is a suffix of `xs` |
| Conversation.ConversationManager.constructor | src/reasoning/conversation.py:14-16 | A new manager has no sessions |
| Conversation.ConversationManager.CreateSession | src/reasoning/conversation.py:18-21 | The new session, under the given id, starts empty; no other session changes |
| Conversation.ConversationManager.AddMessage | src/reasoning/conversation.py:23-26 | Fails, changing nothing, exactly for an unknown session, with the source's error message; otherwise appends the message to that session only |
| Conversation.ConversationManager.GetHistory | src/reasoning/conversation.py:28-30 | A suffix of the session; a positive limit keeps min(limit, n) messages, 0 keeps all, a negative limit drops that many from the front; an unknown session has none |
| Conversation.ConversationManager.BuildGptMessages | src/reasoning/conversation.py:32-43 | The system prompt, the history's role and content pairs in order, then the context and question; never more than seven entries |
| Conversation.ChatMessages | src/reasoning/conversation.py:33-43 | For any history: the system prompt first, one role-and-content entry per history message in the same order, then the context and question as the last user turn |
| Conversation.AppendedIsLatest | src/reasoning/conversation.py:26-30 | After an append, the new message is the last entry of the history for every limit above 1, preceded by the earlier history with limit − 1 |
| Lineage.Trace.constructor | src/utils/lineage.py:8-16 | A new trace has its id, query and start time, no answer, no sources, and zero latency and tokens |
| Lineage.LineageTracker.constructor | src/utils/lineage.py:19-21 | A new tracker has no traces |
| Lineage.LineageTracker.StartTrace | src/utils/lineage.py:23-27 | A fresh trace is stored under its id and returned; the total grows by one unless the id was already in use |
| Lineage.LineageTracker.AddSources | src/utils/lineage.py:29-30 | The sources are appended in order; nothing else changes |
| Lineage.LineageTracker.CompleteTrace | src/utils/lineage.py:32-35 | Records answer, latency and tokens; query, sources, id and start time are unchanged |
| Lineage.LineageTracker.CiteSource | src/utils/lineage.py:41-47 | One source's citation string |
| Lineage.LineageTracker.GetCitationPath | src/utils/lineage.py:37-48 | One citation per source, in the order the sources were added |
| Lineage.CitationShape | src/utils/lineage.py:41-47 | A citation starts with "act, दफा section" and continues with ", खण्ड clause" exactly when the source names a clause |
| Lineage.EmptySourceCitation | src/utils/lineage.py:41-47 | A source without fields is cited as "Unknown, दफा ??" |

## Left out

- Reading the PDF (PyMuPDF `fitz.open` and `page.get_text`) and the HTML (BeautifulSoup `extract_text_from_html`): the page texts and the HTML lines are parameters.
- The md5 digest of the Act title in `index_act`: the eight-character prefix is a parameter. `Indexer.IdInjective` and `Indexer.IdsDistinct` assume the prefix has no underscore, as a hex digest never does.
- `get_openai_embedding`, the Chroma client and `collection.upsert`: these are network and storage I/O. `Indexer.IndexAct` reports only whether the upsert step runs and the counts it prints.
- `uuid.uuid4` and `time.time`: the new id and the clock reading are parameters of `CreateSession` and `StartTrace`.
- `get_stats`: only `total_traces` is modelled (`LineageTracker.TotalTraces`). The two averages are floating-point divisions and are left out.
- `Act.created_at` (a wall-clock timestamp) is left out.
- `Act.metadata` (an untyped dict) is modelled as a map of strings.
- The `subsection_pattern` (`parser.py` line 38) is compiled but never used by `parse`, so it is left out.
- Unicode breadth:
  - Whitespace is modelled as ASCII whitespace.
  - `\d` and `str.isdigit` are modelled on the ASCII, Devanagari, Arabic-Indic, Extended Arabic-Indic, Bengali and fullwidth digits, plus the superscripts ¹ ² ³. Other Unicode digits are not modelled.
  - There is no normalisation.
- Python's integer and string sizes: the model uses unbounded integers and sequences.
- Pydantic validation: the records are plain values. The parsers mutate a record only while it is the open one, never after appending it, so value semantics match.
- `LineageTracker.AddSources`: the model does not capture aliasing of the caller's sources list. Python's `extend` copies the dict references, and the model copies the dict values.
- The `__main__` blocks are left out; they do nothing.
