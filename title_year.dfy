/**
 * The front-matter heuristics of the two parsers: the Act's title
 * (`_find_title`) and its year (`_extract_year`), both read off the first
 * lines of the document.
 */
module TitleYear {
  import opened Wrappers
  import opened Text
  import opened Numerals
  import opened Markers

  /** ऐन, "Act": the word the PDF parser looks for in the title line. */
  const ActWord: string := "ऐन"

  const UnknownTitle: string := "Unknown Act"

  /** The first scan looks at this many lines, the second at `CandidateScan`. */
  const ActScan: nat := 50
  const CandidateScan: nat := 20
  /** `_extract_year` looks at this many lines. */
  const YearScan: nat := 5

  function Min(a: nat, b: nat): nat {
    if a < b then a else b
  }

  // ----- the PDF title -----

  /** A header or footer: the line holds a web address. */
  predicate LooksLikeUrl(line: string) {
    Contains(line, "www.") || Contains(line, "http")
  }

  /** `line.isdigit()`: non-empty and every character a digit. */
  predicate IsDigitString(line: string) {
    |line| > 0 && forall k :: 0 <= k < |line| ==> IsUnicodeDigit(line[k])
  }

  /** The line before the ऐन line joins the title unless it opens a Section,
      holds a web address or is shorter than five characters. */
  predicate JoinsBefore(line: string) {
    !AnchoredMarker(line, SectionKeyword) && !(LooksLikeUrl(line) || |line| < 5)
  }

  /** The line after the ऐन line joins the title when it opens no Section,
      Chapter or Part, holds no web address and is longer than three
      characters. */
  predicate JoinsAfter(line: string) {
    && !AnchoredMarker(line, SectionKeyword)
    && !LooksLikeUrl(line) && |line| > 3
    && !AnchoredMarker(line, ChapterKeyword) && !AnchoredMarker(line, PartKeyword)
  }

  /** A line the second scan accepts: no web address, at least five
      characters, and not a page number. */
  predicate TitleCandidate(line: string) {
    && !(LooksLikeUrl(line) || |line| < 5)
    && !(IsDigitString(line) || (|line| < 4 && HasAnyDigit(line)))
  }

  /** The first of the lines `i`, `i + 1`, ... below `ActScan` holding ऐन. */
  function FirstActLine(lines: seq<string>, i: nat): (r: Option<nat>)
    ensures r.Some? ==> i <= r.value < Min(ActScan, |lines|) && Contains(lines[r.value], ActWord)
    ensures r.Some? ==> forall k :: i <= k < r.value ==> !Contains(lines[k], ActWord)
    ensures r.None? ==> forall k :: i <= k < Min(ActScan, |lines|) ==> !Contains(lines[k], ActWord)
    decreases |lines| - i
  {
    if i >= Min(ActScan, |lines|) then None
    else if Contains(lines[i], ActWord) then Some(i)
    else FirstActLine(lines, i + 1)
  }

  /** The first of the lines `i`, `i + 1`, ... below `CandidateScan` that is
      a title candidate. */
  function FirstCandidate(lines: seq<string>, i: nat): (r: Option<nat>)
    ensures r.Some? ==> i <= r.value < Min(CandidateScan, |lines|) && TitleCandidate(lines[r.value])
    ensures r.Some? ==> forall k :: i <= k < r.value ==> !TitleCandidate(lines[k])
    ensures r.None? ==> forall k :: i <= k < Min(CandidateScan, |lines|) ==> !TitleCandidate(lines[k])
    decreases |lines| - i
  {
    if i >= Min(CandidateScan, |lines|) then None
    else if TitleCandidate(lines[i]) then Some(i)
    else FirstCandidate(lines, i + 1)
  }

  /** The ऐन line with the neighbours that pass the filters, in line order. */
  function TitleParts(lines: seq<string>, i: nat): seq<string>
    requires i < |lines|
  {
    (if i > 0 && JoinsBefore(lines[i - 1]) then [lines[i - 1]] else []) +
    [lines[i]] +
    (if i + 1 < |lines| && JoinsAfter(lines[i + 1]) then [lines[i + 1]] else [])
  }

  /** `_find_title` of the PDF parser. */
  function TitleOf(lines: seq<string>): string {
    match FirstActLine(lines, 0)
    case Some(i) => Strip(Join(" ", TitleParts(lines, i)))
    case None =>
      match FirstCandidate(lines, 0)
      case Some(k) => lines[k]
      case None => UnknownTitle
  }

  /** `_find_title` as the source runs it: a scan of the first 50 lines for
      ऐन, then a scan of the first 20 for a plausible title. */
  method FindTitle(lines: seq<string>) returns (title: string)
    ensures title == TitleOf(lines)
  {
    var n := Min(ActScan, |lines|);
    var i := 0;
    while i < n
      invariant 0 <= i <= n
      invariant FirstActLine(lines, i) == FirstActLine(lines, 0)
    {
      var line := lines[i];
      if Contains(line, ActWord) {
        var parts := [line];
        if i > 0 && !AnchoredMarker(lines[i - 1], SectionKeyword) {
          var prev := lines[i - 1];
          if !(LooksLikeUrl(prev) || |prev| < 5) {
            parts := [prev] + parts;
          }
        }
        if i + 1 < |lines| && !AnchoredMarker(lines[i + 1], SectionKeyword) {
          var next := lines[i + 1];
          if !LooksLikeUrl(next) && |next| > 3 {
            if !AnchoredMarker(next, ChapterKeyword) && !AnchoredMarker(next, PartKeyword) {
              parts := parts + [next];
            }
          }
        }
        assert parts == TitleParts(lines, i);
        return Strip(Join(" ", parts));
      }
      i := i + 1;
    }
    var m := Min(CandidateScan, |lines|);
    var j := 0;
    while j < m
      invariant 0 <= j <= m
      invariant FirstCandidate(lines, j) == FirstCandidate(lines, 0)
    {
      var line := lines[j];
      if LooksLikeUrl(line) || |line| < 5 {
        j := j + 1;
        continue;
      }
      if IsDigitString(line) || (|line| < 4 && HasAnyDigit(line)) {
        j := j + 1;
        continue;
      }
      return line;
    }
    return UnknownTitle;
  }

  /** An occurrence survives text added around it. */
  lemma ContainsWithin(a: string, l: string, b: string, w: string)
    requires Contains(l, w)
    ensures Contains(a + l + b, w)
  {
    ContainsIff(l, w);
    var p :| OccursAt(l, w, p);
    var s := a + l + b;
    assert s[|a| + p..|a| + p + |w|] == l[p..p + |w|];
    assert OccursAt(s, w, |a| + p);
    ContainsIff(s, w);
  }

  /** An occurrence inside `s[i..j]` is an occurrence of that infix. */
  lemma OccursInInfix(s: string, w: string, p: nat, i: nat, j: nat)
    requires OccursAt(s, w, p) && i <= p && p + |w| <= j <= |s|
    ensures OccursAt(s[i..j], w, p - i)
  {
    var t := s[i..j];
    forall k | 0 <= k < |w| ensures t[p - i + k] == w[k] {
      assert t[p - i + k] == s[p + k] == s[p..p + |w|][k];
    }
    assert t[p - i..p - i + |w|] == w;
  }

  /** An occurrence of a word that neither starts nor ends with whitespace
      lies between a leading and a trailing run of whitespace. */
  lemma OccurrenceInside(s: string, w: string, p: nat, i: nat, j: nat)
    requires |w| > 0 && !IsSpace(w[0]) && !IsSpace(w[|w| - 1])
    requires OccursAt(s, w, p) && i <= j <= |s| && AllSpace(s[..i]) && AllSpace(s[j..])
    ensures i <= p && p + |w| <= j
  {
    assert s[p] == w[0];
    assert s[p + |w| - 1] == w[|w| - 1];
  }

  /** A word that neither starts nor ends with whitespace survives `strip`. */
  lemma ContainsStrip(s: string, w: string)
    requires |w| > 0 && !IsSpace(w[0]) && !IsSpace(w[|w| - 1])
    requires Contains(s, w)
    ensures Contains(Strip(s), w)
  {
    StripInfix(s);
    var i, j :| 0 <= i <= j <= |s| && Strip(s) == s[i..j] && AllSpace(s[..i]) && AllSpace(s[j..]);
    ContainsIff(s, w);
    var p: nat :| OccursAt(s, w, p);
    OccurrenceInside(s, w, p, i, j);
    OccursInInfix(s, w, p, i, j);
    ContainsIff(s[i..j], w);
  }

  /** Joining a piece in front of a non-empty list puts the separator after
      it. */
  lemma JoinCons(sep: string, x: string, rest: seq<string>)
    requires |rest| >= 1
    ensures Join(sep, [x] + rest) == x + sep + Join(sep, rest)
  {
    assert ([x] + rest)[1..] == rest;
  }

  /** The join of the title parts holds the ऐन line. */
  lemma TitlePartsContain(lines: seq<string>, i: nat)
    requires i < |lines| && Contains(lines[i], ActWord)
    ensures Contains(Join(" ", TitleParts(lines, i)), ActWord)
  {
    var before := if i > 0 && JoinsBefore(lines[i - 1]) then lines[i - 1] + " " else "";
    var after := if i + 1 < |lines| && JoinsAfter(lines[i + 1]) then " " + lines[i + 1] else "";
    TitlePartsJoin(lines, i);
    ContainsWithin(before, lines[i], after, ActWord);
  }

  /** The joined title is the Act line with its neighbours, if they join,
      on either side. */
  lemma TitlePartsJoin(lines: seq<string>, i: nat)
    requires i < |lines|
    ensures var before := if i > 0 && JoinsBefore(lines[i - 1]) then lines[i - 1] + " " else "";
            var after := if i + 1 < |lines| && JoinsAfter(lines[i + 1]) then " " + lines[i + 1] else "";
            Join(" ", TitleParts(lines, i)) == before + lines[i] + after
  {
    var l := lines[i];
    var hasBefore := i > 0 && JoinsBefore(lines[i - 1]);
    var hasAfter := i + 1 < |lines| && JoinsAfter(lines[i + 1]);
    if hasBefore && hasAfter {
      assert TitleParts(lines, i) == [lines[i - 1], l, lines[i + 1]];
      JoinThree(lines[i - 1], l, lines[i + 1]);
    } else if hasBefore {
      assert TitleParts(lines, i) == [lines[i - 1], l];
      JoinTwo(lines[i - 1], l, true);
    } else if hasAfter {
      assert TitleParts(lines, i) == [l, lines[i + 1]];
      JoinTwo(l, lines[i + 1], false);
    } else {
      assert TitleParts(lines, i) == [l];
      assert "" + l + "" == l;
    }
  }

  lemma JoinTwo(x: string, y: string, left: bool)
    ensures left ==> Join(" ", [x, y]) == (x + " ") + y + ""
    ensures !left ==> Join(" ", [x, y]) == "" + x + (" " + y)
  {
    assert [x, y][1..] == [y];
  }

  lemma JoinThree(x: string, y: string, z: string)
    ensures Join(" ", [x, y, z]) == (x + " ") + y + (" " + z)
  {
    assert [x, y, z][1..] == [y, z];
    assert [y, z][1..] == [z];
    assert Join(" ", [y, z]) == y + " " + z;
    assert Join(" ", [x, y, z]) == x + " " + (y + " " + z);
    assert y + " " + z == y + (" " + z);
  }


  /** A text holding a word holds the word's first character. */
  lemma ContainsHead(s: string, w: string)
    requires |w| > 0 && Contains(s, w)
    ensures w[0] in s
  {
    ContainsIff(s, w);
    var p :| OccursAt(s, w, p);
    assert s[p] == w[0];
  }

  lemma UnknownTitleHasNoActWord()
    ensures !Contains(UnknownTitle, ActWord)
  {
    if Contains(UnknownTitle, ActWord) {
      ContainsHead(UnknownTitle, ActWord);
      assert false;
    }
  }

  /** The title names the Act (holds ऐन) exactly when one of the first 50
      lines does; it is never empty. */
  lemma TitleNamesAct(lines: seq<string>)
    ensures Contains(TitleOf(lines), ActWord) <==>
            exists k :: 0 <= k < Min(ActScan, |lines|) && Contains(lines[k], ActWord)
    ensures TitleOf(lines) != ""
  {
    match FirstActLine(lines, 0)
    case Some(i) =>
      TitlePartsContain(lines, i);
      ContainsStrip(Join(" ", TitleParts(lines, i)), ActWord);
      ContainsIff(TitleOf(lines), ActWord);
    case None =>
      match FirstCandidate(lines, 0)
      case Some(k) =>
        assert !Contains(lines[k], ActWord);
      case None =>
        UnknownTitleHasNoActWord();
  }

  /** Without an ऐन line the title is the first of the first 20 lines that
      passes the filters, or "Unknown Act" when none does. */
  lemma TitleFallback(lines: seq<string>)
    requires forall k :: 0 <= k < Min(ActScan, |lines|) ==> !Contains(lines[k], ActWord)
    ensures (exists k :: 0 <= k < Min(CandidateScan, |lines|) && TitleCandidate(lines[k])) ==>
            exists k :: 0 <= k < Min(CandidateScan, |lines|) && TitleOf(lines) == lines[k] &&
                        TitleCandidate(lines[k]) &&
                        forall m :: 0 <= m < k ==> !TitleCandidate(lines[m])
    ensures (forall k :: 0 <= k < Min(CandidateScan, |lines|) ==> !TitleCandidate(lines[k])) ==>
            TitleOf(lines) == UnknownTitle
  {
  }

  // ----- the HTML title -----

  /** `_find_title` of the HTML parser: the first two lines joined by a space,
      the single line, or "Unknown Act". */
  function HtmlTitle(lines: seq<string>): (title: string)
    ensures |lines| == 0 ==> title == UnknownTitle
    ensures |lines| >= 1 ==> title == Join(" ", lines[..Min(2, |lines|)])
  {
    if |lines| >= 2 then lines[0] + " " + lines[1]
    else if |lines| == 1 then lines[0]
    else UnknownTitle
  }

  /** When the first two lines hold no space, the HTML title splits back into
      them. */
  lemma HtmlTitleSplits(lines: seq<string>)
    requires |lines| >= 1
    requires forall k :: 0 <= k < Min(2, |lines|) ==> ' ' !in lines[k]
    ensures Split(HtmlTitle(lines), ' ') == lines[..Min(2, |lines|)]
  {
    SplitJoin(lines[..Min(2, |lines|)], ' ');
  }

  // ----- the year -----

  /** `[०-९]{4}` matches at `p`. */
  predicate DevanagariYearAt(line: string, p: nat) {
    p + 4 <= |line| && forall k :: p <= k < p + 4 ==> IsDevanagariDigit(line[k])
  }

  /** `[12][09]\d{2}` matches at `p`. */
  predicate CalendarYearAt(line: string, p: nat) {
    && p + 4 <= |line|
    && (line[p] == '1' || line[p] == '2')
    && (line[p + 1] == '0' || line[p + 1] == '9')
    && IsDecimal(line[p + 2]) && IsDecimal(line[p + 3])
  }

  /** The year pattern matches at `p`. Both alternatives match exactly four
      characters, so which one matches does not change the match. */
  predicate YearAt(line: string, p: nat) {
    DevanagariYearAt(line, p) || CalendarYearAt(line, p)
  }

  /** `re.search` from position `p`: the leftmost position where the year
      pattern matches. */
  function FirstYearAt(line: string, p: nat): (r: Option<nat>)
    ensures r.Some? ==> p <= r.value && YearAt(line, r.value)
    ensures r.Some? ==> forall q :: p <= q < r.value ==> !YearAt(line, q)
    ensures r.None? ==> forall q :: p <= q ==> !YearAt(line, q)
    decreases |line| - p
  {
    if p + 4 > |line| then None
    else if YearAt(line, p) then Some(p)
    else FirstYearAt(line, p + 1)
  }

  /** The normalised year match of one line. */
  function YearIn(line: string): Option<string> {
    match FirstYearAt(line, 0)
    case Some(p) => Some(ToAscii(line[p..p + 4]))
    case None => None
  }

  function YearFrom(lines: seq<string>, i: nat): Option<string>
    decreases |lines| - i
  {
    if i >= Min(YearScan, |lines|) then None
    else if YearIn(lines[i]).Some? then YearIn(lines[i])
    else YearFrom(lines, i + 1)
  }

  /** `_extract_year`, the same in both parsers. */
  function YearOf(lines: seq<string>): Option<string> {
    YearFrom(lines, 0)
  }

  /** `_extract_year` as the source runs it: a loop over the first five
      lines. */
  method ExtractYear(lines: seq<string>) returns (year: Option<string>)
    ensures year == YearOf(lines)
  {
    var n := Min(YearScan, |lines|);
    var i := 0;
    while i < n
      invariant 0 <= i <= n
      invariant YearFrom(lines, i) == YearOf(lines)
    {
      var line := lines[i];
      var found := FirstYearAt(line, 0);
      if found.Some? {
        var p := found.value;
        var y := NepaliToEnglishNum(line[p..p + 4]);
        return Some(y);
      }
      i := i + 1;
    }
    return None;
  }

  /** A normalised year is four decimal digits with no Devanagari digit
      left. */
  lemma YearMatchShape(line: string, p: nat)
    requires YearAt(line, p)
    ensures var y := ToAscii(line[p..p + 4]);
            |y| == 4 && NoDevanagariDigit(y) && forall k :: 0 <= k < 4 ==> IsDecimal(y[k])
  {
    var m := line[p..p + 4];
    YearMatchDecimal(line, p);
    ToAsciiPointwise(m);
    ToAsciiIdempotent(m);
    forall k | 0 <= k < 4 ensures IsDecimal(ToAscii(m)[k]) {
      NormalizeKeepsDecimal(m[k]);
    }
  }

  predicate AllDecimal(s: string) {
    forall k :: 0 <= k < |s| ==> IsDecimal(s[k])
  }

  /** The four matched characters are decimal digits. */
  lemma YearMatchDecimal(line: string, p: nat)
    requires YearAt(line, p)
    ensures AllDecimal(line[p..p + 4])
  {
    var m := line[p..p + 4];
    forall k | 0 <= k < |m| ensures IsDecimal(m[k]) {
      assert m[k] == line[p + k];
    }
  }

  lemma NormalizeKeepsDecimal(c: char)
    requires IsDecimal(c)
    ensures IsDecimal(NormalizeDigit(c))
  {
  }


  lemma {:induction false} YearFromShape(lines: seq<string>, i: nat)
    ensures YearFrom(lines, i).None? <==>
            forall k, p: nat :: i <= k < Min(YearScan, |lines|) ==> !YearAt(lines[k], p)
    ensures YearFrom(lines, i).Some? ==>
            exists k, p: nat :: i <= k < Min(YearScan, |lines|) && YearAt(lines[k], p) &&
                           YearFrom(lines, i) == Some(ToAscii(lines[k][p..p + 4]))
    decreases |lines| - i
  {
    if i < Min(YearScan, |lines|) {
      YearFromShape(lines, i + 1);
      var r := FirstYearAt(lines[i], 0);
      if r.Some? {
        assert YearAt(lines[i], r.value);
      } else {
        assert forall p :: !YearAt(lines[i], p);
      }
    }
  }

  /** The year is None exactly when none of the first five lines holds a
      match; otherwise it is the normalised match of one of them, four decimal
      digits with no Devanagari digit left. */
  lemma YearShape(lines: seq<string>)
    ensures YearOf(lines).None? <==>
            forall k, p: nat :: 0 <= k < Min(YearScan, |lines|) ==> !YearAt(lines[k], p)
    ensures YearOf(lines).Some? ==>
            var y := YearOf(lines).value;
            |y| == 4 && NoDevanagariDigit(y) && (forall k :: 0 <= k < 4 ==> IsDecimal(y[k])) &&
            exists k, p: nat :: 0 <= k < Min(YearScan, |lines|) && YearAt(lines[k], p) &&
                           y == ToAscii(lines[k][p..p + 4])
  {
    YearFromShape(lines, 0);
    if YearOf(lines).Some? {
      var k, p: nat :| 0 <= k < Min(YearScan, |lines|) && YearAt(lines[k], p) &&
                  YearOf(lines) == Some(ToAscii(lines[k][p..p + 4]));
      YearMatchShape(lines[k], p);
    }
  }

  /** The year comes from the first of the five lines that holds a match:
      no earlier line holds one. */
  lemma {:induction false} YearFromFirst(lines: seq<string>, i: nat, k: nat)
    requires i <= k < Min(YearScan, |lines|) && YearIn(lines[k]).Some?
    requires forall m :: i <= m < k ==> YearIn(lines[m]).None?
    ensures YearFrom(lines, i) == YearIn(lines[k])
    decreases k - i
  {
    if i < k {
      YearFromFirst(lines, i + 1, k);
    }
  }
}
