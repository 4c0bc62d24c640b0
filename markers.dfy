/**
 * Marker classification: the anchored Part/Chapter/Section patterns of the
 * strict pass, the keyword-and-digit tests of the fallback pass, and the
 * clause pattern (`parser.py` lines 26-35, `html_parser.py` lines 29-32).
 */
module Markers {
  import opened Wrappers
  import opened Text
  import opened Numerals

  /** भाग (Part) */
  const PartKeyword: string := "भाग"
  /** परिच्छेद (Chapter) */
  const ChapterKeyword: string := "परिच्छेद"
  /** दफा (Section) */
  const SectionKeyword: string := "दफा"
  /** धारा, the synonym for Section that only the fallback pass accepts */
  const SectionSynonym: string := "धारा"

  /** What a line opens. */
  datatype Marker = PartM | ChapterM | SectionM | NoneM

  /** A line as a parsing loop sees it: its text, the kind of marker it is,
      and the number `extract_number` takes from it. */
  datatype Marked = Marked(text: string, kind: Marker, number: string)

  /** How many lines from `i` on are of the given kind. */
  function CountKind(ms: seq<Marked>, i: nat, kind: Marker): nat
    requires i <= |ms|
    decreases |ms| - i
  {
    if i == |ms| then 0 else (if ms[i].kind == kind then 1 else 0) + CountKind(ms, i + 1, kind)
  }

  /** The class `[\s-]` */
  predicate IsSeparator(c: char) {
    IsSpace(c) || c == '-'
  }

  /** Drops `[\s-]*` from the start of `s`. */
  function SkipSeparators(s: string): (r: string)
    ensures |r| <= |s|
  {
    if |s| > 0 && IsSeparator(s[0]) then SkipSeparators(s[1..]) else s
  }

  /** What `SkipSeparators` drops is a run of separators and what it keeps is
      the rest of the text. */
  lemma {:induction false} SkipSeparatorsSuffix(s: string)
    ensures IsSuffix(SkipSeparators(s), s)
    ensures forall k :: 0 <= k < |s| - |SkipSeparators(s)| ==> IsSeparator(s[k])
    ensures SkipSeparators(s) == [] || !IsSeparator(SkipSeparators(s)[0])
  {
    if |s| > 0 && IsSeparator(s[0]) {
      SkipSeparatorsSuffix(s[1..]);
      forall k | 0 < k < |s| - |SkipSeparators(s)| ensures IsSeparator(s[k]) {
        assert s[k] == s[1..][k - 1];
      }
    }
  }

  /** `re.compile(keyword + r'[\s-]*[०-९0-9]+').match(line)`:
      the keyword at the start of the line, then separators, then a digit. */
  predicate AnchoredMarker(line: string, keyword: string) {
    StartsWith(line, keyword) &&
    var r := SkipSeparators(line[|keyword|..]);
    |r| > 0 && IsDigit(r[0])
  }

  /** The regular expression's own reading: the pattern matches at the start
      of `line` exactly when the keyword is followed, after nothing but
      whitespace and hyphens, by a digit. */
  lemma AnchoredMarkerIff(line: string, keyword: string)
    ensures AnchoredMarker(line, keyword) <==>
            StartsWith(line, keyword) &&
            exists k :: |keyword| <= k < |line| && IsDigit(line[k]) &&
                        forall m :: |keyword| <= m < k ==> IsSeparator(line[m])
  {
    if AnchoredMarker(line, keyword) {
      AnchoredDigit(line, keyword);
    }
    if StartsWith(line, keyword) &&
       exists k :: |keyword| <= k < |line| && IsDigit(line[k]) &&
                   forall m :: |keyword| <= m < k ==> IsSeparator(line[m]) {
      var k :| |keyword| <= k < |line| && IsDigit(line[k]) &&
               forall m :: |keyword| <= m < k ==> IsSeparator(line[m]);
      DigitAnchored(line, keyword, k);
    }
  }

  /** The digit the pattern reaches comes right after the separators. */
  lemma AnchoredDigit(line: string, keyword: string)
    requires AnchoredMarker(line, keyword)
    ensures exists k :: |keyword| <= k < |line| && IsDigit(line[k]) &&
                        forall m :: |keyword| <= m < k ==> IsSeparator(line[m])
  {
    var s := line[|keyword|..];
    var r := SkipSeparators(s);
    SkipSeparatorsSuffix(s);
    var k0 := |keyword| + |s| - |r|;
    assert line[k0] == r[0];
    forall m | |keyword| <= m < k0 ensures IsSeparator(line[m]) {
      assert line[m] == s[m - |keyword|];
    }
  }

  /** A digit reached from the keyword over separators only is where the
      pattern's separator run stops. */
  lemma DigitAnchored(line: string, keyword: string, k: nat)
    requires StartsWith(line, keyword)
    requires |keyword| <= k < |line| && IsDigit(line[k])
    requires forall m :: |keyword| <= m < k ==> IsSeparator(line[m])
    ensures AnchoredMarker(line, keyword)
  {
    var s := line[|keyword|..];
    var r := SkipSeparators(s);
    SkipSeparatorsSuffix(s);
    var k0 := |keyword| + |s| - |r|;
    assert !IsSeparator(line[k]);
    if k < k0 {
      assert false;
    }
    if k0 < k {
      assert false;
    }
    assert r[0] == line[k];
  }


  /** The strict classification of `parse`: Part, then Chapter, then
      Section, each anchored at the start of the line. */
  function Classify(line: string): Marker {
    if AnchoredMarker(line, PartKeyword) then PartM
    else if AnchoredMarker(line, ChapterKeyword) then ChapterM
    else if AnchoredMarker(line, SectionKeyword) then SectionM
    else NoneM
  }

  /** The three keywords begin with different letters, so at most one anchored
      pattern matches any line: the check order never decides anything, and
      a line is classified as a kind exactly when that kind's pattern matches. */
  lemma ClassifyExact(line: string)
    ensures Classify(line) == PartM <==> AnchoredMarker(line, PartKeyword)
    ensures Classify(line) == ChapterM <==> AnchoredMarker(line, ChapterKeyword)
    ensures Classify(line) == SectionM <==> AnchoredMarker(line, SectionKeyword)
    ensures Classify(line) == NoneM <==>
            !AnchoredMarker(line, PartKeyword) && !AnchoredMarker(line, ChapterKeyword) &&
            !AnchoredMarker(line, SectionKeyword)
  {
    if StartsWith(line, PartKeyword) {
      assert line[0] == 'भ';
    }
    if StartsWith(line, ChapterKeyword) {
      assert line[0] == 'प';
    }
    if StartsWith(line, SectionKeyword) {
      assert line[0] == 'द';
    }
  }

  /** The keyword a marker kind is matched with. */
  function KeywordOf(m: Marker): string
    requires m != NoneM
  {
    match m
    case PartM => PartKeyword
    case ChapterM => ChapterKeyword
    case SectionM => SectionKeyword
  }

  lemma {:induction false} ExtractNumberSkip(s: string, n: nat)
    requires n <= |s|
    requires forall k :: 0 <= k < n ==> !IsDigit(s[k])
    ensures ExtractNumber(s) == ExtractNumber(s[n..])
  {
    if n > 0 {
      assert s[1..][n - 1..] == s[n..];
      ExtractNumberSkip(s[1..], n - 1);
    }
  }

  lemma KeywordHasNoDigit(m: Marker)
    requires m != NoneM
    ensures forall k :: 0 <= k < |KeywordOf(m)| ==> !IsDigit(KeywordOf(m)[k])
  {
  }

  /** The number of a marker line is the digit run that follows the keyword
      and its separators, normalised; it is never empty. */
  lemma MarkerNumber(line: string)
    requires Classify(line) != NoneM
    ensures var kw := KeywordOf(Classify(line));
            var r := SkipSeparators(line[|kw|..]);
            ExtractNumber(line) == ToAscii(r[..DigitRunLength(r)]) && ExtractNumber(line) != ""
  {
    var m := Classify(line);
    var kw := KeywordOf(m);
    assert AnchoredMarker(line, kw);
    var r := SkipSeparators(line[|kw|..]);
    KeywordHasNoDigit(m);
    var n := NoDigitBeforeNumber(line, kw);
    ExtractNumberSkip(line, n);
    ExtractNumberShape(r);
    assert HasDigit(r) by {
      assert IsDigit(r[0]);
    }
  }

  /** Before the digits an anchored pattern reaches, the keyword and the
      separators hold no digit; returns where the digits start. */
  lemma NoDigitBeforeNumber(line: string, kw: string) returns (n: nat)
    requires StartsWith(line, kw)
    requires forall k :: 0 <= k < |kw| ==> !IsDigit(kw[k])
    ensures n <= |line| && line[n..] == SkipSeparators(line[|kw|..])
    ensures forall k :: 0 <= k < n ==> !IsDigit(line[k])
  {
    var s := line[|kw|..];
    var r := SkipSeparators(s);
    SkipSeparatorsSuffix(s);
    n := |line| - |r|;
    forall k | 0 <= k < n ensures !IsDigit(line[k]) {
      if k < |kw| {
        assert line[k] == kw[k];
      } else {
        assert line[k] == s[k - |kw|];
        assert IsSeparator(s[k - |kw|]);
      }
    }
  }


  /** The fallback pass's tests (`parser.py` lines 174, 203, 228): the
      keyword anywhere in the line and a character that `str.isdigit` accepts
      (or a Devanagari digit) anywhere in the line, Part
      before Chapter before Section; Section also accepts धारा. */
  function LooseClassify(line: string): Marker {
    if !HasAnyDigit(line) then NoneM
    else if Contains(line, PartKeyword) then PartM
    else if Contains(line, ChapterKeyword) then ChapterM
    else if Contains(line, SectionKeyword) || Contains(line, SectionSynonym) then SectionM
    else NoneM
  }

  /** Every line the strict pass treats as a marker is a marker for the
      fallback pass too (maybe of another kind, since a later keyword can
      outrank it there). */
  lemma StrictMarkerIsLooseMarker(line: string)
    requires Classify(line) != NoneM
    ensures LooseClassify(line) != NoneM
  {
    var kw := KeywordOf(Classify(line));
    assert AnchoredMarker(line, kw);
    AnchoredDigit(line, kw);
    var k :| |kw| <= k < |line| && IsDigit(line[k]) &&
             forall m :: |kw| <= m < k ==> IsSeparator(line[m]);
    DigitIsAnyDigit(line, k);
    StartsWithContains(line, kw);
    LooseMarkerOf(line);
  }

  /** A line with a digit and one of the keywords is a fallback marker. */
  lemma LooseMarkerOf(line: string)
    requires HasAnyDigit(line)
    requires Contains(line, PartKeyword) || Contains(line, ChapterKeyword) || Contains(line, SectionKeyword)
    ensures LooseClassify(line) != NoneM
  {
  }

  /** A digit anywhere in a line is what the fallback's digit test looks for. */
  lemma DigitIsAnyDigit(line: string, k: nat)
    requires k < |line| && IsDigit(line[k])
    ensures HasAnyDigit(line)
  {
    assert IsUnicodeDigit(line[k]);
  }

  lemma StartsWithContains(s: string, w: string)
    requires StartsWith(s, w)
    ensures Contains(s, w)
  {
  }


  // ----- the clause pattern -----

  /** `[\(（]` */
  predicate IsOpenBracket(c: char) {
    c == '(' || c == '（'
  }

  /** `[\)）]` */
  predicate IsCloseBracket(c: char) {
    c == ')' || c == '）'
  }

  /** `[:।\.]` */
  predicate IsClauseSeparator(c: char) {
    c == ':' || c == '।' || c == '.'
  }

  /** The class `[क-ज्ञa-z]`: the range क..ज (U+0915..U+091C), the virama ्,
      the letter ञ, and the Latin lower-case letters. */
  predicate IsClauseLetter(c: char) {
    ('क' <= c <= 'ज') || c == '्' || c == 'ञ' || ('a' <= c <= 'z')
  }

  predicate IsClauseLabelStart(c: char) {
    IsDigit(c) || IsClauseLetter(c)
  }

  /** A clause label: a whole run of digits, or a single enumeration letter. */
  predicate IsClauseTag(tag: string) {
    (|tag| == 1 && IsClauseLetter(tag[0])) || (|tag| >= 1 && forall k :: 0 <= k < |tag| ==> IsDigit(tag[k]))
  }

  /** A line that opens a clause: its label (`match.group(1)`) and what
      remains of the line after the whole matched prefix. */
  datatype ClauseHead = ClauseHead(tag: string, rest: string)

  /** Drops the optional `[\)）]` after a label. */
  function SkipCloseBracket(s: string): (r: string)
    ensures |r| <= |s|
  {
    if |s| > 0 && IsCloseBracket(s[0]) then s[1..] else s
  }

  /** Drops the optional `[:।\.]` after a label. */
  function SkipClauseSeparator(s: string): (r: string)
    ensures |r| <= |s|
  {
    if |s| > 0 && IsClauseSeparator(s[0]) then s[1..] else s
  }

  /** Drops `[\)）]?\s*[:।\.]?\s*` from the text after a label. */
  function AfterLabel(s: string): (r: string)
    ensures |r| <= |s|
  {
    TrimLeft(SkipClauseSeparator(TrimLeft(SkipCloseBracket(s))))
  }

  lemma AfterLabelSuffix(s: string)
    ensures IsSuffix(AfterLabel(s), s)
    ensures AfterLabel(s) == [] || !IsSpace(AfterLabel(s)[0])
  {
    var a := SkipCloseBracket(s);
    var b := TrimLeft(a);
    var c := SkipClauseSeparator(b);
    TrimLeftSuffix(a);
    TrimLeftSuffix(c);
    IsSuffixTrans(b, a, s);
    IsSuffixTrans(c, b, s);
    IsSuffixTrans(TrimLeft(c), c, s);
  }

  /** The line after `^\s*[\(（]?`: where the label must start. */
  function LabelText(line: string): (b: string)
    ensures |b| <= |line|
  {
    var a := TrimLeft(line);
    if |a| > 0 && IsOpenBracket(a[0]) then a[1..] else a
  }

  lemma LabelTextSuffix(line: string)
    ensures IsSuffix(LabelText(line), line)
  {
    var a := TrimLeft(line);
    TrimLeftSuffix(line);
    IsSuffixTrans(LabelText(line), a, line);
  }

  /** The line matches `clause_pattern`: after leading whitespace and an
      optional opening bracket comes a digit or an enumeration letter. */
  predicate OpensClause(line: string) {
    var b := LabelText(line);
    |b| > 0 && IsClauseLabelStart(b[0])
  }

  /** The length of the label at the start of `b`: the whole digit run, or one
      letter. */
  function LabelLength(b: string): (n: nat)
    requires |b| > 0
    ensures 1 <= n <= |b|
  {
    if IsDigit(b[0]) then DigitRunLength(b) else 1
  }

  /** `clause_pattern.match(line)` for
      `^\s*[\(（]?([०-९0-9]+|[क-ज्ञa-z])[\)）]?\s*[:।\.]?\s*`. Every part
      after the label is optional, so the greedy match never backtracks into
      the label: a digit label is the whole digit run. */
  function MatchClause(line: string): Option<ClauseHead> {
    var b := LabelText(line);
    if |b| > 0 && IsClauseLabelStart(b[0]) then
      var n := LabelLength(b);
      Some(ClauseHead(b[..n], AfterLabel(b[n..])))
    else None
  }

  /** The pattern matches exactly the lines that open a clause, and the
      label it captures is a digit run or one enumeration letter. */
  lemma MatchClauseShape(line: string)
    ensures var m := MatchClause(line);
            (m.Some? <==> OpensClause(line)) && (m.Some? ==> IsClauseTag(m.value.tag))
  {
    var b := LabelText(line);
    if |b| > 0 && IsClauseLabelStart(b[0]) {
      ClauseTagOf(b);
    }
  }

  /** What follows the matched prefix is the end of the line, without the
      whitespace that the pattern's trailing `\s*` consumed. */
  lemma MatchClauseRest(line: string)
    requires OpensClause(line)
    ensures IsSuffix(MatchClause(line).value.rest, line)
    ensures var rest := MatchClause(line).value.rest; rest == [] || !IsSpace(rest[0])
  {
    var b := LabelText(line);
    var t := b[LabelLength(b)..];
    LabelTextSuffix(line);
    assert IsSuffix(t, b);
    AfterLabelSuffix(t);
    IsSuffixTrans(t, b, line);
    IsSuffixTrans(AfterLabel(t), t, line);
  }

  lemma ClauseTagOf(b: string)
    requires |b| > 0 && IsClauseLabelStart(b[0])
    ensures IsClauseTag(b[..LabelLength(b)])
  {
    if IsDigit(b[0]) {
      var n := DigitRunLength(b);
      forall k | 0 <= k < n ensures IsDigit(b[..n][k]) {
        assert b[..n][k] == b[k];
      }
    } else {
      assert b[..1][0] == b[0];
    }
  }

  /** Leading whitespace ends at the first non-space character. */
  lemma {:induction false} TrimLeftAt(line: string, i: nat)
    requires i < |line| && AllSpace(line[..i]) && !IsSpace(line[i])
    ensures |line| - |TrimLeft(line)| == i
  {
    if i == 0 {
      assert TrimLeft(line) == line;
    } else {
      assert IsSpace(line[..i][0]);
      assert line[1..][..i - 1] == line[1..i];
      assert AllSpace(line[1..][..i - 1]);
      TrimLeftAt(line[1..], i - 1);
    }
  }

  /** The position of the clause label, or of the bracket before it. */
  ghost predicate ClauseStartsAt(line: string, i: int) {
    0 <= i < |line| && AllSpace(line[..i]) &&
    (IsClauseLabelStart(line[i]) ||
     (IsOpenBracket(line[i]) && i + 1 < |line| && IsClauseLabelStart(line[i + 1])))
  }

  /** A line opens a clause exactly when, after leading whitespace and at most
      one opening bracket, its next character is a digit or one of the
      enumeration letters. */
  lemma MatchClauseIff(line: string)
    ensures OpensClause(line) <==> exists i :: ClauseStartsAt(line, i)
  {
    var a := TrimLeft(line);
    TrimLeftSuffix(line);
    var i0 := |line| - |a|;
    assert a == line[i0..];
    if exists i :: ClauseStartsAt(line, i) {
      var i :| ClauseStartsAt(line, i);
      TrimLeftAt(line, i);
      assert a[0] == line[i];
      assert |a| > 1 ==> a[1] == line[i + 1];
    }
    var b := LabelText(line);
    if |b| > 0 && IsClauseLabelStart(b[0]) {
      assert |a| > 0;
      assert a[0] == line[i0];
      assert |a| > 1 ==> a[1] == line[i0 + 1];
      assert ClauseStartsAt(line, i0);
    }
  }
}
