/**
 * Numeral normalisation (`nepali_to_english_num`, `extract_number`) shared
 * by the PDF and HTML parsers, and Python's `str(n)` for the positional
 * numbers the fallback pass and the indexer write.
 *
 * A "digit" is an ASCII digit or one of the ten Devanagari digits
 * U+0966..U+096F: that is the character class `[०-९0-9]` of the
 * source's patterns. Python's `\d` and `str.isdigit` accept more Unicode
 * digits than these; the others are not modelled.
 */
module Numerals {

  predicate IsAsciiDigit(c: char) {
    '0' <= c <= '9'
  }

  /** ० (U+0966) .. ९ (U+096F) */
  predicate IsDevanagariDigit(c: char) {
    '\U{0966}' <= c <= '\U{096F}'
  }

  predicate IsDigit(c: char) {
    IsAsciiDigit(c) || IsDevanagariDigit(c)
  }

  /** Python's `\d` (Unicode category Nd) on the scripts this model covers:
      ASCII, Devanagari, Arabic-Indic, Extended Arabic-Indic, Bengali and
      fullwidth digits. */
  predicate IsDecimal(c: char) {
    IsDigit(c) ||
    ('\U{0660}' <= c <= '\U{0669}') || ('\U{06F0}' <= c <= '\U{06F9}') ||
    ('\U{09E6}' <= c <= '\U{09EF}') || ('\U{FF10}' <= c <= '\U{FF19}')
  }

  /** Python's `str.isdigit` on one character: the decimal digits above and
      the superscripts ¹ ² ³, which are digits but not decimal. */
  predicate IsUnicodeDigit(c: char) {
    IsDecimal(c) || c == '\U{00B9}' || c == '\U{00B2}' || c == '\U{00B3}'
  }

  /** `any(c.isdigit() or '\u0966' <= c <= '\u096F' for c in s)` */
  predicate HasAnyDigit(s: string) {
    exists k :: 0 <= k < |s| && IsUnicodeDigit(s[k])
  }

  predicate AllAsciiDigits(s: string) {
    forall k :: 0 <= k < |s| ==> IsAsciiDigit(s[k])
  }

  predicate NoDevanagariDigit(s: string) {
    forall k :: 0 <= k < |s| ==> !IsDevanagariDigit(s[k])
  }

  /** A non-empty numeral of ASCII digits. */
  predicate Numeral(s: string) {
    |s| >= 1 && AllAsciiDigits(s)
  }

  predicate HasDigit(s: string) {
    exists k :: 0 <= k < |s| && IsDigit(s[k])
  }

  /** The ASCII digit with the same value as a Devanagari digit; any other
      character is returned unchanged. */
  function NormalizeDigit(c: char): (d: char)
    ensures IsDevanagariDigit(c) ==> IsAsciiDigit(d) && d as int - '0' as int == c as int - 0x0966
    ensures !IsDevanagariDigit(c) ==> d == c
  {
    if IsDevanagariDigit(c) then (c as int - 0x0966 + '0' as int) as char else c
  }

  /** The class constant NEPALI_TO_ENGLISH, in its insertion order. */
  const NepaliToEnglish: seq<(char, char)> :=
    [('०', '0'), ('१', '1'), ('२', '2'), ('३', '3'), ('४', '4'),
     ('५', '5'), ('६', '6'), ('७', '7'), ('८', '8'), ('९', '9')]

  /** `text.replace(needle, replacement)` for one-character arguments. */
  function ReplaceChar(s: string, needle: char, replacement: char): (r: string)
    ensures |r| == |s|
    ensures forall k :: 0 <= k < |s| ==> r[k] == if s[k] == needle then replacement else s[k]
  {
    if |s| == 0 then [] else [if s[0] == needle then replacement else s[0]] + ReplaceChar(s[1..], needle, replacement)
  }

  /** The loop `for nep, eng in table: text = text.replace(nep, eng)`. */
  function ReplaceAll(s: string, table: seq<(char, char)>): string
    decreases |table|
  {
    if |table| == 0 then s else ReplaceAll(ReplaceChar(s, table[0].0, table[0].1), table[1..])
  }

  /** What the replacement loop does to a single character. */
  function ReplaceAllChar(c: char, table: seq<(char, char)>): char
    decreases |table|
  {
    if |table| == 0 then c
    else ReplaceAllChar(if c == table[0].0 then table[0].1 else c, table[1..])
  }

  lemma {:induction false} ReplaceAllPointwise(s: string, table: seq<(char, char)>)
    ensures |ReplaceAll(s, table)| == |s|
    ensures forall k :: 0 <= k < |s| ==> ReplaceAll(s, table)[k] == ReplaceAllChar(s[k], table)
    decreases |table|
  {
    if |table| > 0 {
      ReplaceAllPointwise(ReplaceChar(s, table[0].0, table[0].1), table[1..]);
    }
  }

  /** `t` holds, from its first entry on, the pairs (Devanagari digit of value
      `i + n`, ASCII digit of value `i + n`). */
  predicate DigitPairsFrom(t: seq<(char, char)>, i: nat) {
    i + |t| <= 10 &&
    forall n :: 0 <= n < |t| ==>
      t[n].0 as int == 0x0966 + i + n && t[n].1 as int == '0' as int + i + n
  }

  lemma NepaliToEnglishPairs()
    ensures DigitPairsFrom(NepaliToEnglish, 0)
  {
  }

  /** Replacing by such a table maps exactly the Devanagari digits of value
      `i` up to `i + |t|`, each to its ASCII digit. */
  lemma {:induction false} ReplaceDigitPairs(c: char, t: seq<(char, char)>, i: nat)
    requires DigitPairsFrom(t, i)
    ensures ReplaceAllChar(c, t) ==
            if IsDevanagariDigit(c) && i <= c as int - 0x0966 < i + |t| then NormalizeDigit(c) else c
    decreases |t|
  {
    if |t| > 0 {
      assert DigitPairsFrom(t[1..], i + 1) by {
        forall n | 0 <= n < |t[1..]| ensures t[1..][n] == t[n + 1] { }
      }
      var c' := if c == t[0].0 then t[0].1 else c;
      ReplaceDigitPairs(c', t[1..], i + 1);
      assert t[0].0 as int == 0x0966 + i && t[0].1 as int == '0' as int + i;
      if c == t[0].0 {
        assert !IsDevanagariDigit(c') && c' == NormalizeDigit(c);
      } else {
        assert IsDevanagariDigit(c) ==> c as int - 0x0966 != i;
      }
    }
  }

  /** `nepali_to_english_num`: the ten successive replacements of the
      source's table. */
  function ToAscii(s: string): (r: string)
    ensures |r| == |s|
  {
    ReplaceAllPointwise(s, NepaliToEnglish);
    ReplaceAll(s, NepaliToEnglish)
  }

  /** `nepali_to_english_num` as the source runs it: one `replace` per entry of
      the table, in the table's order. */
  method NepaliToEnglishNum(text: string) returns (r: string)
    ensures r == ToAscii(text)
  {
    r := text;
    var i := 0;
    while i < |NepaliToEnglish|
      invariant 0 <= i <= |NepaliToEnglish|
      invariant ReplaceAll(r, NepaliToEnglish[i..]) == ReplaceAll(text, NepaliToEnglish)
    {
      var (nep, eng) := NepaliToEnglish[i];
      assert NepaliToEnglish[i..][1..] == NepaliToEnglish[i + 1..];
      r := ReplaceChar(r, nep, eng);
      i := i + 1;
    }
  }

  /** The replacements map every Devanagari digit to the ASCII digit of the
      same value and leave every other character in place. */
  lemma ToAsciiPointwise(s: string)
    ensures forall k :: 0 <= k < |s| ==> ToAscii(s)[k] == NormalizeDigit(s[k])
  {
    ReplaceAllPointwise(s, NepaliToEnglish);
    NepaliToEnglishPairs();
    forall k | 0 <= k < |s| ensures ReplaceAll(s, NepaliToEnglish)[k] == NormalizeDigit(s[k]) {
      ReplaceDigitPairs(s[k], NepaliToEnglish, 0);
    }
  }

  /** Normalising is idempotent, and its result holds no Devanagari digit. */
  lemma ToAsciiIdempotent(s: string)
    ensures NoDevanagariDigit(ToAscii(s))
    ensures ToAscii(ToAscii(s)) == ToAscii(s)
  {
    ToAsciiPointwise(s);
    ToAsciiPointwise(ToAscii(s));
  }

  /** A text without Devanagari digits (an ASCII numeral, say) comes back
      unchanged. */
  lemma ToAsciiUnchanged(s: string)
    requires NoDevanagariDigit(s)
    ensures ToAscii(s) == s
  {
    ToAsciiPointwise(s);
  }

  /** A numeral in any mix of the two scripts becomes an ASCII numeral of the
      same length whose digits have the same values. */
  lemma ToAsciiNumeral(s: string)
    requires forall k :: 0 <= k < |s| ==> IsDigit(s[k])
    ensures AllAsciiDigits(ToAscii(s)) && |ToAscii(s)| == |s|
    ensures forall k :: 0 <= k < |s| && IsDevanagariDigit(s[k]) ==>
              ToAscii(s)[k] as int - '0' as int == s[k] as int - 0x0966
  {
    ToAsciiPointwise(s);
  }

  /** The length of the run of digits at the start of `s`. */
  function DigitRunLength(s: string): (n: nat)
    ensures n <= |s|
    ensures forall k :: 0 <= k < n ==> IsDigit(s[k])
    ensures n == |s| || !IsDigit(s[n])
  {
    if |s| > 0 && IsDigit(s[0]) then 1 + DigitRunLength(s[1..]) else 0
  }

  /** `s[i..j]` is the first maximal run of digits of `s`. */
  ghost predicate IsFirstDigitRun(s: string, i: int, j: int) {
    && 0 <= i < j <= |s|
    && (forall k :: 0 <= k < i ==> !IsDigit(s[k]))
    && (forall k :: i <= k < j ==> IsDigit(s[k]))
    && (j == |s| || !IsDigit(s[j]))
  }

  /** `extract_number`: `re.search('[०-९0-9]+', text)` normalised,
      or "" when the text has no digit. */
  function ExtractNumber(s: string): (r: string)
    ensures |r| <= |s|
  {
    if |s| == 0 then ""
    else if IsDigit(s[0]) then ToAscii(s[..DigitRunLength(s)])
    else ExtractNumber(s[1..])
  }

  /** The number is an ASCII numeral, empty exactly when the text holds no
      digit. */
  lemma {:induction false} ExtractNumberShape(s: string)
    ensures AllAsciiDigits(ExtractNumber(s))
    ensures ExtractNumber(s) == "" <==> !HasDigit(s)
  {
    if |s| > 0 {
      if IsDigit(s[0]) {
        ToAsciiNumeral(s[..DigitRunLength(s)]);
      } else {
        ExtractNumberShape(s[1..]);
        if HasDigit(s) {
          var k :| 0 <= k < |s| && IsDigit(s[k]);
          assert s[1..][k - 1] == s[k];
        }
        if HasDigit(s[1..]) {
          var k :| 0 <= k < |s[1..]| && IsDigit(s[1..][k]);
          assert s[k + 1] == s[1..][k];
        }
      }
    }
  }

  lemma FirstDigitRunShift(s: string, i: int, j: int)
    requires |s| > 0 && !IsDigit(s[0]) && IsFirstDigitRun(s[1..], i, j)
    ensures IsFirstDigitRun(s, i + 1, j + 1) && s[i + 1..j + 1] == s[1..][i..j]
  {
    var t := s[1..];
    forall k | 0 <= k < i + 1 ensures !IsDigit(s[k]) {
      if k > 0 { assert s[k] == t[k - 1]; }
    }
    forall k | i + 1 <= k < j + 1 ensures IsDigit(s[k]) {
      assert s[k] == t[k - 1];
    }
    if j + 1 < |s| {
      assert s[j + 1] == t[j];
    }
    forall k | 0 <= k < j - i ensures s[i + 1..j + 1][k] == t[i..j][k] {
      assert s[i + 1 + k] == t[i + k];
    }
  }

  /** The extracted number is the normalised first maximal digit run. */
  lemma {:induction false} ExtractNumberFirstRun(s: string)
    requires HasDigit(s)
    ensures exists i, j :: IsFirstDigitRun(s, i, j) && ExtractNumber(s) == ToAscii(s[i..j])
  {
    if IsDigit(s[0]) {
      assert IsFirstDigitRun(s, 0, DigitRunLength(s));
    } else {
      var t := s[1..];
      assert HasDigit(t) by {
        var k :| 0 <= k < |s| && IsDigit(s[k]);
        assert t[k - 1] == s[k];
      }
      ExtractNumberFirstRun(t);
      var i, j :| IsFirstDigitRun(t, i, j) && ExtractNumber(t) == ToAscii(t[i..j]);
      FirstDigitRunShift(s, i, j);
      assert ExtractNumber(s) == ExtractNumber(t);
    }
  }

  /** Python's `str(n)` for a natural number. */
  function NatToString(n: nat): (r: string)
    ensures |r| >= 1 && AllAsciiDigits(r)
    decreases n
  {
    if n < 10 then [('0' as int + n) as char]
    else NatToString(n / 10) + [('0' as int + n % 10) as char]
  }

  /** The value of an ASCII decimal numeral. */
  function ParseNat(s: string): nat
    requires AllAsciiDigits(s)
  {
    if |s| == 0 then 0 else 10 * ParseNat(s[..|s| - 1]) + (s[|s| - 1] as int - '0' as int)
  }

  /** Reading back the decimal text gives the number: `str` is injective. */
  lemma {:induction false} ParseNatToString(n: nat)
    ensures ParseNat(NatToString(n)) == n
    decreases n
  {
    if n >= 10 {
      ParseNatToString(n / 10);
      var s := NatToString(n);
      assert s[..|s| - 1] == NatToString(n / 10);
    }
  }

  lemma NatToStringInjective(m: nat, n: nat)
    requires NatToString(m) == NatToString(n)
    ensures m == n
  {
    ParseNatToString(m);
    ParseNatToString(n);
  }
}
