/**
 * The clause segmenter `detect_clauses` (`parser.py` lines 64-92).
 *
 * The content of a section is split on line feeds. Every line that
 * `clause_pattern` matches opens a new clause whose id is the normalised
 * label and whose content is the rest of the line, stripped; every other
 * line after the first opening line is appended, stripped, to the clause
 * before it with one space; lines before the first opening line are dropped.
 *
 * `Segment` states that outcome declaratively, clause by clause, over the
 * lines as the pattern reads them; `DetectClauses` is the source's loop,
 * proved to compute it.
 */
module Clauses {
  import opened Wrappers
  import opened Text
  import opened Numerals
  import opened Markers
  import opened Schema

  /** A line as the loop uses it: one that opens a clause, with the clause's
      id (the normalised label) and its first text (the rest of the line,
      stripped), or a plain line with its stripped text. */
  datatype ClauseLine = Opening(id: string, text: string) | Plain(text: string)

  function ReadLine(line: string): ClauseLine {
    match MatchClause(line)
    case Some(h) => Opening(ToAscii(h.tag), Strip(h.rest))
    case None => Plain(Strip(line))
  }

  /** A line opens a clause exactly when `clause_pattern` matches it; the id
      is then an ASCII numeral or a single enumeration letter (a Devanagari
      label such as (१) becomes "1"), and the text is the stripped end of the
      line after the label. A plain line keeps its stripped text. */
  lemma ReadLineShape(line: string)
    ensures var r := ReadLine(line);
            && (r.Opening? <==> OpensClause(line))
            && (r.Opening? ==>
                  && ((|r.id| >= 1 && AllAsciiDigits(r.id)) || (|r.id| == 1 && IsClauseLetter(r.id[0])))
                  && r.text == Strip(MatchClause(line).value.rest))
            && (r.Plain? ==> r.text == Strip(line))
  {
    MatchClauseShape(line);
    if OpensClause(line) {
      var tag := MatchClause(line).value.tag;
      if |tag| == 1 && IsClauseLetter(tag[0]) {
        assert !IsDevanagariDigit(tag[0]);
      } else {
        ToAsciiNumeral(tag);
      }
    }
  }

  function ReadLines(lines: seq<string>): (r: seq<ClauseLine>)
    ensures |r| == |lines|
  {
    if |lines| == 0 then [] else [ReadLine(lines[0])] + ReadLines(lines[1..])
  }

  lemma {:induction false} ReadLinesAt(lines: seq<string>, k: nat)
    requires k < |lines|
    ensures ReadLines(lines)[k] == ReadLine(lines[k])
  {
    if k > 0 {
      ReadLinesAt(lines[1..], k - 1);
    }
  }

  /** What the lines from `i` up to the next opening line add to the clause
      before them: a space and the stripped line, for each line. */
  function Continuation(ls: seq<ClauseLine>, i: nat): string
    requires i <= |ls|
    decreases |ls| - i
  {
    if i == |ls| || ls[i].Opening? then ""
    else " " + ls[i].text + Continuation(ls, i + 1)
  }

  /** The first opening line at or after `i`, or `|ls|` when there is none. */
  function NextOpening(ls: seq<ClauseLine>, i: nat): (j: nat)
    requires i <= |ls|
    ensures i <= j <= |ls|
    ensures forall k :: i <= k < j ==> ls[k].Plain?
    ensures j < |ls| ==> ls[j].Opening?
    decreases |ls| - i
  {
    if i == |ls| || ls[i].Opening? then i else NextOpening(ls, i + 1)
  }

  /** The clause opened by line `j`: its id, and the rest of the line
      followed by the lines that continue it. */
  function ClauseAt(ls: seq<ClauseLine>, j: nat): Clause
    requires j < |ls| && ls[j].Opening?
  {
    Clause(ls[j].id, ls[j].text + Continuation(ls, j + 1), Nepali)
  }

  /** The clauses opened at or after line `i`, in line order. */
  function ClausesFrom(ls: seq<ClauseLine>, i: nat): (r: seq<Clause>)
    requires i <= |ls|
    ensures |r| <= |ls| - i
    decreases |ls| - i
  {
    var j := NextOpening(ls, i);
    if j == |ls| then [] else [ClauseAt(ls, j)] + ClausesFrom(ls, j + 1)
  }

  /** The clauses of a section's content. */
  function Segment(content: string): seq<Clause> {
    ClausesFrom(ReadLines(Split(content, '\n')), 0)
  }

  /** The clauses still to come when the loop stands at line `i` with the
      clause `current` under construction. */
  function Pending(ls: seq<ClauseLine>, current: Option<Clause>, i: nat): seq<Clause>
    requires i <= |ls|
  {
    match current
    case None => ClausesFrom(ls, i)
    case Some(c) => [c.(content := c.content + Continuation(ls, i))] + ClausesFrom(ls, i)
  }

  /** An opening line emits the clause under construction, if any, and
      starts its own. */
  lemma PendingOpen(ls: seq<ClauseLine>, current: Option<Clause>, i: nat)
    requires i < |ls| && ls[i].Opening?
    ensures var next := Pending(ls, Some(Clause(ls[i].id, ls[i].text, Nepali)), i + 1);
            Pending(ls, current, i) == if current.Some? then [current.value] + next else next
  {
    assert NextOpening(ls, i) == i;
    if current.Some? {
      assert current.value.(content := current.value.content + "") == current.value;
    }
  }

  /** A plain line extends the clause under construction, if any, by a space
      and its text; before the first opening line it is dropped. */
  lemma PendingPlain(ls: seq<ClauseLine>, current: Option<Clause>, i: nat)
    requires i < |ls| && ls[i].Plain?
    ensures current.None? ==> Pending(ls, current, i) == Pending(ls, current, i + 1)
    ensures current.Some? ==>
              Pending(ls, current, i) ==
              Pending(ls, Some(current.value.(content := current.value.content + " " + ls[i].text)), i + 1)
  {
    assert NextOpening(ls, i) == NextOpening(ls, i + 1);
    assert ClausesFrom(ls, i) == ClausesFrom(ls, i + 1);
    if current.Some? {
      var c := current.value;
      assert Continuation(ls, i) == (" " + ls[i].text) + Continuation(ls, i + 1);
      AppendRegroup(c.content, " " + ls[i].text, Continuation(ls, i + 1));
      AppendRegroup(c.content, " ", ls[i].text);
      assert c.content + Continuation(ls, i) == (c.content + " " + ls[i].text) + Continuation(ls, i + 1);
    }
  }

  lemma AppendRegroup(a: string, b: string, c: string)
    ensures a + (b + c) == (a + b) + c
  {
  }

  lemma PendingEnd(ls: seq<ClauseLine>, current: Option<Clause>)
    ensures Pending(ls, current, |ls|) == if current.Some? then [current.value] else []
  {
    if current.Some? {
      assert current.value.(content := current.value.content + "") == current.value;
    }
  }

  /** `clause_pattern.match(lines[i])`, read as a `ClauseLine`. */
  method ReadLineAt(lines: seq<string>, i: nat) returns (m: ClauseLine)
    requires i < |lines|
    ensures m == ReadLines(lines)[i]
  {
    m := ReadLine(lines[i]);
    ReadLinesAt(lines, i);
  }

  /** One iteration of `detect_clauses`' loop, on the line read as `m`: an
      opening line emits the clause under construction and starts its own, a
      plain line extends the clause under construction. */
  method ClauseStep(ghost ls: seq<ClauseLine>, i: nat, m: ClauseLine, clauses: seq<Clause>, current: Option<Clause>)
    returns (clauses': seq<Clause>, current': Option<Clause>)
    requires i < |ls| && m == ls[i]
    ensures clauses' + Pending(ls, current', i + 1) == clauses + Pending(ls, current, i)
  {
    clauses' := clauses;
    current' := current;
    if m.Opening? {
      PendingOpen(ls, current, i);
      var next := Some(Clause(m.id, m.text, Nepali));
      if current.Some? {
        assert clauses + ([current.value] + Pending(ls, next, i + 1)) ==
               (clauses + [current.value]) + Pending(ls, next, i + 1);
        clauses' := clauses + [current.value];
      }
      current' := next;
    } else {
      PendingPlain(ls, current, i);
      if current.Some? {
        current' := Some(current.value.(content := current.value.content + " " + m.text));
      }
    }
  }

  /** `detect_clauses`. */
  method DetectClauses(content: string) returns (clauses: seq<Clause>)
    ensures clauses == Segment(content)
  {
    var lines := Split(content, '\n');
    ghost var ls := ReadLines(lines);
    clauses := [];
    var current: Option<Clause> := None;
    var i := 0;
    while i < |lines|
      invariant 0 <= i <= |lines|
      invariant clauses + Pending(ls, current, i) == ClausesFrom(ls, 0)
    {
      var m := ReadLineAt(lines, i);
      clauses, current := ClauseStep(ls, i, m, clauses, current);
      i := i + 1;
    }
    PendingEnd(ls, current);
    if current.Some? {
      clauses := clauses + [current.value];
    }
  }

  /** The indices of the opening lines at or after `i`, in increasing order. */
  function OpeningIndices(ls: seq<ClauseLine>, i: nat): (r: seq<nat>)
    requires i <= |ls|
    ensures forall n :: 0 <= n < |r| ==> i <= r[n] < |ls| && ls[r[n]].Opening?
    decreases |ls| - i
  {
    if i == |ls| then []
    else if ls[i].Opening? then [i] + OpeningIndices(ls, i + 1)
    else OpeningIndices(ls, i + 1)
  }

  predicate Increasing(r: seq<nat>) {
    forall n, m :: 0 <= n < m < |r| ==> r[n] < r[m]
  }

  /** Putting in front a number below every element keeps a sequence
      strictly increasing. */
  lemma IncreasingCons(x: nat, t: seq<nat>)
    requires Increasing(t)
    requires forall n :: 0 <= n < |t| ==> x < t[n]
    ensures Increasing([x] + t)
  {
    var r := [x] + t;
    forall n, m | 0 <= n < m < |r| ensures r[n] < r[m] {
      assert r[m] == t[m - 1];
      if n > 0 {
        assert r[n] == t[n - 1];
      }
    }
  }

  /** The opening indices are strictly increasing. */
  lemma {:induction false} OpeningIndicesIncreasing(ls: seq<ClauseLine>, i: nat)
    requires i <= |ls|
    ensures Increasing(OpeningIndices(ls, i))
    decreases |ls| - i
  {
    if i < |ls| {
      OpeningIndicesIncreasing(ls, i + 1);
      if ls[i].Opening? {
        IncreasingCons(i, OpeningIndices(ls, i + 1));
      }
    }
  }

  /** The opening indices miss no opening line. */
  lemma {:induction false} OpeningIndicesComplete(ls: seq<ClauseLine>, i: nat)
    requires i <= |ls|
    ensures forall k :: i <= k < |ls| && ls[k].Opening? ==> k in OpeningIndices(ls, i)
    decreases |ls| - i
  {
    if i < |ls| {
      OpeningIndicesComplete(ls, i + 1);
      var t := OpeningIndices(ls, i + 1);
      if ls[i].Opening? {
        assert OpeningIndices(ls, i) == [i] + t;
      }
    }
  }

  /** One clause per opening line, in line order: the n-th clause is the one
      the n-th opening line opens. */
  lemma {:induction false} ClausesFromIndexed(ls: seq<ClauseLine>, i: nat)
    requires i <= |ls|
    ensures var r := ClausesFrom(ls, i);
            var idx := OpeningIndices(ls, i);
            |r| == |idx| && forall n :: 0 <= n < |r| ==> r[n] == ClauseAt(ls, idx[n])
    decreases |ls| - i
  {
    if i < |ls| {
      ClausesFromIndexed(ls, i + 1);
      if ls[i].Plain? {
        assert NextOpening(ls, i) == NextOpening(ls, i + 1);
      } else {
        assert NextOpening(ls, i) == i;
      }
    }
  }

  /** A text without any line that opens a clause has no clauses. */
  lemma NoOpeningNoClauses(ls: seq<ClauseLine>, i: nat)
    requires i <= |ls|
    requires forall k :: i <= k < |ls| ==> ls[k].Plain?
    ensures ClausesFrom(ls, i) == []
  {
    assert NextOpening(ls, i) == |ls|;
  }

  /** Content on a single line (as the fallback pass builds it) has at most
      one clause: the line's own, when it opens one. */
  lemma SegmentSingleLine(line: string)
    requires '\n' !in line
    ensures var r := ReadLine(line);
            Segment(line) == if r.Opening? then [Clause(r.id, r.text, Nepali)] else []
  {
    SplitNoSep(line, '\n');
    assert ReadLines([line]) == [ReadLine(line)];
    ClausesFromOne(ReadLine(line));
  }

  /** A single read line yields its own clause, or none. */
  lemma ClausesFromOne(m: ClauseLine)
    ensures ClausesFrom([m], 0) == if m.Opening? then [Clause(m.id, m.text, Nepali)] else []
  {
    var ls := [m];
    if m.Opening? {
      assert NextOpening(ls, 0) == 0;
      assert ClausesFrom(ls, 1) == [];
      assert m.text + Continuation(ls, 1) == m.text;
    } else {
      assert NextOpening(ls, 0) == 1;
    }
  }


  /** Content joined from buffered lines with line feeds (as the strict pass
      builds it) is segmented line by line: the buffer is the list of lines. */
  lemma SegmentJoin(buffer: seq<string>)
    requires forall k :: 0 <= k < |buffer| ==> '\n' !in buffer[k]
    ensures Segment(Join("\n", buffer)) == ClausesFrom(ReadLines(buffer), 0)
  {
    if |buffer| == 0 {
      assert Split("", '\n') == [""];
      var ls := ReadLines([""]);
      assert ls[0] == ReadLine("");
      assert NextOpening(ls, 0) == 1;
    } else {
      SplitJoin(buffer, '\n');
    }
  }

  /** A line that starts with an enumeration letter directly followed by more
      text opens a clause labelled with that letter, whatever the text: the
      rest of the line becomes the clause's first text. */
  lemma LetterOpensClause(c: char, rest: string)
    requires IsClauseLetter(c)
    requires |rest| > 0 && !IsSpace(rest[0]) && !IsSpace(rest[|rest| - 1])
    requires !IsCloseBracket(rest[0]) && !IsClauseSeparator(rest[0])
    ensures ReadLine([c] + rest) == Opening([c], rest)
  {
    var line := [c] + rest;
    assert line[1..] == rest;
    assert TrimLeft(line) == line;
    assert LabelText(line) == line;
    assert line[..LabelLength(line)] == [c];
    assert TrimLeft(rest) == rest;
    assert AfterLabel(rest) == rest;
    StripUnchanged(rest);
    ToAsciiUnchanged([c]);
  }

  /** A text that neither starts nor ends with whitespace is its own strip. */
  lemma StripUnchanged(s: string)
    requires |s| > 0 && !IsSpace(s[0]) && !IsSpace(s[|s| - 1])
    ensures Strip(s) == s
  {
    assert TrimLeft(s) == s;
  }
}
