/** The compact line-number format: `12,3-4,7` stands for the lines 12, 15 to 19
    and 26.  The first number of a record is absolute, the others are distances,
    and `-n` adds the n lines that follow. */
module CompactFormat {
  import opened Decimal

  // ----- what a record means -----

  /** Digits and separators; each separator stands before a number, and a run has
      at least one line and is followed by a comma, if by anything. */
  predicate WellFormed(s: string) {
    && |s| > 0 && IsDigit(s[0])
    && forall i {:trigger Separator(s, i)} :: 0 <= i < |s| && !IsDigit(s[i]) ==> Separator(s, i)
  }

  predicate Separator(s: string, i: nat)
    requires i < |s|
  {
    && i + 1 < |s| && IsDigit(s[i + 1])
    && (s[i] == ',' || (s[i] == '-' && NumberAt(s, i + 1) > 0
                        && (NumberEnd(s, i + 1) < |s| ==> s[NumberEnd(s, i + 1)] == ',')))
  }

  function Range(lo: nat, hi: nat): seq<nat>
    decreases hi - lo
  {
    if hi < lo then [] else [lo] + Range(lo + 1, hi)
  }

  lemma RangeStep(lo: nat, hi: nat)
    requires lo <= hi
    ensures Range(lo, hi) == [lo] + Range(lo + 1, hi)
  {
  }

  /** The lines of one item: a number, or a run that ends with it. */
  function Head(sep: char, last: nat, n: nat): seq<nat> {
    if sep == '-' then Range(last + 1, n) else [n]
  }

  /** The lines that the rest of the record, from the separator at p on, adds to `last`. */
  function MoreLines(s: string, p: nat, last: nat): seq<nat>
    decreases |s| - p
  {
    if p >= |s| then []
    else
      var n := last + NumberAt(s, p + 1);
      Head(s[p], last, n) + MoreLines(s, NumberEnd(s, p + 1), n)
  }

  function Lines(s: string): (lines: seq<nat>)
    ensures |lines| > 0
  {
    [NumberAt(s, 0)] + MoreLines(s, NumberEnd(s, 0), NumberAt(s, 0))
  }

  /** A record with a distance, a run and another distance. */
  lemma FormatExample()
    ensures WellFormed("12,3-4,7") && Lines("12,3-4,7") == [12, 15, 16, 17, 18, 19, 26]
  {
    var s := "12,3-4,7";
    assert NumberEnd(s, 0) == 2 && NumberEnd(s, 3) == 4 && NumberEnd(s, 5) == 6 && NumberEnd(s, 7) == 8;
    assert NumberAt(s, 0) == 12 && NumberAt(s, 3) == 3 && NumberAt(s, 5) == 4 && NumberAt(s, 7) == 7;
    assert MoreLines(s, 8, 26) == [];
    assert MoreLines(s, 6, 19) == [26];
    assert Range(16, 19) == [16, 17, 18, 19];
    assert MoreLines(s, 4, 15) == [16, 17, 18, 19, 26];
    assert MoreLines(s, 2, 12) == [15, 16, 17, 18, 19, 26];
  }

  // ----- the unfolding loop of search -----

  /** Where the loop stands: at p in the record, inside a run that ends at cont if
      cont > 0, `last` being the last line produced. */
  ghost predicate At(s: string, p: nat, cont: nat, last: nat) {
    && p <= |s|
    && (p == 0 ==> cont == 0 && last == 0)
    && (p > 0 && p < |s| ==> !IsDigit(s[p]) && (cont > 0 ==> s[p] == ','))
    && (cont > 0 ==> last <= cont)
  }

  /** What is still to be produced: the rest of a run, then the rest of the record. */
  ghost function Pending(s: string, p: nat, cont: nat, last: nat): seq<nat> {
    if cont > 0 then Range(last + 1, cont) + MoreLines(s, p, cont)
    else if p == 0 then Lines(s)
    else MoreLines(s, p, last)
  }

  lemma Assoc<T>(a: seq<T>, b: seq<T>, c: seq<T>)
    ensures a + (b + c) == (a + b) + c
  {
  }

  lemma RunGoesOn(s: string, p: nat, cont: nat, last: nat)
    requires last < cont
    ensures Pending(s, p, cont, last) == [last + 1] + Pending(s, p, cont, last + 1)
  {
    Assoc([last + 1], Range(last + 2, cont), MoreLines(s, p, cont));
  }

  lemma AtSeparator(s: string, p: nat)
    requires WellFormed(s) && p < |s| && !IsDigit(s[p])
    ensures var q := NumberEnd(s, p + 1);
            && p + 1 < q <= |s| && IsDigit(s[p + 1]) && (q < |s| ==> !IsDigit(s[q]))
            && (s[p] != '-' ==> s[p] == ',')
            && (s[p] == '-' ==> NumberAt(s, p + 1) > 0 && (q < |s| ==> s[q] == ','))
  {
    assert Separator(s, p);
    NumberEnds(s, p + 1);
  }

  lemma CommaLines(s: string, p: nat, last: nat)
    requires p < |s| && s[p] != '-'
    ensures var q, n := NumberEnd(s, p + 1), last + NumberAt(s, p + 1);
            MoreLines(s, p, last) == [n] + MoreLines(s, q, n)
  {
  }

  lemma RunLines(s: string, p: nat, last: nat)
    requires p < |s| && s[p] == '-' && NumberAt(s, p + 1) > 0
    ensures var q, n := NumberEnd(s, p + 1), last + NumberAt(s, p + 1);
            MoreLines(s, p, last) == [last + 1] + (Range(last + 2, n) + MoreLines(s, q, n))
  {
    var q, n := NumberEnd(s, p + 1), last + NumberAt(s, p + 1);
    RangeStep(last + 1, n);
    Assoc([last + 1], Range(last + 2, n), MoreLines(s, q, n));
  }

  /** At the first number, */
  method FirstNumber(s: string) returns (p: nat, n: nat)
    requires WellFormed(s)
    ensures 0 < p && At(s, p, 0, n) && Lines(s) == [n] + MoreLines(s, p, n)
  {
    NumberEnds(s, 0);
    n, p := ReadNumber(s, 0);
  }

  /** at a comma, */
  method NumberAfterComma(s: string, p: nat, last: nat) returns (p': nat, n: nat)
    requires WellFormed(s) && 0 < p < |s| && !IsDigit(s[p]) && s[p] != '-'
    ensures p < p' && At(s, p', 0, n) && MoreLines(s, p, last) == [n] + MoreLines(s, p', n)
  {
    AtSeparator(s, p);
    CommaLines(s, p, last);
    n, p' := ReadNumber(s, p + 1);
    n := last + n;
  }

  /** or where a run starts. */
  method FirstOfRun(s: string, p: nat, last: nat) returns (p': nat, cont: nat)
    requires WellFormed(s) && 0 < p < |s| && s[p] == '-'
    ensures p < p' && last < cont && At(s, p', cont, last + 1)
    ensures MoreLines(s, p, last) == [last + 1] + (Range(last + 2, cont) + MoreLines(s, p', cont))
  {
    AtSeparator(s, p);
    RunLines(s, p, last);
    cont, p' := ReadNumber(s, p + 1);
    cont := last + cont;
  }

  /** The turn of the loop outside a run: the number at p, or the run that starts there. */
  method NextNumber(s: string, p: nat, last: nat) returns (p': nat, cont': nat, n: nat)
    requires WellFormed(s) && At(s, p, 0, last) && p < |s|
    ensures p < p' && At(s, p', cont', n)
    ensures Pending(s, p, 0, last) == [n] + Pending(s, p', cont', n)
  {
    cont' := 0;
    if IsDigit(s[p]) {
      p', n := FirstNumber(s);
    } else if s[p] == '-' {
      p', cont' := FirstOfRun(s, p, last);
      n := last + 1;
    } else {
      p', n := NumberAfterComma(s, p, last);
    }
  }

  /** One turn of the loop: the next line, unless a run has just ended. */
  method NextLine(s: string, p: nat, cont: nat, last: nat) returns (p': nat, cont': nat, n: nat, found: bool)
    requires WellFormed(s) && At(s, p, cont, last) && (p < |s| || cont > 0)
    ensures 0 < p' && At(s, p', cont', n)
    ensures cont == 0 ==> found && p < p'
    ensures cont > 0 ==> p' == p && if found then cont' == cont && n == last + 1 else cont' == 0
    ensures found ==> Pending(s, p, cont, last) == [n] + Pending(s, p', cont', n)
    ensures !found ==> n == last && Pending(s, p, cont, last) == Pending(s, p', cont', n)
  {
    if cont > 0 {
      p', cont', n, found := p, cont, last + 1, true;
      if n > cont {
        n, cont', found := last, 0, false;
      } else {
        RunGoesOn(s, p, cont, last);
      }
    } else {
      found := true;
      p', cont', n := NextNumber(s, p, last);
    }
  }

  method Unfold(s: string) returns (lines: seq<nat>)
    requires WellFormed(s)
    ensures lines == Lines(s)
  {
    lines := [];
    var p: nat, cont: nat, last: nat := 0, 0, 0;
    while p < |s| || cont > 0
      invariant At(s, p, cont, last)
      invariant Lines(s) == lines + Pending(s, p, cont, last)
      decreases |s| - p, if cont > 0 then cont - last + 1 else 0
    {
      var n, found;
      p, cont, n, found := NextLine(s, p, cont, last);
      if found {
        Assoc(lines, [n], Pending(s, p, cont, n));
        lines := lines + [n];
      }
      last := n;
    }
  }

  // ----- the membership test of decide_tag_by_context -----

  lemma {:induction false} InRange(lo: nat, hi: nat, n: nat)
    ensures n in Range(lo, hi) <==> lo <= n <= hi
    decreases hi - lo
  {
    if lo <= hi {
      InRange(lo + 1, hi, n);
    }
  }

  /** Whether line x is among those that the rest of the record adds to `last`. */
  predicate Reaches(s: string, p: nat, last: nat, x: nat)
    decreases |s| - p
  {
    p < |s| &&
    var n := last + NumberAt(s, p + 1);
    (if s[p] == '-' then last < x <= n else x == n) || Reaches(s, NumberEnd(s, p + 1), n, x)
  }

  lemma {:induction false} ReachesIsMembership(s: string, p: nat, last: nat, x: nat)
    ensures Reaches(s, p, last, x) <==> x in MoreLines(s, p, last)
    decreases |s| - p
  {
    if p < |s| {
      var n := last + NumberAt(s, p + 1);
      ReachesIsMembership(s, NumberEnd(s, p + 1), n, x);
      InRange(last + 1, n, x);
    }
  }

  /** Whether line x is the number at p or among those that follow it. */
  predicate Answers(s: string, p: nat, last: nat, x: nat)
    requires p < |s|
  {
    x == last + NumberAt(s, p) || Reaches(s, NumberEnd(s, p), last + NumberAt(s, p), x)
  }

  lemma {:induction false} AnswersAfterComma(s: string, p: nat, last: nat, x: nat)
    requires p + 1 < |s| && s[p] == ','
    ensures Reaches(s, p, last, x) == Answers(s, p + 1, last, x)
  {
  }

  lemma {:induction false} AnswersIsMembership(s: string, x: nat)
    requires |s| > 0
    ensures Answers(s, 0, 0, x) == (x in Lines(s))
  {
    ReachesIsMembership(s, NumberEnd(s, 0), NumberAt(s, 0), x);
  }

  /** One number and the run after it, if any, of the loop of decide_tag_by_context. */
  method TestItem(s: string, p: nat, last: nat, lineno: nat) returns (hit: bool, p': nat, last': nat)
    requires WellFormed(s) && p < |s| && IsDigit(s[p])
    ensures !hit ==> p < p' <= |s| && (p' < |s| ==> s[p'] == ',')
    ensures hit || Reaches(s, p', last', lineno) <==> Answers(s, p, last, lineno)
  {
    NumberEnds(s, p);
    hit, last' := false, last;
    var n;
    n, p' := ReadNumber(s, p);
    var cur := last' + n;
    if p' < |s| {
      AtSeparator(s, p');
    }
    if cur == lineno {
      hit := true;
      return;
    }
    last' := cur;
    if p' < |s| && s[p'] == '-' {
      n, p' := ReadNumber(s, p' + 1);
      cur := last' + n;
      if last' <= lineno <= cur {
        hit := true;
        return;
      }
      last' := cur;
    }
  }

  method Includes(s: string, lineno: nat) returns (hit: bool)
    requires WellFormed(s)
    ensures hit <==> lineno in Lines(s)
  {
    AnswersIsMembership(s, lineno);
    var p: nat, last: nat := 0, 0;
    while true
      invariant p < |s| && IsDigit(s[p])
      invariant lineno in Lines(s) <==> Answers(s, p, last, lineno)
      decreases |s| - p
    {
      hit, p, last := TestItem(s, p, last, lineno);
      if hit || p == |s| {
        return;
      }
      AtSeparator(s, p);
      AnswersAfterComma(s, p, last, lineno);
      p := p + 1;
    }
  }
}
