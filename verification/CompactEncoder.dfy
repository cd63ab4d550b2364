/** flush_pool: the sorted line numbers of one tag in one file become compact
    records, split when a record grows past a quarter of a page. */
module CompactEncoder {
  import opened Decimal
  import opened CompactFormat

  const PAGE_QUARTER := 8192 / 4

  predicate Sorted(lines: seq<nat>) {
    forall i, j :: 0 <= i <= j < |lines| ==> lines[i] <= lines[j]
  }

  function LastOf(lines: seq<nat>): nat {
    if |lines| == 0 then 0 else lines[|lines| - 1]
  }

  /** The lines without repetitions and without line 0, which does not exist. */
  function Distinct(lines: seq<nat>): seq<nat> {
    if |lines| == 0 then []
    else
      var d, n := Distinct(lines[..|lines| - 1]), lines[|lines| - 1];
      if n == LastOf(d) then d else d + [n]
  }

  lemma {:induction false} DistinctIncreases(lines: seq<nat>)
    requires Sorted(lines)
    ensures var d := Distinct(lines);
            (forall i, j :: 0 <= i < j < |d| ==> d[i] < d[j]) && (|d| > 0 ==> d[0] > 0) && LastOf(d) == LastOf(lines)
    decreases |lines|
  {
    if |lines| > 0 {
      DistinctIncreases(lines[..|lines| - 1]);
    }
  }

  lemma {:induction false} DistinctHas(lines: seq<nat>, n: nat)
    requires Sorted(lines)
    ensures n in Distinct(lines) <==> n in lines && n > 0
    decreases |lines|
  {
    if |lines| > 0 {
      var k := |lines| - 1;
      DistinctHas(lines[..k], n);
      DistinctIncreases(lines[..k]);
      assert n in lines <==> n in lines[..k] || n == lines[k];
    }
  }

  lemma DistinctMore(lines: seq<nat>, n: nat)
    requires Distinct(lines) == lines && LastOf(lines) < n
    ensures Distinct(lines + [n]) == lines + [n]
  {
    assert (lines + [n])[..|lines|] == lines;
  }

  /** Strictly increasing positive lines are stored as they are. */
  lemma {:induction false} DistinctOfIncreasing(lines: seq<nat>)
    requires forall i, j :: 0 <= i < j < |lines| ==> lines[i] < lines[j]
    requires |lines| > 0 ==> lines[0] > 0
    ensures Distinct(lines) == lines
    decreases |lines|
  {
    if |lines| > 0 {
      var before, last := lines[..|lines| - 1], lines[|lines| - 1];
      DistinctOfIncreasing(before);
      LastApart(lines);
      DistinctMore(before, last);
    }
  }

  lemma LastApart(s: seq<nat>)
    requires |s| > 0
    ensures s == s[..|s| - 1] + [s[|s| - 1]]
  {
  }

  // ----- appending to a record -----

  function EndAfter(s: string, p: nat, last: nat): nat
    decreases |s| - p
  {
    if p >= |s| then last else EndAfter(s, NumberEnd(s, p + 1), last + NumberAt(s, p + 1))
  }

  lemma EndStep(s: string, p: nat, last: nat)
    requires p < |s|
    ensures EndAfter(s, p, last) == EndAfter(s, NumberEnd(s, p + 1), last + NumberAt(s, p + 1))
  {
  }

  /** The last line of a record. */
  function End(s: string): nat {
    EndAfter(s, NumberEnd(s, 0), NumberAt(s, 0))
  }

  /** A record that does not end in a run, so that a run may be appended. */
  ghost predicate Open(s: string) {
    && WellFormed(s)
    && forall i {:trigger Separator(s, i)} :: 0 <= i < |s| && s[i] == '-' ==> NumberEnd(s, i + 1) < |s|
  }

  lemma {:induction false} ValueOfPrefix(s: string, t: string, p: nat, q: nat)
    requires q <= |s|
    ensures Value(s + t, p, q) == Value(s, p, q)
    decreases q
  {
    if p < q {
      ValueOfPrefix(s, t, p, q - 1);
    }
  }

  lemma {:induction false} NumberEndOfPrefix(s: string, t: string, p: nat)
    requires p <= |s| && (|t| > 0 ==> !IsDigit(t[0]))
    ensures NumberEnd(s + t, p) == NumberEnd(s, p)
    decreases |s| - p
  {
    if p < |s| {
      if IsDigit(s[p]) {
        NumberEndOfPrefix(s, t, p + 1);
      }
    } else if |t| > 0 {
      assert (s + t)[p] == t[0];
    }
  }

  lemma NumberOfPrefix(s: string, t: string, p: nat)
    requires p <= |s| && (|t| > 0 ==> !IsDigit(t[0]))
    ensures NumberEnd(s + t, p) == NumberEnd(s, p) && NumberAt(s + t, p) == NumberAt(s, p)
  {
    NumberEndOfPrefix(s, t, p);
    ValueOfPrefix(s, t, p, NumberEnd(s, p));
  }

  /** A comma or a hyphen and a number at the end of a record. */
  function Item(sep: char, n: nat): string {
    [sep] + Numeral(n)
  }

  lemma ItemIsRead(s: string, sep: char, n: nat)
    requires sep == ',' || sep == '-'
    ensures var r := s + Item(sep, n);
            && |s| + 1 < |r| && r[|s|] == sep && IsDigit(r[|s| + 1])
            && NumberEnd(r, |s| + 1) == |r| && NumberAt(r, |s| + 1) == n
  {
    var r := s + Item(sep, n);
    assert r == (s + [sep]) + Numeral(n) + "";
    NumeralAt(s + [sep], n, "");
  }

  lemma ItemKeepsForm(s: string, sep: char, n: nat)
    requires WellFormed(s) && (sep == ',' || (sep == '-' && n > 0 && Open(s)))
    ensures WellFormed(s + Item(sep, n)) && (sep == ',' ==> Open(s + Item(sep, n)))
  {
    var r := s + Item(sep, n);
    ItemIsRead(s, sep, n);
    NumeralIsDigits(n);
    forall i | 0 <= i < |r| && !IsDigit(r[i])
      ensures Separator(r, i) && (sep == ',' && r[i] == '-' ==> NumberEnd(r, i + 1) < |r|)
    {
      if i < |s| {
        assert Separator(s, i);
        NumberOfPrefix(s, Item(sep, n), i + 1);
        assert r[..|s|] == s;
      }
    }
  }

  /** What an appended item adds to a record that ends at line e. */
  function ItemLines(sep: char, e: nat, n: nat): seq<nat> {
    if sep == '-' then Range(e + 1, e + n) else [e + n]
  }

  /** r goes on as s up to the end of s. */
  ghost predicate Continues(s: string, r: string) {
    s <= r && (|s| < |r| ==> !IsDigit(r[|s|]))
  }

  lemma NumberContinues(s: string, r: string, p: nat)
    requires p <= |s| && Continues(s, r)
    ensures NumberEnd(r, p) == NumberEnd(s, p) && NumberAt(r, p) == NumberAt(s, p)
  {
    assert r == s + r[|s|..];
    NumberOfPrefix(s, r[|s|..], p);
  }

  lemma {:induction false} EndContinues(s: string, r: string, p: nat, last: nat)
    requires Continues(s, r) && WellFormed(s) && p <= |s| && (p < |s| ==> !IsDigit(s[p]))
    ensures EndAfter(r, p, last) == EndAfter(r, |s|, EndAfter(s, p, last))
    decreases |s| - p
  {
    if p < |s| {
      AtSeparator(s, p);
      NumberContinues(s, r, p + 1);
      EndStep(s, p, last);
      EndStep(r, p, last);
      EndContinues(s, r, NumberEnd(s, p + 1), last + NumberAt(s, p + 1));
    }
  }

  lemma ItemMovesEnd(s: string, sep: char, n: nat, p: nat, last: nat)
    requires sep == ',' || sep == '-'
    requires WellFormed(s) && p <= |s| && (p < |s| ==> !IsDigit(s[p]))
    ensures EndAfter(s + Item(sep, n), p, last) == EndAfter(s, p, last) + n
  {
    var r, e := s + Item(sep, n), EndAfter(s, p, last);
    EndContinues(s, r, p, last);
    ItemIsRead(s, sep, n);
    EndStep(r, |s|, e);
  }

  /** The items of a record from the separator at p on, folded by f. */
  function Fold<A>(f: (A, char, nat, nat) -> A, s: string, p: nat, last: nat, a: A): A
    decreases |s| - p
  {
    if p >= |s| then a
    else
      var n := last + NumberAt(s, p + 1);
      Fold(f, s, NumberEnd(s, p + 1), n, f(a, s[p], last, n))
  }

  lemma {:induction false} FoldContinues<A>(f: (A, char, nat, nat) -> A, s: string, r: string, p: nat, last: nat, a: A)
    requires Continues(s, r) && WellFormed(s) && p <= |s| && (p < |s| ==> !IsDigit(s[p]))
    ensures Fold(f, r, p, last, a) == Fold(f, r, |s|, EndAfter(s, p, last), Fold(f, s, p, last, a))
    decreases |s| - p
  {
    if p < |s| {
      AtSeparator(s, p);
      NumberContinues(s, r, p + 1);
      EndStep(s, p, last);
      var n := last + NumberAt(s, p + 1);
      FoldContinues(f, s, r, NumberEnd(s, p + 1), n, f(a, s[p], last, n));
    }
  }

  function WithHead(before: seq<nat>, sep: char, last: nat, n: nat): seq<nat> {
    before + Head(sep, last, n)
  }

  lemma {:induction false} FoldIsLines(s: string, p: nat, last: nat, before: seq<nat>)
    ensures Fold(WithHead, s, p, last, before) == before + MoreLines(s, p, last)
    decreases |s| - p
  {
    if p < |s| {
      var q, n := NumberEnd(s, p + 1), last + NumberAt(s, p + 1);
      FoldIsLines(s, q, n, before + Head(s[p], last, n));
      Assoc(before, Head(s[p], last, n), MoreLines(s, q, n));
    }
  }

  lemma FoldIsAllLines(s: string, p: nat, last: nat)
    ensures Fold(WithHead, s, p, last, []) == MoreLines(s, p, last)
  {
    FoldIsLines(s, p, last, []);
    assert [] + MoreLines(s, p, last) == MoreLines(s, p, last);
  }

  /** Text appended to a record adds its lines after those of the record. */
  lemma AppendedLines(s: string, r: string, p: nat, last: nat)
    requires Continues(s, r) && WellFormed(s) && p <= |s| && (p < |s| ==> !IsDigit(s[p]))
    ensures MoreLines(r, p, last) == MoreLines(s, p, last) + MoreLines(r, |s|, EndAfter(s, p, last))
  {
    FoldContinues(WithHead, s, r, p, last, []);
    FoldIsAllLines(r, p, last);
    FoldIsAllLines(s, p, last);
    FoldIsLines(r, |s|, EndAfter(s, p, last), MoreLines(s, p, last));
  }

  lemma ItemAddsLines(s: string, sep: char, n: nat, p: nat, last: nat)
    requires sep == ',' || sep == '-'
    requires WellFormed(s) && p <= |s| && (p < |s| ==> !IsDigit(s[p]))
    ensures MoreLines(s + Item(sep, n), p, last) == MoreLines(s, p, last) + ItemLines(sep, EndAfter(s, p, last), n)
  {
    AppendedLines(s, s + Item(sep, n), p, last);
    LastItem(s, sep, n, EndAfter(s, p, last));
  }

  lemma LastItem(s: string, sep: char, n: nat, last: nat)
    requires sep == ',' || sep == '-'
    ensures MoreLines(s + Item(sep, n), |s|, last) == ItemLines(sep, last, n)
  {
    var r := s + Item(sep, n);
    ItemIsRead(s, sep, n);
    OneItem(r, |s|, last, n);
  }

  lemma OneItem(r: string, p: nat, last: nat, n: nat)
    requires p + 1 < |r| && NumberEnd(r, p + 1) == |r| && NumberAt(r, p + 1) == n
    ensures MoreLines(r, p, last) == ItemLines(r[p], last, n)
  {
    assert MoreLines(r, |r|, last + NumberAt(r, p + 1)) == [];
  }

  lemma AppendItem(s: string, sep: char, n: nat)
    requires WellFormed(s) && (sep == ',' || (sep == '-' && n > 0 && Open(s)))
    ensures var r := s + Item(sep, n);
            && WellFormed(r) && (sep == ',' ==> Open(r)) && End(r) == End(s) + n
            && Lines(r) == Lines(s) + ItemLines(sep, End(s), n)
  {
    var r := s + Item(sep, n);
    ItemKeepsForm(s, sep, n);
    NumberEnds(s, 0);
    NumberOfPrefix(s, Item(sep, n), 0);
    ItemMovesEnd(s, sep, n, NumberEnd(s, 0), NumberAt(s, 0));
    ItemAddsLines(s, sep, n, NumberEnd(s, 0), NumberAt(s, 0));
    Assoc([NumberAt(s, 0)], MoreLines(s, NumberEnd(s, 0), NumberAt(s, 0)), ItemLines(sep, End(s), n));
  }

  /** A number alone. */
  lemma NumeralIsRead(n: nat)
    ensures var r := Numeral(n); |r| > 0 && AllDigits(r) && NumberEnd(r, 0) == |r| && NumberAt(r, 0) == n
  {
    NumeralAt("", n, "");
    assert "" + Numeral(n) + "" == "" + Numeral(n) == Numeral(n);
    NumeralIsDigits(n);
  }

  lemma DigitsAreOpen(r: string)
    requires |r| > 0 && AllDigits(r)
    ensures Open(r)
  {
  }

  lemma FirstItem(n: nat)
    ensures var r := Numeral(n); Open(r) && End(r) == n && Lines(r) == [n]
  {
    var r := Numeral(n);
    NumeralIsRead(n);
    DigitsAreOpen(r);
    assert MoreLines(r, |r|, n) == [];
  }

  // ----- the encoding loop -----

  function Flat(records: seq<string>): seq<nat> {
    if |records| == 0 then [] else Flat(records[..|records| - 1]) + Lines(records[|records| - 1])
  }

  ghost predicate AllWellFormed(records: seq<string>) {
    forall r :: r in records ==> WellFormed(r)
  }

  /** The lines `done` are in the finished records, in the record at hand and, when
      cont > 0, in the run from cont to last that is not written yet. */
  ghost predicate Encoded(records: seq<string>, body: string, cont: nat, last: nat, done: seq<nat>) {
    && AllWellFormed(records) && last == LastOf(done)
    && (|body| == 0 ==> cont == 0 && Flat(records) == done)
    && (|body| > 0 ==>
          && Open(body) && (cont > 0 ==> cont < last) && End(body) == (if cont > 0 then cont else last)
          && Flat(records) + Lines(body) + (if cont > 0 then Range(cont + 1, last) else []) == done)
  }

  /** Closing a pending run. */
  lemma RunClosed(records: seq<string>, body: string, cont: nat, last: nat, done: seq<nat>)
    requires Encoded(records, body, cont, last, done) && cont > 0
    ensures var r := body + Item('-', last - cont);
            WellFormed(r) && End(r) == last && Flat(records) + Lines(r) == done
  {
    AppendItem(body, '-', last - cont);
    Assoc(Flat(records), Lines(body), Range(cont + 1, last));
  }

  lemma NextItem(records: seq<string>, body: string, last: nat, done: seq<nat>, n: nat)
    requires AllWellFormed(records) && WellFormed(body) && End(body) == last < n
    requires Flat(records) + Lines(body) == done
    ensures Encoded(records, body + Item(',', n - last), 0, n, done + [n])
  {
    AppendItem(body, ',', n - last);
    Assoc(Flat(records), Lines(body), [n]);
  }

  lemma HeadItem(records: seq<string>, last: nat, done: seq<nat>, n: nat)
    requires Encoded(records, "", 0, last, done)
    ensures Encoded(records, Numeral(n), 0, n, done + [n])
  {
    FirstItem(n);
  }

  lemma {:induction false} RangeSnoc(lo: nat, hi: nat)
    requires lo <= hi + 1
    ensures Range(lo, hi + 1) == Range(lo, hi) + [hi + 1]
    decreases hi + 1 - lo
  {
    if lo <= hi {
      RangeSnoc(lo + 1, hi);
      Assoc([lo], Range(lo + 1, hi), [hi + 1]);
      RangeStep(lo, hi);
      RangeStep(lo, hi + 1);
    }
  }

  lemma RunGrows(records: seq<string>, body: string, cont: nat, last: nat, done: seq<nat>)
    requires Encoded(records, body, cont, last, done) && |body| > 0 && last > 0
    ensures Encoded(records, body, if cont > 0 then cont else last, last + 1, done + [last + 1])
  {
    var c := if cont > 0 then cont else last;
    RangeSnoc(c + 1, last);
    assert cont == 0 ==> Range(c + 1, last) == [];
    Assoc(Flat(records) + Lines(body), Range(c + 1, last), [last + 1]);
  }

  lemma Flushed(records: seq<string>, body: string, last: nat, done: seq<nat>)
    requires AllWellFormed(records) && WellFormed(body) && last == LastOf(done)
    requires Flat(records) + Lines(body) == done
    ensures Encoded(records + [body], "", 0, last, done)
  {
    assert (records + [body])[..|records|] == records;
  }

  /** One line of the loop body; `header` is the length of what precedes the line
      numbers in the buffer. */
  method AddLine(header: nat, records: seq<string>, body: string, cont: nat, last: nat, n: nat, ghost done: seq<nat>)
    returns (records': seq<string>, body': string, cont': nat)
    requires Encoded(records, body, cont, last, done) && last < n
    ensures Encoded(records', body', cont', n, done + [n])
  {
    if last > 0 && n == last + 1 {
      records', body', cont' := records, body, cont;
      if |body| == 0 {
        HeadItem(records, last, done, n);
        body' := Numeral(n);
      } else {
        RunGrows(records, body, cont, last, done);
        if cont == 0 {
          cont' := last;
        }
      }
    } else {
      cont' := 0;
      body' := AddItem(records, body, cont, last, n, done);
      records', body' := FlushFull(header, records, body', n, done + [n]);
    }
  }

  /** A run that is pending is written, and then the line. */
  method AddItem(records: seq<string>, body: string, cont: nat, last: nat, n: nat, ghost done: seq<nat>)
    returns (body': string)
    requires Encoded(records, body, cont, last, done) && last < n
    ensures |body'| > 0 && Encoded(records, body', 0, n, done + [n])
  {
    body' := body;
    if cont > 0 {
      RunClosed(records, body, cont, last, done);
      body' := body + ("-" + Numeral(last - cont));
    }
    if |body'| > 0 {
      NextItem(records, body', last, done, n);
      body' := body' + ("," + Numeral(n - last));
    } else {
      HeadItem(records, last, done, n);
      body' := Numeral(n);
    }
  }

  /** A record that has grown too long ends here. */
  method FlushFull(header: nat, records: seq<string>, body: string, last: nat, ghost done: seq<nat>)
    returns (records': seq<string>, body': string)
    requires |body| > 0 && Encoded(records, body, 0, last, done)
    ensures Encoded(records', body', 0, last, done)
  {
    records', body' := records, body;
    if header + |body| > PAGE_QUARTER {
      Flushed(records, body, last, done);
      records' := records + [body];
      body' := "";
    }
  }

  /** The records hold exactly the lines, in order, whatever their number and
      wherever they are split. */
  method FlushPool(header: nat, lines: seq<nat>) returns (records: seq<string>)
    requires Sorted(lines)
    ensures AllWellFormed(records)
    ensures Flat(records) == Distinct(lines)
  {
    records := [];
    var body: string, cont: nat, last: nat, i := "", 0, 0, 0;
    while i < |lines|
      invariant 0 <= i <= |lines|
      invariant Encoded(records, body, cont, last, Distinct(lines[..i]))
      invariant last == LastOf(lines[..i])
    {
      var n := lines[i];
      assert lines[..i + 1][..i] == lines[..i] && last <= n;
      if n != last {
        records, body, cont := AddLine(header, records, body, cont, last, n, Distinct(lines[..i]));
        last := n;
      }
      i := i + 1;
    }
    assert lines[..i] == lines;
    if cont > 0 {
      RunClosed(records, body, cont, last, Distinct(lines));
      body := body + ("-" + Numeral(last - cont));
    }
    if |body| > 0 {
      Flushed(records, body, last, Distinct(lines));
      records := records + [body];
    }
  }

  /** A line is reported by the membership test on some record of the tag exactly
      when it is one of the tag's lines. */
  lemma {:induction false} InFlat(records: seq<string>, n: nat)
    ensures n in Flat(records) <==> exists r :: r in records && n in Lines(r)
    decreases |records|
  {
    if |records| > 0 {
      var k := |records| - 1;
      InFlat(records[..k], n);
      assert records == records[..k] + [records[k]];
    }
  }

  /** What FlushPool stores is what the membership test finds. */
  lemma FoundIffStored(records: seq<string>, lines: seq<nat>, n: nat)
    requires Sorted(lines) && Flat(records) == Distinct(lines)
    ensures (exists r :: r in records && n in Lines(r)) <==> n in lines && n > 0
  {
    InFlat(records, n);
    DistinctHas(lines, n);
  }
}
