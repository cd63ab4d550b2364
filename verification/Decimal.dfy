/** Decimal numerals as strbuf_putn writes them and the readers read them. */
module Decimal {
  predicate IsDigit(c: char) {
    '0' <= c <= '9'
  }

  predicate AllDigits(s: string) {
    forall i :: 0 <= i < |s| ==> IsDigit(s[i])
  }

  function DigitOf(n: nat): char
    requires n < 10
  {
    '0' + n as char
  }

  function Numeral(n: nat): string {
    if n < 10 then [DigitOf(n)] else Numeral(n / 10) + [DigitOf(n % 10)]
  }

  lemma {:induction false} NumeralIsDigits(n: nat)
    ensures |Numeral(n)| > 0 && AllDigits(Numeral(n))
    decreases n
  {
    if n >= 10 {
      NumeralIsDigits(n / 10);
    }
  }

  function DigitValue(c: char): nat {
    if IsDigit(c) then (c - '0') as nat else 0
  }

  /** The number written in s[p..q]. */
  function Value(s: string, p: nat, q: nat): nat
    requires q <= |s|
    decreases q
  {
    if q <= p then 0 else 10 * Value(s, p, q - 1) + DigitValue(s[q - 1])
  }

  lemma {:induction false} ValueOfNumeral(s: string, p: nat, n: nat)
    requires p + |Numeral(n)| <= |s| && s[p..p + |Numeral(n)|] == Numeral(n)
    ensures |Numeral(n)| > 0 && AllDigits(Numeral(n)) && Value(s, p, p + |Numeral(n)|) == n
    decreases n
  {
    var q := p + |Numeral(n)|;
    assert s[q - 1] == s[p..q][q - 1 - p];
    if n >= 10 {
      assert s[p..q - 1] == s[p..q][..q - 1 - p] == Numeral(n / 10);
      ValueOfNumeral(s, p, n / 10);
    }
  }

  lemma NumeralsDiffer(m: nat, n: nat)
    requires Numeral(m) == Numeral(n)
    ensures m == n
  {
    ValueOfNumeral(Numeral(m), 0, m);
    ValueOfNumeral(Numeral(n), 0, n);
  }

  /** Where the digits that start at p end. */
  function NumberEnd(s: string, p: nat): (q: nat)
    requires p <= |s|
    ensures p <= q <= |s|
    decreases |s| - p
  {
    if p < |s| && IsDigit(s[p]) then NumberEnd(s, p + 1) else p
  }

  function NumberAt(s: string, p: nat): nat
    requires p <= |s|
  {
    Value(s, p, NumberEnd(s, p))
  }

  lemma {:induction false} NumberEnds(s: string, p: nat)
    requires p <= |s|
    ensures var q := NumberEnd(s, p);
            (q < |s| ==> !IsDigit(s[q])) && (p < |s| && IsDigit(s[p]) ==> p < q)
    decreases |s| - p
  {
    if p < |s| && IsDigit(s[p]) {
      NumberEnds(s, p + 1);
    }
  }

  lemma {:induction false} NumberEndAt(s: string, p: nat, q: nat)
    requires p <= q <= |s| && (q < |s| ==> !IsDigit(s[q]))
    requires forall i :: p <= i < q ==> IsDigit(s[i])
    ensures NumberEnd(s, p) == q
    decreases q - p
  {
    if p < q {
      NumberEndAt(s, p + 1, q);
    }
  }

  /** A numeral between two pieces of text is read back as its number. */
  lemma NumeralAt(before: string, n: nat, rest: string)
    requires |rest| > 0 ==> !IsDigit(rest[0])
    ensures var s, p := before + Numeral(n) + rest, |before|;
            p < |s| && IsDigit(s[p]) && NumberEnd(s, p) == |before + Numeral(n)| && NumberAt(s, p) == n
  {
    var s, p, q := before + Numeral(n) + rest, |before|, |before + Numeral(n)|;
    assert s[p..q] == Numeral(n);
    ValueOfNumeral(s, p, n);
    forall i | p <= i < q ensures IsDigit(s[i]) {
      assert s[i] == Numeral(n)[i - p];
    }
    NumberEndAt(s, p, q);
  }

  /** The digit loop of GET_NEXT_NUMBER and NEXT_NUMBER, from position q on. */
  method ReadNumber(s: string, q: nat) returns (n: nat, p: nat)
    requires q <= |s|
    ensures p == NumberEnd(s, q) && n == NumberAt(s, q)
  {
    n, p := 0, q;
    while p < |s| && IsDigit(s[p])
      invariant q <= p <= |s| && NumberEnd(s, p) == NumberEnd(s, q)
      invariant n == Value(s, q, p)
    {
      n := n * 10 + DigitValue(s[p]);
      p := p + 1;
    }
  }
}
