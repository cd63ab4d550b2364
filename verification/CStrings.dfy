/** C strings inside a buffer: text up to a NUL. */
module CStrings {
  const NUL := '\0'

  predicate NoNul(s: string) {
    forall i :: 0 <= i < |s| ==> s[i] != NUL
  }

  /** Where the C string at i ends. */
  function End(r: string, i: nat): (j: nat)
    requires i <= |r|
    ensures i <= j <= |r|
    decreases |r| - i
  {
    if i < |r| && r[i] != NUL then End(r, i + 1) else i
  }

  /** nextstring. */
  function NextString(r: string, i: nat): (j: nat)
    requires i <= |r|
    ensures j <= |r|
  {
    if End(r, i) < |r| then End(r, i) + 1 else |r|
  }

  function CString(r: string, i: nat): string
    requires i <= |r|
  {
    r[i..End(r, i)]
  }

  lemma {:induction false} EndAt(r: string, i: nat, j: nat)
    requires i <= j < |r| && r[j] == NUL && forall k :: i <= k < j ==> r[k] != NUL
    ensures End(r, i) == j
    decreases j - i
  {
    if i < j {
      EndAt(r, i + 1, j);
    }
  }

  /** Two C strings after some text are read back. */
  lemma TwoStrings(before: string, a: string, b: string)
    requires NoNul(a) && NoNul(b)
    ensures var r, i := before + a + [NUL] + b + [NUL], |before|;
            CString(r, i) == a && CString(r, NextString(r, i)) == b
  {
    var r, i := before + a + [NUL] + b + [NUL], |before|;
    forall k | i <= k < i + |a| ensures r[k] != NUL {
      assert r[k] == a[k - i];
    }
    EndAt(r, i, i + |a|);
    var j := i + |a| + 1;
    forall k | j <= k < j + |b| ensures r[k] != NUL {
      assert r[k] == b[k - j];
    }
    EndAt(r, j, j + |b|);
  }
}
