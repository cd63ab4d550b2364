/** Text with some characters written as a percent sign and two hexadecimal digits: the
    two encoders, and the decoder of path names. */
module PercentEncoding {
  const PERCENT := '%'
  const BLANK := ' '
  const TAB := '\t'
  const NUL := '\0'

  /** MAXPATHLEN, the size of the buffer for paths, where the system does not define it. */
  const MAX_PATH_LEN := 1024

  datatype Option<T> = None | Some(value: T)

  /** The characters to be encoded. */
  type Special = char -> bool

  function Code(c: char): nat {
    c as nat
  }

  function HexDigit(n: nat): char
    requires n < 16
  {
    if n < 10 then '0' + n as char else 'a' + (n - 10) as char
  }

  function EncodeChar(special: Special, c: char): string
    requires Code(c) < 256
  {
    if special(c) then [PERCENT, HexDigit(Code(c) / 16), HexDigit(Code(c) % 16)] else [c]
  }

  predicate Bytes(s: string) {
    forall i :: 0 <= i < |s| ==> Code(s[i]) < 256
  }

  /** The first k characters, encoded. */
  function Encode(special: Special, s: string, k: nat): string
    requires Bytes(s) && k <= |s|
  {
    if k == 0 then [] else Encode(special, s, k - 1) + EncodeChar(special, s[k - 1])
  }

  // ----- the bounded encoder of global -----

  /** encode of global escapes what would end a word of a tag line. */
  predicate IsBlank(c: char) {
    c == PERCENT || c == BLANK || c == TAB
  }

  lemma {:induction false} EncodeGrows(special: Special, s: string, j: nat, k: nat)
    requires Bytes(s) && j <= k <= |s|
    ensures Encode(special, s, j) <= Encode(special, s, k)
    decreases k - j
  {
    if j < k {
      EncodeGrows(special, s, j, k - 1);
    }
  }

  /** No blank and no tab ends the word of a tag line. */
  predicate IsWord(s: string) {
    forall i :: 0 <= i < |s| ==> s[i] != ' ' && s[i] != '\t'
  }

  lemma HexIsWord(n: nat)
    requires n < 16
    ensures HexDigit(n) != ' ' && HexDigit(n) != '\t'
  {
  }

  /** What is encoded has no blank and no tab left. */
  lemma {:induction false} EncodedIsWord(s: string, k: nat)
    requires Bytes(s) && k <= |s|
    ensures IsWord(Encode(IsBlank, s, k))
    decreases k
  {
    if k > 0 {
      EncodedIsWord(s, k - 1);
      HexIsWord(Code(s[k - 1]) / 16);
      HexIsWord(Code(s[k - 1]) % 16);
      assert IsWord(EncodeChar(IsBlank, s[k - 1]));
    }
  }

  /** The longest prefix of s whose encoding fits in size bytes, with the NUL after it. */
  ghost predicate LongestFit(s: string, size: nat, k: nat)
    requires Bytes(s) && k <= |s|
  {
    && |Encode(IsBlank, s, k)| < size
    && forall j :: k < j <= |s| ==> |Encode(IsBlank, s, j)| >= size
  }

  lemma NoLongerFit(s: string, size: nat, k: nat)
    requires Bytes(s) && k < |s| && |Encode(IsBlank, s, k + 1)| >= size
    ensures forall j :: k < j <= |s| ==> |Encode(IsBlank, s, j)| >= size
  {
    forall j | k < j <= |s| ensures |Encode(IsBlank, s, j)| >= size {
      EncodeGrows(IsBlank, s, k + 1, j);
    }
  }

  /** The buffer holds the text, and after the place that follows it is as it was. */
  ghost predicate Holds(to: seq<char>, text: string, was: seq<char>) {
    |text| < |to| == |was| && to[..|text|] == text && to[|text| + 1..] == was[|text| + 1..]
  }

  /** snprintf of an escape, with the NUL that it writes. */
  method PutEscape(to: array<char>, e: nat, special: Special, c: char, ghost text: string, ghost was: seq<char>)
    requires e + 3 < to.Length && e == |text| && special(c) && Code(c) < 256 && Holds(to[..], text, was)
    modifies to
    ensures Holds(to[..], text + EncodeChar(special, c), was)
  {
    to[e], to[e + 1], to[e + 2], to[e + 3] := PERCENT, HexDigit(Code(c) / 16), HexDigit(Code(c) % 16), NUL;
    assert to[..e] == text;
    assert to[..e + 3] == text + EncodeChar(special, c);
    assert to[e + 4..] == was[e + 1..][3..] == was[e + 4..];
  }

  method PutChar(to: array<char>, e: nat, special: Special, c: char, ghost text: string, ghost was: seq<char>)
    requires e + 1 < to.Length && e == |text| && !special(c) && Code(c) < 256 && Holds(to[..], text, was)
    modifies to
    ensures Holds(to[..], text + EncodeChar(special, c), was)
  {
    to[e] := c;
    assert to[..e] == text;
    assert to[..e + 1] == text + [c];
    assert to[e + 2..] == was[e + 1..][1..] == was[e + 2..];
  }

  /** encode: the longest prefix that fits, encoded, with a NUL after it, and what
      follows is not touched. */
  method EncodeInto(to: array<char>, size: nat, from: string) returns (k: nat)
    requires 0 < size <= to.Length && Bytes(from)
    modifies to
    ensures k <= |from| && LongestFit(from, size, k)
    ensures Holds(to[..], Encode(IsBlank, from, k), old(to[..])) && to[|Encode(IsBlank, from, k)|] == NUL
    ensures Decode(to[..|Encode(IsBlank, from, k)|], 0) == Some(from[..k])
    ensures IsWord(to[..|Encode(IsBlank, from, k)|])
  {
    ghost var was := to[..];
    var e, left := 0, size;
    k := 0;
    while k < |from|
      invariant 0 <= k <= |from| && e == |Encode(IsBlank, from, k)| && e + left == size && left > 0
      invariant Holds(to[..], Encode(IsBlank, from, k), was)
    {
      var c := from[k];
      if c == PERCENT || c == BLANK || c == TAB {
        if left <= 3 {
          NoLongerFit(from, size, k);
          break;
        }
        PutEscape(to, e, IsBlank, c, Encode(IsBlank, from, k), was);
        e, left := e + 3, left - 3;
      } else {
        if left <= 1 {
          NoLongerFit(from, size, k);
          break;
        }
        PutChar(to, e, IsBlank, c, Encode(IsBlank, from, k), was);
        e, left := e + 1, left - 1;
      }
      k := k + 1;
    }
    PutEnd(to, e, Encode(IsBlank, from, k), was);
    CutRoundTrip(from, k);
    EncodedIsWord(from, k);
  }

  method PutEnd(to: array<char>, e: nat, ghost text: string, ghost was: seq<char>)
    requires e < to.Length && e == |text| && Holds(to[..], text, was)
    modifies to
    ensures Holds(to[..], text, was) && to[e] == NUL
  {
    to[e] := NUL;
    assert to[..e] == text && to[e + 1..] == was[e + 1..];
  }

  // ----- the decoder of path names -----

  /** What decode_path takes for a hexadecimal digit, and the number it takes it for:
      the letters count from 0 again. */
  predicate OutOfRange(c: char) {
    c < '0' || c > 'f'
  }

  function DigitValue(c: char): int {
    if c >= 'a' then c as int - 'a' as int else c as int - '0' as int
  }

  /** decode_path, from i on; none where it gives up. */
  function Decode(s: string, i: nat): Option<string>
    requires i <= |s|
    decreases |s| - i
  {
    if i == |s| then Some([])
    else if s[i] != PERCENT then Prepend(s[i], Decode(s, i + 1))
    else if i + 2 >= |s| || OutOfRange(s[i + 1]) || OutOfRange(s[i + 2]) then None
    else Prepend(Char(DigitValue(s[i + 1]) * 16 + DigitValue(s[i + 2])), Decode(s, i + 3))
  }

  function Prepend(c: char, s: Option<string>): Option<string> {
    if s.Some? then Some([c] + s.value) else None
  }

  /** A number as an unsigned char. */
  function Char(n: int): char {
    (n % 256) as char
  }

  /** The two digits of a character code are both decimal. */
  predicate DecimalCode(c: char) {
    Code(c) / 16 < 10 && Code(c) % 16 < 10
  }

  lemma DecodeDigits(c: char)
    requires Code(c) < 256
    ensures !OutOfRange(HexDigit(Code(c) / 16)) && !OutOfRange(HexDigit(Code(c) % 16))
    ensures Char(DigitValue(HexDigit(Code(c) / 16)) * 16 + DigitValue(HexDigit(Code(c) % 16))) == c <==> DecimalCode(c)
  {
  }

  function Join(a: string, s: Option<string>): Option<string> {
    if s.Some? then Some(a + s.value) else None
  }

  lemma JoinPrepend(a: string, c: char, s: Option<string>)
    ensures Join(a, Prepend(c, s)) == Join(a + [c], s)
  {
    if s.Some? {
      assert a + ([c] + s.value) == a + [c] + s.value;
    }
  }

  lemma JoinNothing(s: Option<string>)
    ensures Join([], s) == s
  {
    if s.Some? {
      assert [] + s.value == s.value;
    }
  }

  /** The loop of decode_path. */
  method DecodePath(path: string) returns (decoded: Option<string>)
    ensures decoded == Decode(path, 0)
  {
    var sb, p := "", 0;
    JoinNothing(Decode(path, 0));
    while p < |path|
      invariant 0 <= p <= |path| && Decode(path, 0) == Join(sb, Decode(path, p))
    {
      if path[p] == PERCENT {
        if p + 2 >= |path| || OutOfRange(path[p + 1]) || OutOfRange(path[p + 2]) {
          return None;
        }
        var c := Char(DigitValue(path[p + 1]) * 16 + DigitValue(path[p + 2]));
        JoinPrepend(sb, c, Decode(path, p + 3));
        sb, p := sb + [c], p + 3;
      } else {
        JoinPrepend(sb, path[p], Decode(path, p + 1));
        sb, p := sb + [path[p]], p + 1;
      }
    }
    assert sb + [] == sb;
    decoded := Some(sb);
  }

  // ----- the encoder of path names -----

  /** How many of the first k characters are encoded. */
  function Specials(special: Special, s: string, k: nat): nat
    requires k <= |s|
  {
    if k == 0 then 0 else Specials(special, s, k - 1) + if special(s[k - 1]) then 1 else 0
  }

  /** An encoded character takes three places. */
  lemma {:induction false} LengthIs(special: Special, s: string, k: nat)
    requires Bytes(s) && k <= |s|
    ensures |Encode(special, s, k)| == k + 2 * Specials(special, s, k)
    decreases k
  {
    if k > 0 {
      LengthIs(special, s, k - 1);
    }
  }

  lemma {:induction false} NothingToEncode(special: Special, s: string, k: nat)
    requires Bytes(s) && k <= |s|
    ensures Specials(special, s, k) == 0 <==> forall i :: 0 <= i < k ==> !special(s[i])
    ensures Specials(special, s, k) == 0 ==> Encode(special, s, k) == s[..k]
    decreases k
  {
    if k > 0 {
      NothingToEncode(special, s, k - 1);
      assert s[..k] == s[..k - 1] + [s[k - 1]];
    } else {
      assert s[..k] == [];
    }
  }

  /** What convert_pathname returns with a buffer of size bytes: the path as it is if no
      character is to be encoded, the encoding if it fits, and none if the loop would
      write behind the buffer. */
  function Converted(special: Special, path: string, size: nat): Option<string>
    requires Bytes(path)
  {
    if Specials(special, path, |path|) == 0 then Some(path)
    else if |Encode(special, path, |path|)| < size then Some(Encode(special, path, |path|))
    else None
  }

  /** The first loop of convert_pathname. */
  method IsRequired(special: Special, path: string) returns (required: bool)
    ensures required <==> exists i :: 0 <= i < |path| && special(path[i])
  {
    for p := 0 to |path|
      invariant forall i :: 0 <= i < p ==> !special(path[i])
    {
      if special(path[p]) {
        return true;
      }
    }
    return false;
  }

  lemma TooLong(special: Special, path: string, k: nat, size: nat)
    requires Bytes(path) && k <= |path| && |Encode(special, path, k)| >= size
    requires exists i :: 0 <= i < |path| && special(path[i])
    ensures Converted(special, path, size) == None
  {
    EncodeGrows(special, path, k, |path|);
    NothingToEncode(special, path, |path|);
  }

  /** The second loop. The code does not look for the end of the buffer: none stands for
      a write behind it. */
  method EncodePath(special: Special, path: string, buf: array<char>) returns (e: Option<nat>)
    requires buf.Length > 0 && Bytes(path) && exists i :: 0 <= i < |path| && special(path[i])
    modifies buf
    ensures e == None <==> Converted(special, path, buf.Length) == None
    ensures e.Some? ==> Holds(buf[..], Encode(special, path, |path|), old(buf[..]))
    ensures e.Some? ==> e.value == |Encode(special, path, |path|)| && buf[e.value] == NUL
  {
    ghost var was := buf[..];
    var q := 0;
    for p := 0 to |path|
      invariant q == |Encode(special, path, p)| && Holds(buf[..], Encode(special, path, p), was)
    {
      if q + |EncodeChar(special, path[p])| >= buf.Length {
        TooLong(special, path, p + 1, buf.Length);
        return None;
      }
      if special(path[p]) {
        PutEscape(buf, q, special, path[p], Encode(special, path, p), was);
        q := q + 3;
      } else {
        PutChar(buf, q, special, path[p], Encode(special, path, p), was);
        q := q + 1;
      }
    }
    PutEnd(buf, q, Encode(special, path, |path|), was);
    NothingToEncode(special, path, |path|);
    return Some(q);
  }

  /** convert_pathname: the path to be printed. */
  method ConvertPath(special: Special, path: string, buf: array<char>) returns (converted: Option<string>)
    requires buf.Length > 0 && Bytes(path)
    modifies buf
    ensures converted == Converted(special, path, buf.Length)
  {
    var required := IsRequired(special, path);
    NothingToEncode(special, path, |path|);
    if !required {
      return Some(path);
    }
    var e := EncodePath(special, path, buf);
    if e == None {
      return None;
    }
    return Some(buf[..e.value]);
  }

  // ----- when decoding undoes encoding -----

  /** What the decoder makes of an encoded character. */
  function Decoded(special: Special, c: char): char
    requires Code(c) < 256
  {
    if special(c) then Char(DigitValue(HexDigit(Code(c) / 16)) * 16 + DigitValue(HexDigit(Code(c) % 16))) else c
  }

  /** What it makes of the encoding of the characters from k on. */
  function DecodedFrom(special: Special, s: string, k: nat): Option<string>
    requires Bytes(s) && k <= |s|
    decreases |s| - k
  {
    if k == |s| then Some([]) else Prepend(Decoded(special, s[k]), DecodedFrom(special, s, k + 1))
  }

  lemma PieceIs(r: string, before: string, x: string)
    requires before + x <= r
    ensures forall j :: 0 <= j < |x| ==> r[|before| + j] == x[j]
  {
    forall j | 0 <= j < |x| ensures r[|before| + j] == x[j] {
      assert r[|before| + j] == (before + x)[|before| + j];
    }
  }

  /** Where the encoding of character k begins. */
  function Place(special: Special, s: string, k: nat): nat
    requires Bytes(s) && k <= |s|
  {
    if k == 0 then 0 else Place(special, s, k - 1) + |EncodeChar(special, s[k - 1])|
  }

  lemma {:induction false} PlaceIs(special: Special, s: string, k: nat)
    requires Bytes(s) && k <= |s|
    ensures |Encode(special, s, k)| == Place(special, s, k)
    decreases k
  {
    if k > 0 {
      PlaceIs(special, s, k - 1);
    }
  }

  /** From place i on, r is x. */
  predicate ReadsAt(r: string, i: nat, x: string) {
    i + |x| <= |r| && forall j :: 0 <= j < |x| ==> r[i + j] == x[j]
  }

  ghost predicate IsEncoding(special: Special, s: string, r: string)
    requires Bytes(s)
  {
    r == Encode(special, s, |s|)
  }

  lemma EncodedAt(special: Special, s: string, r: string, k: nat)
    requires Bytes(s) && k < |s| && IsEncoding(special, s, r)
    ensures ReadsAt(r, Place(special, s, k), EncodeChar(special, s[k]))
  {
    var before, x := Encode(special, s, k), EncodeChar(special, s[k]);
    EncodeGrows(special, s, k + 1, |s|);
    PlaceIs(special, s, k);
    PieceIs(r, before, x);
  }

  lemma DecodeNext(special: Special, s: string, r: string, k: nat)
    requires Bytes(s) && k < |s| && special(PERCENT) && IsEncoding(special, s, r)
    ensures Place(special, s, k + 1) <= |r|
    ensures Decode(r, Place(special, s, k)) == Prepend(Decoded(special, s[k]), Decode(r, Place(special, s, k + 1)))
  {
    EncodedAt(special, s, r, k);
    DecodeOne(special, r, Place(special, s, k), s[k]);
  }

  lemma {:induction false} DecodeFrom(special: Special, s: string, r: string, k: nat)
    requires Bytes(s) && k <= |s| && special(PERCENT) && IsEncoding(special, s, r)
    ensures Place(special, s, k) <= |r| && Decode(r, Place(special, s, k)) == DecodedFrom(special, s, k)
    decreases |s| - k
  {
    if k < |s| {
      DecodeFrom(special, s, r, k + 1);
      DecodeNext(special, s, r, k);
    } else {
      PlaceIs(special, s, k);
    }
  }

  lemma DecodeEncoded(special: Special, s: string)
    requires Bytes(s) && special(PERCENT)
    ensures Decode(Encode(special, s, |s|), 0) == DecodedFrom(special, s, 0)
  {
    DecodeFrom(special, s, Encode(special, s, |s|), 0);
  }

  lemma DecodeOne(special: Special, r: string, i: nat, c: char)
    requires special(PERCENT) && Code(c) < 256
    requires ReadsAt(r, i, EncodeChar(special, c))
    ensures Decode(r, i) == Prepend(Decoded(special, c), Decode(r, i + |EncodeChar(special, c)|))
  {
    var x := EncodeChar(special, c);
    assert r[i] == r[i + 0] == x[0];
    if special(c) {
      DecodeDigits(c);
      assert r[i + 1] == x[1] && r[i + 2] == x[2];
    }
  }

  lemma PrependIs(c: char, d: char, rest: Option<string>, t: string)
    ensures Prepend(d, rest) == Some([c] + t) <==> d == c && rest == Some(t)
  {
    if Prepend(d, rest) == Some([c] + t) {
      var v := [d] + rest.value;
      assert v[0] == ([c] + t)[0] && v[1..] == rest.value && ([c] + t)[1..] == t;
    }
  }

  lemma {:induction false} DecodedIs(special: Special, s: string, k: nat)
    requires Bytes(s) && k <= |s|
    ensures DecodedFrom(special, s, k) == Some(s[k..]) <==> forall i :: k <= i < |s| ==> special(s[i]) ==> DecimalCode(s[i])
    decreases |s| - k
  {
    if k < |s| {
      DecodedIs(special, s, k + 1);
      DecodeDigits(s[k]);
      assert s[k..] == [s[k]] + s[k + 1..];
      PrependIs(s[k], Decoded(special, s[k]), DecodedFrom(special, s, k + 1), s[k + 1..]);
    } else {
      assert s[k..] == [];
    }
  }

  /** decode_path undoes an encoding exactly if the code of every character that was
      encoded has two decimal digits. */
  lemma DigitsDecide(special: Special, s: string)
    requires Bytes(s) && special(PERCENT)
    ensures Decode(Encode(special, s, |s|), 0) == Some(s)
       <==> forall i :: 0 <= i < |s| ==> special(s[i]) ==> DecimalCode(s[i])
  {
    DecodeEncoded(special, s);
    DecodedIs(special, s, 0);
    assert s[0..] == s;
  }

  /** A path is printed and read back exactly if nothing was to be encoded, or if its
      length and two for every encoded character leave room for a NUL, and the code of
      every encoded character has two decimal digits. */
  lemma RoundTrip(special: Special, s: string, size: nat)
    requires Bytes(s) && special(PERCENT)
    ensures Converted(special, s, size).Some? && Decode(Converted(special, s, size).value, 0) == Some(s)
       <==> Specials(special, s, |s|) == 0
            || (&& |s| + 2 * Specials(special, s, |s|) < size
                && forall i :: 0 <= i < |s| ==> special(s[i]) ==> DecimalCode(s[i]))
  {
    DigitsDecide(special, s);
    LengthIs(special, s, |s|);
    NothingToEncode(special, s, |s|);
    assert s[..|s|] == s;
  }

  lemma {:induction false} AllSpecial(special: Special, s: string, k: nat)
    requires k <= |s| && forall i :: 0 <= i < k ==> special(s[i])
    ensures Specials(special, s, k) == k
    decreases k
  {
    if k > 0 {
      AllSpecial(special, s, k - 1);
    }
  }

  /** A path of 400 percent signs has decimal digits only, and is too long when encoded. */
  lemma PercentsDoNotFit(special: Special)
    requires special(PERCENT)
    ensures var s := seq(400, _ => PERCENT);
            && |s| < MAX_PATH_LEN && Bytes(s) && (forall i :: 0 <= i < |s| ==> DecimalCode(s[i]))
            && Converted(special, s, MAX_PATH_LEN) == None
  {
    var s := seq(400, _ => PERCENT);
    AllSpecial(special, s, |s|);
    LengthIs(special, s, |s|);
    assert Code(PERCENT) == 37;
  }

  /** Blanks, tabs and percent signs are such characters. */
  lemma BlanksRoundTrip(s: string)
    requires Bytes(s)
    ensures Decode(Encode(IsBlank, s, |s|), 0) == Some(s)
  {
    DigitsDecide(IsBlank, s);
    forall i | 0 <= i < |s| && IsBlank(s[i]) ensures DecimalCode(s[i]) {
      BlankIsDecimal(s[i]);
    }
  }

  lemma BlankIsDecimal(c: char)
    requires IsBlank(c)
    ensures DecimalCode(c)
  {
    assert Code(PERCENT) == 37 && Code(BLANK) == 32 && Code(TAB) == 9;
  }

  lemma {:induction false} EncodeOfPrefix(special: Special, s: string, k: nat, j: nat)
    requires Bytes(s) && j <= k <= |s|
    ensures Bytes(s[..k]) && Encode(special, s, j) == Encode(special, s[..k], j)
    decreases j
  {
    if j > 0 {
      EncodeOfPrefix(special, s, k, j - 1);
    }
  }

  /** What a cut buffer holds is decoded to the characters that were encoded into it. */
  lemma CutRoundTrip(s: string, k: nat)
    requires Bytes(s) && k <= |s|
    ensures Decode(Encode(IsBlank, s, k), 0) == Some(s[..k])
  {
    EncodeOfPrefix(IsBlank, s, k, k);
    BlanksRoundTrip(s[..k]);
  }

  /** The digits of an escape, and that of a blank. */
  lemma EscapeIs(n: nat)
    requires n < 16
    ensures HexDigit(n) == "0123456789abcdef"[n]
    ensures Encode(IsBlank, " ", 1) == "%20" && Decode("%20", 0) == Some(" ")
  {
    assert Encode(IsBlank, " ", 0) == [];
    DecodeEncoded(IsBlank, " ");
    assert [BLANK] + [] == " ";
  }

  /** An asterisk is not: its code is 2a in hexadecimal, and it comes back as a blank. */
  lemma AsteriskIsLost(special: Special)
    requires special(PERCENT) && special('*')
    ensures Decode(Encode(special, ['*'], 1), 0) == Some([BLANK])
  {
    DecodeEncoded(special, ['*']);
    assert [BLANK] + [] == [BLANK];
  }
}
