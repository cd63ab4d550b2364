/** FILEMAP: printed by htags, split in place by its reader, sorted, and searched. */
module Filemap {
  import opened CStrings
  import opened Decimal
  import FileIndex

  const TAB := '\t'
  const CR := '\r'
  const NEWLINE := '\n'

  datatype Option<T> = None | Some(value: T)

  datatype Entry = Entry(name: string, url: string)

  predicate Without(s: string, c: char) {
    forall i :: 0 <= i < |s| ==> s[i] != c
  }

  /** What a name and a URL may hold: no NUL and no newline, no tab in a name, and no
      carriage return in a URL. */
  predicate EntryOk(e: Entry) {
    && NoNul(e.name) && Without(e.name, TAB) && Without(e.name, NEWLINE)
    && NoNul(e.url) && Without(e.url, CR) && Without(e.url, NEWLINE)
  }

  predicate EntriesOk(es: seq<Entry>) {
    forall i :: 0 <= i < |es| ==> EntryOk(es[i])
  }

  /** A line of text, with t after the name and n after the URL. */
  function Line(e: Entry, t: char, n: char): string {
    e.name + [t] + e.url + [n]
  }

  /** The first k lines. */
  function Text(es: seq<Entry>, k: nat, t: char, n: char): string
    requires k <= |es|
  {
    if k == 0 then [] else Text(es, k - 1, t, n) + Line(es[k - 1], t, n)
  }

  /** What htags prints. */
  function Printed(es: seq<Entry>, k: nat): string
    requires k <= |es|
  {
    Text(es, k, '\t', '\n')
  }

  /** The same text after the reader has divided it into C strings. */
  function Divided(es: seq<Entry>, k: nat): string
    requires k <= |es|
  {
    Text(es, k, NUL, NUL)
  }

  /** How long the first k lines are. */
  function Offset(es: seq<Entry>, k: nat): nat
    requires k <= |es|
  {
    if k == 0 then 0 else Offset(es, k - 1) + |es[k - 1].name| + 1 + |es[k - 1].url| + 1
  }

  lemma {:induction false} TextLength(es: seq<Entry>, k: nat, t: char, n: char)
    requires k <= |es|
    ensures |Text(es, k, t, n)| == Offset(es, k)
    decreases k
  {
    if k > 0 {
      TextLength(es, k - 1, t, n);
    }
  }

  /** The text is its first k lines, and then the others. */
  lemma {:induction false} TextSplits(es: seq<Entry>, k: nat, m: nat, t: char, n: char)
    requires k <= m <= |es|
    ensures Text(es, k, t, n) <= Text(es, m, t, n)
    decreases m - k
  {
    if k < m {
      TextSplits(es, k, m - 1, t, n);
    }
  }

  /** s has the text x at i. */
  predicate HasAt(s: string, i: nat, x: string) {
    i + |x| <= |s| && s[i..i + |x|] == x
  }

  lemma LineIsAt(es: seq<Entry>, k: nat, t: char, n: char)
    requires k < |es|
    ensures HasAt(Text(es, |es|, t, n), Offset(es, k), Line(es[k], t, n))
  {
    TextLength(es, k, t, n);
    TextSplits(es, k + 1, |es|, t, n);
    PieceIsAt(Text(es, |es|, t, n), Text(es, k, t, n), Line(es[k], t, n));
  }

  lemma PieceIsAt(s: string, before: string, x: string)
    requires before + x <= s
    ensures HasAt(s, |before|, x)
  {
    assert before + x == s[..|before + x|];
  }

  function NewlinesTo(s: string, k: nat): nat
    requires k <= |s|
  {
    if k == 0 then 0 else NewlinesTo(s, k - 1) + if s[k - 1] == NEWLINE then 1 else 0
  }

  lemma {:induction false} NoNewlines(s: string, i: nat, k: nat)
    requires i <= k <= |s| && forall j :: i <= j < k ==> s[j] != NEWLINE
    ensures NewlinesTo(s, k) == NewlinesTo(s, i)
    decreases k - i
  {
    if i < k {
      NoNewlines(s, i, k - 1);
    }
  }

  /** The number of newlines is the number of lines. */
  lemma {:induction false} NewlinesAre(es: seq<Entry>, all: string, k: nat)
    requires EntriesOk(es) && k <= |es| && all == Printed(es, |es|)
    ensures Offset(es, k) <= |all| && NewlinesTo(all, Offset(es, k)) == k
    decreases k
  {
    if k > 0 {
      NewlinesAre(es, all, k - 1);
      LineIsAt(es, k - 1, TAB, NEWLINE);
      NewlinesOfLine(all, Offset(es, k - 1), es[k - 1]);
    }
  }

  lemma NewlinesOfLine(s: string, i: nat, e: Entry)
    requires EntryOk(e) && HasAt(s, i, Line(e, TAB, NEWLINE))
    ensures NewlinesTo(s, i + |Line(e, TAB, NEWLINE)|) == NewlinesTo(s, i) + 1
  {
    var line := Line(e, TAB, NEWLINE);
    var j := i + |line| - 1;
    forall x | i <= x < j ensures s[x] != NEWLINE {
      assert s[x] == s[i..i + |line|][x - i] == line[x - i];
    }
    NoNewlines(s, i, j);
    assert s[j] == s[i..i + |line|][j - i] == NEWLINE;
  }

  // ----- the reader -----

  /** A line of the index: where the name and the path are in the buffer. */
  datatype Map = Map(name: nat, path: nat)

  /** The entry that a line of the index stands for. */
  function EntryAt(r: string, m: Map): Entry
    requires m.name <= |r| && m.path <= |r|
  {
    Entry(CString(r, m.name), CString(r, m.path))
  }

  /** The buffer when the first k lines have been divided, and the rest is as printed. */
  ghost predicate DividedTo(r: string, es: seq<Entry>, k: nat)
    requires k <= |es|
  {
    && Offset(es, k) <= |r| == |Printed(es, |es|)|
    && r[..Offset(es, k)] == Divided(es, k)
    && r[Offset(es, k)..] == Printed(es, |es|)[Offset(es, k)..]
  }

  lemma PieceHas(s: string, i: nat, x: string)
    requires HasAt(s, i, x)
    ensures forall j :: i <= j < i + |x| ==> s[j] == x[j - i]
  {
    forall j | i <= j < i + |x| ensures s[j] == x[j - i] {
      assert s[j] == s[i..i + |x|][j - i];
    }
  }

  /** Skip the n characters at p, which are none of the stopping ones. */
  method Skip(area: array<char>, p: nat, stop: char, stop': char, ghost n: nat) returns (q: nat)
    requires p + n < area.Length && (area[p + n] == stop || area[p + n] == stop')
    requires forall j :: p <= j < p + n ==> area[j] != NUL && area[j] != stop && area[j] != stop'
    ensures q == p + n
  {
    q := p;
    while area[q] != NUL && area[q] != stop && area[q] != stop'
      invariant p <= q <= p + n
      decreases p + n - q
    {
      q := q + 1;
    }
  }

  /** Two NULs make a line of the printed text a divided one. */
  lemma LineDivided(was: string, p: nat, e: Entry)
    requires HasAt(was, p, Line(e, TAB, NEWLINE))
    ensures var u, q := p + |e.name| + 1, p + |Line(e, NUL, NUL)|;
            q <= |was| && was[u - 1 := NUL][q - 1 := NUL] == was[..p] + Line(e, NUL, NUL) + was[q..]
  {
    var u, q := p + |e.name| + 1, p + |Line(e, NUL, NUL)|;
    PieceHas(was, p, Line(e, TAB, NEWLINE));
    var now, line := was[u - 1 := NUL][q - 1 := NUL], Line(e, NUL, NUL);
    forall j | p <= j < q ensures now[j] == line[j - p] {
      assert was[j] == Line(e, TAB, NEWLINE)[j - p];
    }
    assert now[..p] == was[..p] && now[p..q] == line && now[q..] == was[q..];
    ThreeParts(now, p, q);
  }

  lemma ThreeParts(s: string, p: nat, q: nat)
    requires p <= q <= |s|
    ensures s == s[..p] + s[p..q] + s[q..]
  {
  }

  /** Where the parts of a printed line are. */
  lemma LineParts(s: string, p: nat, e: Entry)
    requires HasAt(s, p, Line(e, TAB, NEWLINE))
    ensures var u, q := p + |e.name| + 1, p + |Line(e, NUL, NUL)|;
            && q <= |s| && s[u - 1] == TAB && s[q - 1] == NEWLINE
            && (forall j :: p <= j < u - 1 ==> s[j] == e.name[j - p])
            && (forall j :: u <= j < q - 1 ==> s[j] == e.url[j - u])
  {
    PieceHas(s, p, Line(e, TAB, NEWLINE));
  }

  /** One line: put a NUL after the name and after the URL. */
  method SplitLine(area: array<char>, p: nat, ghost e: Entry) returns (m: Map, q: nat)
    requires EntryOk(e) && HasAt(area[..], p, Line(e, TAB, NEWLINE))
    modifies area
    ensures q == p + |Line(e, NUL, NUL)| <= area.Length && m == Map(p, p + |e.name| + 1)
    ensures area[..] == old(area[..p]) + Line(e, NUL, NUL) + old(area[q..])
  {
    ghost var was := area[..];
    LineParts(was, p, e);
    LineDivided(was, p, e);
    q := SplitName(area, p, e);
    m := Map(p, q);
    q := SplitUrl(area, q, e);
    assert area[..] == was[p + |e.name| := NUL][q - 1 := NUL];
  }

  method SplitName(area: array<char>, p: nat, ghost e: Entry) returns (q: nat)
    requires EntryOk(e) && p + |e.name| < area.Length && area[p + |e.name|] == TAB
    requires forall j :: p <= j < p + |e.name| ==> area[j] == e.name[j - p]
    modifies area
    ensures q == p + |e.name| + 1 && area[..] == old(area[..])[p + |e.name| := NUL]
  {
    q := Skip(area, p, TAB, TAB, |e.name|);
    area[q] := NUL;
    q := q + 1;
  }

  method SplitUrl(area: array<char>, u: nat, ghost e: Entry) returns (q: nat)
    requires EntryOk(e) && u + |e.url| < area.Length && area[u + |e.url|] == NEWLINE
    requires forall j :: u <= j < u + |e.url| ==> area[j] == e.url[j - u]
    modifies area
    ensures q == u + |e.url| + 1 && area[..] == old(area[..])[u + |e.url| := NUL]
  {
    q := Skip(area, u, CR, NEWLINE, |e.url|);
    if area[q] == CR {
      assert false;
    }
    if area[q] == NEWLINE {
      area[q] := NUL;
      q := q + 1;
    }
  }

  /** Where the reader finds the line k. */
  function MapOf(es: seq<Entry>, k: nat): Map
    requires k < |es|
  {
    Map(Offset(es, k), Offset(es, k) + |es[k].name| + 1)
  }

  /** The index of the first k lines, before it is sorted. */
  function FileOrder(es: seq<Entry>, k: nat): seq<Map>
    requires k <= |es|
  {
    if k == 0 then [] else FileOrder(es, k - 1) + [MapOf(es, k - 1)]
  }

  lemma {:induction false} InFileOrder(es: seq<Entry>, n: nat, m: Map) returns (k: nat)
    requires n <= |es| && m in FileOrder(es, n)
    ensures k < n && m == MapOf(es, k)
    decreases n
  {
    k := n - 1;
    if m != MapOf(es, n - 1) {
      k := InFileOrder(es, n - 1, m);
    }
  }

  lemma {:induction false} FileOrderHas(es: seq<Entry>, n: nat, k: nat)
    requires k < n <= |es|
    ensures MapOf(es, k) in FileOrder(es, n)
    decreases n
  {
    if k < n - 1 {
      FileOrderHas(es, n - 1, k);
      assert MapOf(es, k) in FileOrder(es, n - 1);
    } else {
      assert FileOrder(es, n)[|FileOrder(es, n)| - 1] == MapOf(es, k);
    }
  }

  /** The name and the path of a line are read back as C strings. */
  lemma ReadBack(es: seq<Entry>, k: nat)
    requires EntriesOk(es) && k < |es|
    ensures var r, m := Divided(es, |es|), MapOf(es, k);
            m.name <= |r| && m.path <= |r| && EntryAt(r, m) == es[k]
  {
    LineIsAt(es, k, NUL, NUL);
    LineReadBack(Divided(es, |es|), Offset(es, k), es[k]);
  }

  lemma LineReadBack(r: string, i: nat, e: Entry)
    requires EntryOk(e) && HasAt(r, i, Line(e, NUL, NUL))
    ensures i + |e.name| + 1 <= |r| && EntryAt(r, Map(i, i + |e.name| + 1)) == e
  {
    var u := i + |e.name| + 1;
    PieceHas(r, i, Line(e, NUL, NUL));
    StringAt(r, i, e.name);
    StringAt(r, u, e.url);
  }

  lemma StringAt(r: string, i: nat, x: string)
    requires NoNul(x) && i + |x| < |r| && r[i + |x|] == NUL && forall j :: i <= j < i + |x| ==> r[j] == x[j - i]
    ensures CString(r, i) == x
  {
    EndAt(r, i, i + |x|);
  }

  lemma Parted(before: string, x: string, after: string)
    ensures (before + x + after)[..|before + x|] == before + x
    ensures (before + x + after)[|before + x|..] == after
  {
  }

  lemma DropMore(s: string, p: nat, q: nat)
    requires p <= q <= |s|
    ensures s[q..] == s[p..][q - p..]
  {
  }

  /** After a line has been divided, one more line is. */
  lemma DividedMore(r: string, es: seq<Entry>, k: nat)
    requires k < |es| && DividedTo(r, es, k)
    requires Offset(es, k) + |Line(es[k], NUL, NUL)| <= |r|
    ensures var p, line := Offset(es, k), Line(es[k], NUL, NUL);
            DividedTo(r[..p] + line + r[p + |line|..], es, k + 1)
  {
    var p, q := Offset(es, k), Offset(es, k + 1);
    Parted(r[..p], Line(es[k], NUL, NUL), r[q..]);
    DropMore(r, p, q);
    DropMore(Printed(es, |es|), p, q);
  }

  lemma LineIsNext(r: string, es: seq<Entry>, k: nat)
    requires k < |es| && DividedTo(r, es, k)
    ensures HasAt(r, Offset(es, k), Line(es[k], TAB, NEWLINE))
  {
    LineIsAt(es, k, TAB, NEWLINE);
    var p, line, all := Offset(es, k), Line(es[k], TAB, NEWLINE), Printed(es, |es|);
    assert r[p..p + |line|] == r[p..][..|line|] == all[p..][..|line|] == all[p..p + |line|];
  }

  method CountLines(area: array<char>, ghost es: seq<Entry>) returns (n: nat)
    requires EntriesOk(es) && area[..] == Printed(es, |es|)
    ensures n == |es|
  {
    n := 0;
    for p := 0 to area.Length
      invariant n == NewlinesTo(area[..], p)
    {
      if area[p] == NEWLINE {
        n := n + 1;
      }
    }
    NewlinesAre(es, area[..], |es|);
    TextLength(es, |es|, TAB, NEWLINE);
  }

  /** create_filemap_index, before it sorts: count the lines, and divide them. */
  method Split(area: array<char>, ghost es: seq<Entry>) returns (m: seq<Map>)
    requires EntriesOk(es) && area[..] == Printed(es, |es|)
    modifies area
    ensures area[..] == Divided(es, |es|)
    ensures m == FileOrder(es, |es|)
  {
    var n := CountLines(area, es);
    TextLength(es, |es|, TAB, NEWLINE);
    m := [];
    var p := 0;
    for i := 0 to n
      invariant DividedTo(area[..], es, i) && p == Offset(es, i)
      invariant m == FileOrder(es, i)
    {
      LineIsNext(area[..], es, i);
      ghost var r := area[..];
      var line;
      line, p := SplitLine(area, p, es[i]);
      DividedMore(r, es, i);
      m := m + [line];
    }
  }

  // ----- order and search -----

  lemma {:induction false} LeTotal(a: string, b: string)
    ensures FileIndex.Le(a, b) || FileIndex.Le(b, a)
    ensures FileIndex.Le(a, b) && FileIndex.Le(b, a) ==> a == b
    decreases |a|
  {
    if a != [] && b != [] {
      LeTotal(a[1..], b[1..]);
      assert a == [a[0]] + a[1..] && b == [b[0]] + b[1..];
    }
  }

  lemma {:induction false} LeTransitive(a: string, b: string, c: string)
    requires FileIndex.Le(a, b) && FileIndex.Le(b, c)
    ensures FileIndex.Le(a, c)
    decreases |a|
  {
    if a != [] && a[0] == b[0] == c[0] {
      LeTransitive(a[1..], b[1..], c[1..]);
    }
  }

  /** The name of a line of the index. */
  function NameAt(r: string, m: Map): string {
    if m.name <= |r| then CString(r, m.name) else []
  }

  /** The index as bsearch needs it. */
  ghost predicate Sorted(r: string, m: seq<Map>) {
    forall i, j :: 0 <= i < j < |m| ==> FileIndex.Le(NameAt(r, m[i]), NameAt(r, m[j]))
  }

  ghost predicate DistinctNames(es: seq<Entry>) {
    forall i, j :: 0 <= i < j < |es| ==> es[i].name != es[j].name
  }

  /** What loading FILEMAP leaves: the divided buffer, and an index of its lines that
      qsort has put in the order of their names. */
  ghost predicate Loaded(r: string, m: seq<Map>, es: seq<Entry>) {
    EntriesOk(es) && r == Divided(es, |es|) && Sorted(r, m) && multiset(m) == multiset(FileOrder(es, |es|))
  }

  /** A line put where those before it come no later and those after it no earlier. */
  lemma InsertKeepsOrder(r: string, m: seq<Map>, x: Map, k: nat)
    requires Sorted(r, m) && k <= |m|
    requires forall i :: 0 <= i < k ==> FileIndex.Le(NameAt(r, m[i]), NameAt(r, x))
    requires forall i :: k <= i < |m| ==> FileIndex.Le(NameAt(r, x), NameAt(r, m[i]))
    ensures Sorted(r, m[..k] + [x] + m[k..])
  {
  }

  /** Where a line belongs among sorted ones. */
  method FindPlace(area: array<char>, m: seq<Map>, x: Map) returns (k: nat)
    requires Sorted(area[..], m)
    ensures k <= |m|
    ensures forall i :: 0 <= i < k ==> FileIndex.Le(NameAt(area[..], m[i]), NameAt(area[..], x))
    ensures forall i :: k <= i < |m| ==> FileIndex.Le(NameAt(area[..], x), NameAt(area[..], m[i]))
  {
    k := 0;
    var name := NameAt(area[..], x);
    while k < |m| && !FileIndex.Le(name, NameAt(area[..], m[k]))
      invariant 0 <= k <= |m|
      invariant forall i :: 0 <= i < k ==> FileIndex.Le(NameAt(area[..], m[i]), name)
    {
      LeTotal(name, NameAt(area[..], m[k]));
      k := k + 1;
    }
    NotLater(area[..], m, k, name);
  }

  lemma NotLater(r: string, m: seq<Map>, k: nat, name: string)
    requires Sorted(r, m) && k <= |m| && (k < |m| ==> FileIndex.Le(name, NameAt(r, m[k])))
    ensures forall i :: k <= i < |m| ==> FileIndex.Le(name, NameAt(r, m[i]))
  {
    forall i | k < i < |m| ensures FileIndex.Le(name, NameAt(r, m[i])) {
      LeTransitive(name, NameAt(r, m[k]), NameAt(r, m[i]));
    }
  }

  method Insert(area: array<char>, m: seq<Map>, x: Map) returns (m': seq<Map>)
    requires Sorted(area[..], m)
    ensures Sorted(area[..], m') && multiset(m') == multiset(m) + multiset{x}
  {
    var k := FindPlace(area, m, x);
    InsertKeepsOrder(area[..], m, x, k);
    assert m == m[..k] + m[k..];
    m' := m[..k] + [x] + m[k..];
  }

  /** qsort with strcmp on the names. */
  method Sort(area: array<char>, m: seq<Map>) returns (m': seq<Map>)
    ensures Sorted(area[..], m') && multiset(m') == multiset(m)
  {
    m' := [];
    for i := 0 to |m|
      invariant Sorted(area[..], m') && multiset(m') == multiset(m[..i])
    {
      m' := Insert(area, m', m[i]);
      assert m[..i + 1] == m[..i] + [m[i]];
    }
    assert m[..|m|] == m;
  }

  /** create_filemap_index. */
  method Load(area: array<char>, ghost es: seq<Entry>) returns (m: seq<Map>)
    requires EntriesOk(es) && area[..] == Printed(es, |es|)
    modifies area
    ensures Loaded(area[..], m, es)
  {
    m := Split(area, es);
    m := Sort(area, m);
  }

  /** bsearch with strcmp. */
  method Search(area: array<char>, m: seq<Map>, path: string) returns (found: Option<nat>)
    requires Sorted(area[..], m)
    ensures found.Some? ==> found.value < |m| && NameAt(area[..], m[found.value]) == path
    ensures found == None ==> forall i :: 0 <= i < |m| ==> NameAt(area[..], m[i]) != path
  {
    var lo, hi := 0, |m|;
    while lo < hi
      invariant 0 <= lo <= hi <= |m|
      invariant forall i :: 0 <= i < lo ==> NameAt(area[..], m[i]) != path
      invariant forall i :: hi <= i < |m| ==> NameAt(area[..], m[i]) != path
    {
      var mid := (lo + hi) / 2;
      var name := NameAt(area[..], m[mid]);
      if name == path {
        return Some(mid);
      } else if FileIndex.Le(path, name) {
        NotAfter(area[..], m, path, mid);
        hi := mid;
      } else {
        NotBefore(area[..], m, path, mid);
        lo := mid + 1;
      }
    }
    found := None;
  }

  lemma NotAfter(r: string, m: seq<Map>, path: string, mid: nat)
    requires Sorted(r, m) && mid < |m| && NameAt(r, m[mid]) != path && FileIndex.Le(path, NameAt(r, m[mid]))
    ensures forall i :: mid <= i < |m| ==> NameAt(r, m[i]) != path
  {
    LeTotal(path, NameAt(r, m[mid]));
  }

  lemma NotBefore(r: string, m: seq<Map>, path: string, mid: nat)
    requires Sorted(r, m) && mid < |m| && NameAt(r, m[mid]) != path && !FileIndex.Le(path, NameAt(r, m[mid]))
    ensures forall i :: 0 <= i <= mid ==> NameAt(r, m[i]) != path
  {
  }

  /** A line of the loaded index is one of the printed lines. */
  lemma IndexLine(r: string, m: seq<Map>, es: seq<Entry>, i: nat) returns (k: nat)
    requires Loaded(r, m, es) && i < |m|
    ensures k < |es| && m[i].name <= |r| && m[i].path <= |r| && EntryAt(r, m[i]) == es[k]
  {
    assert m[i] in multiset(m) && m[i] in multiset(FileOrder(es, |es|));
    k := InFileOrder(es, |es|, m[i]);
    ReadBack(es, k);
  }

  /** Every printed line is in the loaded index. */
  lemma LineIsIndexed(r: string, m: seq<Map>, es: seq<Entry>, k: nat) returns (i: nat)
    requires Loaded(r, m, es) && k < |es|
    ensures i < |m| && NameAt(r, m[i]) == es[k].name
  {
    FileOrderHas(es, |es|, k);
    ReadBack(es, k);
    assert MapOf(es, k) in multiset(FileOrder(es, |es|)) && MapOf(es, k) in multiset(m);
    i :| 0 <= i < |m| && m[i] == MapOf(es, k);
  }

  const LINE_ANCHOR: string := "#L"

  /** The URL of a line of a file, or of the file. */
  function UrlOf(url: string, line: int): string {
    if line > 0 then url + LINE_ANCHOR + Numeral(line) else url
  }

  /** A URL with a line is that of the file, `#L` and the number of the line, which is read
      back from it; one without is that of the file. */
  lemma UrlNamesLine(url: string, line: int)
    ensures var u, p := UrlOf(url, line), |url| + 2;
            if line <= 0 then u == url
            else p < |u| && u[..p] == url + "#L" && NumberAt(u, p) == line && NumberEnd(u, p) == |u|
  {
    if line > 0 {
      var before := url + "#L";
      NumeralAt(before, line, "");
      assert before + Numeral(line) + "" == UrlOf(url, line);
      assert UrlOf(url, line)[..|before|] == before;
    }
  }

  /** What snprintf leaves of a text in a buffer of the given size. */
  function Cut(s: string, size: nat): (t: string)
    ensures t <= s && (|s| < size ==> t == s) && (0 < size <= |s| ==> |t| == size - 1)
  {
    if |s| < size then s else if size == 0 then [] else s[..size - 1]
  }

  /** htags_path2url: the URL that was printed for the path, as far as it fits, and none
      exactly if none was printed for it. */
  method Path2Url(area: array<char>, m: seq<Map>, path: string, line: int, size: nat, ghost es: seq<Entry>)
      returns (url: Option<string>)
    requires Loaded(area[..], m, es) && DistinctNames(es)
    ensures forall k :: 0 <= k < |es| && es[k].name == path ==> url == Some(Cut(UrlOf(es[k].url, line), size))
    ensures (forall k :: 0 <= k < |es| ==> es[k].name != path) ==> url == None
  {
    var found := Search(area, m, path);
    if found == None {
      forall k | 0 <= k < |es| ensures es[k].name != path {
        var _ := LineIsIndexed(area[..], m, es, k);
      }
      return None;
    }
    var i := found.value;
    ghost var k := IndexLine(area[..], m, es, i);
    assert EntryAt(area[..], m[i]).name == path && EntryAt(area[..], m[i]).url == es[k].url;
    url := Some(Cut(UrlOf(CString(area[..], m[i].path), line), size));
  }

  /** What htags printed, loaded and searched: each path has the URL that was printed for
      it, and no other path has one. */
  method PrintLoadFind(area: array<char>, path: string, line: int, size: nat, ghost es: seq<Entry>)
      returns (url: Option<string>)
    requires EntriesOk(es) && DistinctNames(es) && area[..] == Printed(es, |es|)
    modifies area
    ensures forall k :: 0 <= k < |es| && es[k].name == path ==> url == Some(Cut(UrlOf(es[k].url, line), size))
    ensures (forall k :: 0 <= k < |es| ==> es[k].name != path) ==> url == None
  {
    var m := Load(area, es);
    url := Path2Url(area, m, path, line, size, es);
  }
}
