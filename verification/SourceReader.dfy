/** The loop of `search` over compact records: one pass over each source file,
    rewound only when the tag changes to an earlier line. */
module SourceReader {
  import opened CompactFormat
  import CompactEncoder
  import Decimal

  /** A tag record: `tag` is the key it was found under, `name` the name stored in it. */
  datatype Tagline = Tagline(path: string, tag: string, name: string, body: string)

  /** The same with its line numbers unfolded. */
  datatype Listing = Listing(path: string, tag: string, name: string, lines: seq<nat>)

  datatype Hit = Hit(path: string, line: nat, image: string)

  /** The lines of each source file. */
  type Sources = map<string, seq<string>>

  function Unfolded(r: Tagline): Listing {
    Listing(r.path, r.tag, r.name, Lines(r.body))
  }

  function AllUnfolded(records: seq<Tagline>): (listings: seq<Listing>)
    ensures |listings| == |records|
  {
    if |records| == 0 then [] else AllUnfolded(records[..|records| - 1]) + [Unfolded(records[|records| - 1])]
  }

  lemma {:induction false} UnfoldedAt(records: seq<Tagline>, i: nat)
    requires i < |records|
    ensures AllUnfolded(records)[i] == Unfolded(records[i])
    decreases |records|
  {
    if i < |records| - 1 {
      UnfoldedAt(records[..|records| - 1], i);
    }
  }

  /** The file is there and has the lines. */
  ghost predicate Readable(fs: Sources, r: Listing) {
    r.path in fs && |r.lines| > 0 && forall i :: 0 <= i < |r.lines| ==> 1 <= r.lines[i] <= |fs[r.path]|
  }

  ghost predicate AllReadable(fs: Sources, listings: seq<Listing>) {
    forall i {:trigger Readable(fs, listings[i])} :: 0 <= i < |listings| ==> Readable(fs, listings[i])
  }

  ghost predicate AllWellFormed(records: seq<Tagline>) {
    forall i {:trigger WellFormed(records[i].body)} :: 0 <= i < |records| ==> WellFormed(records[i].body)
  }

  // ----- where the reader stands -----

  /** `at` lines of the file at `path` have been read and the last line shown was `last`. */
  datatype Place = Place(path: string, tag: string, at: nat, last: nat)

  const START := Place("", "", 0, 0)

  function First(r: Listing): nat {
    if |r.lines| == 0 then 0 else r.lines[0]
  }

  /** Reopen, rewind or go on, before the lines of a record. */
  function Turn(x: Place, r: Listing): Place {
    if r.path != x.path then Place(r.path, r.name, 0, 0)
    else if r.tag != x.tag then Place(x.path, r.tag, if First(r) < x.last then 0 else x.at, 0)
    else x
  }

  function Max(a: nat, b: nat): nat {
    if a < b then b else a
  }

  /** After the first k lines of a record. */
  function Walked(x: Place, lines: seq<nat>, k: nat): Place
    requires k <= |lines|
  {
    if k == 0 then x
    else
      var y := Walked(x, lines, k - 1);
      y.(at := Max(y.at, lines[k - 1]), last := lines[k - 1])
  }

  /** Which line's image is shown with the k-th line of a record. */
  function Shown(x: Place, lines: seq<nat>, k: nat): nat
    requires k < |lines|
  {
    Max(Walked(x, lines, k).at, lines[k])
  }

  function After(x: Place, r: Listing): Place {
    Walked(Turn(x, r), r.lines, |r.lines|)
  }

  function PlaceAt(listings: seq<Listing>, i: nat): Place
    requires i <= |listings|
  {
    if i == 0 then START else After(PlaceAt(listings, i - 1), listings[i - 1])
  }

  function Image(fs: Sources, path: string, n: nat): string {
    if path in fs && 1 <= n <= |fs[path]| then fs[path][n - 1] else ""
  }

  /** What is printed for the first k lines of a record read from place x. */
  function Printed(fs: Sources, x: Place, path: string, lines: seq<nat>, k: nat): seq<Hit>
    requires k <= |lines|
  {
    if k == 0 then []
    else Printed(fs, x, path, lines, k - 1) + [Hit(path, lines[k - 1], Image(fs, path, Shown(x, lines, k - 1)))]
  }

  /** What is printed for a record read from place x. */
  function Hits(fs: Sources, x: Place, r: Listing): seq<Hit> {
    Printed(fs, Turn(x, r), r.path, r.lines, |r.lines|)
  }

  function Output(fs: Sources, listings: seq<Listing>, i: nat): seq<Hit>
    requires i <= |listings|
  {
    if i == 0 then [] else Output(fs, listings, i - 1) + Hits(fs, PlaceAt(listings, i - 1), listings[i - 1])
  }

  lemma OneMore(fs: Sources, listings: seq<Listing>, i: nat)
    requires i < |listings|
    ensures var x, r := PlaceAt(listings, i), listings[i];
            && PlaceAt(listings, i + 1) == After(x, r)
            && Output(fs, listings, i + 1) == Output(fs, listings, i) + Hits(fs, x, r)
  {
  }

  /** The source file being read, the current line image and the output so far. */
  class Searcher {
    const fs: Sources
    var curpath: string
    var curtag: string
    var lineno: nat
    var lastLineno: nat
    var src: string
    var out: seq<Hit>

    ghost predicate Valid()
      reads this
    {
      && (lineno > 0 ==> curpath in fs && lineno <= |fs[curpath]| && src == fs[curpath][lineno - 1])
      && lastLineno <= lineno
    }

    ghost function Where(): Place
      reads this
    {
      Place(curpath, curtag, lineno, lastLineno)
    }

    constructor (fs: Sources)
      ensures Valid() && Where() == START && out == [] && this.fs == fs
    {
      this.fs := fs;
      curpath, curtag, lineno, lastLineno, src, out := "", "", 0, 0, "", [];
    }

    /** Reopen or rewind the source file. */
    method Reopen(r: Tagline)
      requires Valid() && WellFormed(r.body)
      modifies this
      ensures Valid() && Where() == Turn(old(Where()), Unfolded(r)) && out == old(out)
      ensures curpath == r.path
    {
      if r.path != curpath {
        curtag, curpath := r.name, r.path;
        lineno, lastLineno := 0, 0;
      } else if r.tag != curtag {
        curtag := r.tag;
        var first, _ := Decimal.ReadNumber(r.body, 0);
        if first < lastLineno {
          lineno := 0;
        }
        lastLineno := 0;
      }
    }

    /** Read forward to line n, unless it is the line shown last, and print it. */
    method Show(n: nat)
      requires Valid() && curpath in fs && 1 <= n <= |fs[curpath]|
      modifies this
      ensures Valid() && curpath == old(curpath) && curtag == old(curtag) && lastLineno == n
      ensures lineno == Max(old(lineno), n)
      ensures out == old(out) + [Hit(curpath, n, Image(fs, curpath, lineno))]
    {
      if lastLineno != n {
        while lineno < n
          invariant curpath == old(curpath) && curtag == old(curtag) && out == old(out)
          invariant lineno > 0 ==> lineno <= |fs[curpath]| && src == fs[curpath][lineno - 1]
          invariant lineno <= Max(old(lineno), n) && old(lineno) <= lineno
        {
          src := fs[curpath][lineno];
          lineno := lineno + 1;
        }
      }
      out := out + [Hit(curpath, n, src)];
      lastLineno := n;
    }

    /** One record: place the file, then unfold and show its lines. */
    method Record(r: Tagline)
      requires Valid() && WellFormed(r.body) && Readable(fs, Unfolded(r))
      modifies this
      ensures Valid() && Where() == After(old(Where()), Unfolded(r))
      ensures out == old(out) + Hits(fs, old(Where()), Unfolded(r))
    {
      Reopen(r);
      ShowLines(r);
    }

    /** k lines of the record have been shown since the reader was at x. */
    ghost predicate HasShown(r: Tagline, x: Place, before: seq<Hit>, k: nat)
      requires k <= |Lines(r.body)|
      reads this
    {
      && Valid() && curpath == r.path && Where() == Walked(x, Lines(r.body), k)
      && out == before + Printed(fs, x, r.path, Lines(r.body), k)
    }

    method ShowLines(r: Tagline)
      requires Valid() && WellFormed(r.body) && Readable(fs, Unfolded(r)) && curpath == r.path
      modifies this
      ensures HasShown(r, old(Where()), old(out), |Lines(r.body)|)
    {
      ghost var x, lines, k := Where(), Lines(r.body), 0;
      var s := r.body;
      var p: nat, cont: nat, last: nat := 0, 0, 0;
      while p < |s| || cont > 0
        invariant At(s, p, cont, last)
        invariant k <= |lines| && lines[k..] == Pending(s, p, cont, last)
        invariant HasShown(r, x, old(out), k)
        decreases |s| - p, if cont > 0 then cont - last + 1 else 0
      {
        var n, found;
        p, cont, n, found := NextLine(s, p, cont, last);
        if found {
          FirstOf(lines, k, n, Pending(s, p, cont, n));
          ShowNext(r, x, old(out), k, n);
          k := k + 1;
        }
        last := n;
      }
      assert Pending(s, p, cont, last) == [];
    }

    method ShowNext(r: Tagline, ghost x: Place, ghost before: seq<Hit>, ghost k: nat, n: nat)
      requires Readable(fs, Unfolded(r)) && k < |Lines(r.body)| && n == Lines(r.body)[k] && HasShown(r, x, before, k)
      modifies this
      ensures HasShown(r, x, before, k + 1)
    {
      Show(n);
      Then(before, Printed(fs, x, r.path, Lines(r.body), k), Hit(r.path, n, Image(fs, r.path, lineno)));
    }

    static lemma Then(a: seq<Hit>, b: seq<Hit>, h: Hit)
      ensures a + b + [h] == a + (b + [h])
    {
    }

    static lemma FirstOf(lines: seq<nat>, k: nat, n: nat, rest: seq<nat>)
      requires k <= |lines| && lines[k..] == [n] + rest
      ensures k < |lines| && lines[k] == n && lines[k + 1..] == rest
    {
      assert lines[k..][0] == n && lines[k + 1..] == lines[k..][1..];
    }

    /** The first i of the listings have been printed. */
    ghost predicate Reached(listings: seq<Listing>, i: nat)
      requires i <= |listings|
      reads this
    {
      Valid() && Where() == PlaceAt(listings, i) && out == Output(fs, listings, i)
    }

    method Search(records: seq<Tagline>)
      requires Valid() && Where() == START && out == []
      requires AllWellFormed(records) && AllReadable(fs, AllUnfolded(records))
      modifies this
      ensures Reached(AllUnfolded(records), |records|)
    {
      ghost var listings := AllUnfolded(records);
      var i := 0;
      while i < |records|
        invariant 0 <= i <= |records| && Reached(listings, i)
      {
        UnfoldedAt(records, i);
        Next(records[i], listings, i);
        i := i + 1;
      }
    }

    /** One turn of the loop. */
    method Next(r: Tagline, ghost listings: seq<Listing>, ghost i: nat)
      requires i < |listings| && listings[i] == Unfolded(r) && WellFormed(r.body)
      requires Reached(listings, i) && AllReadable(fs, listings)
      modifies this
      ensures Reached(listings, i + 1)
    {
      OneMore(fs, listings, i);
      assert Readable(fs, listings[i]);
      Record(r);
    }
  }

  // ----- when the images are the right ones -----

  predicate Increasing(lines: seq<nat>) {
    forall i, j :: 0 <= i < j < |lines| ==> lines[i] < lines[j]
  }

  /** Every record has a line, and each of its lines is later than the one before. */
  ghost predicate InOrder(listings: seq<Listing>) {
    forall i {:trigger Increasing(listings[i].lines)} :: 0 <= i < |listings| ==>
      |listings[i].lines| > 0 && Increasing(listings[i].lines)
  }

  /** The reader treats record i as more of what it has just read. */
  predicate GoesOn(listings: seq<Listing>, i: nat)
    requires 0 < i < |listings|
  {
    listings[i].path == PlaceAt(listings, i).path && listings[i].tag == PlaceAt(listings, i).tag
  }

  function LastLine(r: Listing): nat {
    if |r.lines| == 0 then 0 else r.lines[|r.lines| - 1]
  }

  /** A record read as more of the same file and tag starts no earlier than the
      record before it ended. */
  ghost predicate ForwardAt(listings: seq<Listing>, i: nat)
    requires i < |listings| && InOrder(listings)
  {
    i > 0 && GoesOn(listings, i) ==> LastLine(listings[i - 1]) <= First(listings[i])
  }

  ghost predicate Forward(listings: seq<Listing>)
    requires InOrder(listings)
  {
    forall i {:trigger ForwardAt(listings, i)} :: 0 <= i < |listings| ==> ForwardAt(listings, i)
  }

  /** From place x, the image shown with each line is the image of that line. */
  ghost predicate Right(x: Place, lines: seq<nat>) {
    forall k {:trigger Shown(x, lines, k)} :: 0 <= k < |lines| ==> Shown(x, lines, k) == lines[k]
  }

  function PlaceFor(listings: seq<Listing>, i: nat): Place
    requires i < |listings|
  {
    Turn(PlaceAt(listings, i), listings[i])
  }

  ghost predicate RightAt(listings: seq<Listing>, i: nat)
    requires i < |listings|
  {
    Right(PlaceFor(listings, i), listings[i].lines)
  }

  lemma {:induction false} WalkedIs(x: Place, lines: seq<nat>, k: nat)
    requires k <= |lines| && Increasing(lines)
    ensures var y := Walked(x, lines, k);
            && y.path == x.path && y.tag == x.tag
            && y.at == (if k == 0 then x.at else Max(x.at, lines[k - 1]))
            && (k > 0 ==> y.last == lines[k - 1])
    decreases k
  {
    if k > 0 {
      WalkedIs(x, lines, k - 1);
    }
  }

  /** Within a record all images are right if the file is not yet past its first line. */
  lemma RecordIsRight(x: Place, lines: seq<nat>)
    requires Increasing(lines) && |lines| > 0
    ensures Right(x, lines) <==> x.at <= lines[0]
  {
    forall k | 0 <= k < |lines|
      ensures Shown(x, lines, k) == Max(x.at, lines[k])
    {
      WalkedIs(x, lines, k);
    }
    if Right(x, lines) {
      assert Shown(x, lines, 0) == lines[0];
    }
  }

  lemma PlaceAfter(listings: seq<Listing>, i: nat)
    requires i < |listings| && InOrder(listings)
    ensures var x, y := PlaceFor(listings, i), PlaceAt(listings, i + 1);
            y.path == x.path == listings[i].path && y.tag == x.tag
            && y.at == Max(x.at, LastLine(listings[i])) && y.last == LastLine(listings[i])
  {
    var lines := listings[i].lines;
    assert Increasing(lines);
    WalkedIs(PlaceFor(listings, i), lines, |lines|);
  }

  lemma RightIsForward(listings: seq<Listing>, i: nat)
    requires i < |listings| && InOrder(listings)
    requires i > 0 ==> RightAt(listings, i - 1)
    ensures RightAt(listings, i) <==> ForwardAt(listings, i)
  {
    assert Increasing(listings[i].lines);
    RecordIsRight(PlaceFor(listings, i), listings[i].lines);
    if i > 0 {
      PlaceAfter(listings, i - 1);
      RecordIsRight(PlaceFor(listings, i - 1), listings[i - 1].lines);
    }
  }

  lemma {:induction false} ForwardIsRight(listings: seq<Listing>, i: nat)
    requires i < |listings| && InOrder(listings) && Forward(listings)
    ensures RightAt(listings, i)
    decreases i
  {
    if i > 0 {
      ForwardIsRight(listings, i - 1);
    }
    RightIsForward(listings, i);
  }

  /** Reading forward only, the pass picks the right line for every hit exactly when
      no record that it treats as a continuation goes back. */
  lemma OnePassIsRight(listings: seq<Listing>)
    requires InOrder(listings)
    ensures (forall i :: 0 <= i < |listings| ==> RightAt(listings, i)) <==> Forward(listings)
  {
    if Forward(listings) {
      forall i | 0 <= i < |listings| ensures RightAt(listings, i) {
        ForwardIsRight(listings, i);
      }
    }
    if forall i :: 0 <= i < |listings| ==> RightAt(listings, i) {
      forall i | 0 <= i < |listings| ensures ForwardAt(listings, i) {
        assert i > 0 ==> RightAt(listings, i - 1);
        RightIsForward(listings, i);
      }
    }
  }

  // ----- the printed images -----

  predicate IsTrue(fs: Sources, h: Hit) {
    h.image == Image(fs, h.path, h.line)
  }

  ghost predicate AllTrue(fs: Sources, hits: seq<Hit>) {
    forall i {:trigger IsTrue(fs, hits[i])} :: 0 <= i < |hits| ==> IsTrue(fs, hits[i])
  }

  /** What is printed for record i. */
  function HitsAt(fs: Sources, listings: seq<Listing>, i: nat): seq<Hit>
    requires i < |listings|
  {
    Hits(fs, PlaceAt(listings, i), listings[i])
  }

  ghost predicate TrueAt(fs: Sources, listings: seq<Listing>, i: nat)
    requires i < |listings|
  {
    AllTrue(fs, HitsAt(fs, listings, i))
  }

  lemma Split(fs: Sources, a: seq<Hit>, b: seq<Hit>)
    ensures AllTrue(fs, a + b) == (AllTrue(fs, a) && AllTrue(fs, b))
  {
    if AllTrue(fs, a + b) {
      forall i | 0 <= i < |a| ensures IsTrue(fs, a[i]) {
        assert IsTrue(fs, (a + b)[i]);
      }
      forall i | 0 <= i < |b| ensures IsTrue(fs, b[i]) {
        assert IsTrue(fs, (a + b)[|a| + i]);
      }
    }
    if AllTrue(fs, a) && AllTrue(fs, b) {
      forall i | 0 <= i < |a + b| ensures IsTrue(fs, (a + b)[i]) {
        assert if i < |a| then IsTrue(fs, a[i]) else IsTrue(fs, b[i - |a|]);
      }
    }
  }

  lemma TrueStep(fs: Sources, listings: seq<Listing>, i: nat)
    requires i < |listings|
    ensures AllTrue(fs, Output(fs, listings, i + 1)) == (AllTrue(fs, Output(fs, listings, i)) && TrueAt(fs, listings, i))
  {
    Split(fs, Output(fs, listings, i), HitsAt(fs, listings, i));
  }

  ghost predicate TrueUpTo(fs: Sources, listings: seq<Listing>, i: nat)
    requires i <= |listings|
  {
    i == 0 || (TrueUpTo(fs, listings, i - 1) && TrueAt(fs, listings, i - 1))
  }

  lemma {:induction false} TrueUpToMeans(fs: Sources, listings: seq<Listing>, i: nat)
    requires i <= |listings|
    ensures TrueUpTo(fs, listings, i) == forall j :: 0 <= j < i ==> TrueAt(fs, listings, j)
    decreases i
  {
    if i > 0 {
      TrueUpToMeans(fs, listings, i - 1);
    }
  }

  lemma {:induction false} OutputIsTrue(fs: Sources, listings: seq<Listing>, i: nat)
    requires i <= |listings|
    ensures AllTrue(fs, Output(fs, listings, i)) == TrueUpTo(fs, listings, i)
    decreases i
  {
    if i > 0 {
      OutputIsTrue(fs, listings, i - 1);
      TrueStep(fs, listings, i - 1);
    }
  }

  /** No two lines of a file are alike, so that an image tells its line. */
  ghost predicate TellingLines(fs: Sources) {
    forall p :: p in fs ==> forall i, j :: 0 <= i < j < |fs[p]| ==> fs[p][i] != fs[p][j]
  }

  lemma {:induction false} PrintedAt(fs: Sources, x: Place, path: string, lines: seq<nat>, k: nat, j: nat)
    requires j < k <= |lines|
    ensures |Printed(fs, x, path, lines, k)| == k
    ensures Printed(fs, x, path, lines, k)[j] == Hit(path, lines[j], Image(fs, path, Shown(x, lines, j)))
    decreases k
  {
    if k > 1 {
      PrintedAt(fs, x, path, lines, k - 1, if j < k - 1 then j else 0);
    }
  }

  /** The file has every line that has been or is to be read. */
  ghost predicate InFile(fs: Sources, x: Place, path: string, lines: seq<nat>) {
    && path in fs && x.at <= |fs[path]|
    && forall k :: 0 <= k < |lines| ==> 1 <= lines[k] <= |fs[path]|
  }

  lemma {:induction false} PlaceInFile(fs: Sources, listings: seq<Listing>, i: nat)
    requires i < |listings| && InOrder(listings) && AllReadable(fs, listings)
    ensures InFile(fs, PlaceFor(listings, i), listings[i].path, listings[i].lines)
    decreases i
  {
    assert Readable(fs, listings[i]);
    if i > 0 {
      PlaceInFile(fs, listings, i - 1);
      PlaceAfter(listings, i - 1);
      assert Readable(fs, listings[i - 1]);
    }
  }

  lemma HitIsTrue(fs: Sources, x: Place, path: string, lines: seq<nat>, k: nat)
    requires k < |lines| && Increasing(lines) && InFile(fs, x, path, lines)
    ensures var h := Printed(fs, x, path, lines, |lines|);
            && k < |h| && (Shown(x, lines, k) == lines[k] ==> IsTrue(fs, h[k]))
            && (TellingLines(fs) && IsTrue(fs, h[k]) ==> Shown(x, lines, k) == lines[k])
  {
    PrintedAt(fs, x, path, lines, |lines|, k);
    WalkedIs(x, lines, k);
  }

  lemma RightIsTrue(fs: Sources, x: Place, path: string, lines: seq<nat>)
    requires Increasing(lines) && InFile(fs, x, path, lines) && |lines| > 0
    ensures var h := Printed(fs, x, path, lines, |lines|);
            && (Right(x, lines) ==> AllTrue(fs, h))
            && (TellingLines(fs) && AllTrue(fs, h) ==> Right(x, lines))
  {
    var h := Printed(fs, x, path, lines, |lines|);
    PrintedAt(fs, x, path, lines, |lines|, 0);
    forall k | 0 <= k < |lines|
      ensures Shown(x, lines, k) == lines[k] ==> IsTrue(fs, h[k])
      ensures TellingLines(fs) && IsTrue(fs, h[k]) ==> Shown(x, lines, k) == lines[k]
    {
      HitIsTrue(fs, x, path, lines, k);
    }
  }

  /** Every printed image is the image of its line when no continuation goes back;
      and when lines tell themselves apart, only then. */
  lemma ImagesAreTrue(fs: Sources, listings: seq<Listing>)
    requires InOrder(listings) && AllReadable(fs, listings)
    ensures Forward(listings) ==> AllTrue(fs, Output(fs, listings, |listings|))
    ensures TellingLines(fs) && AllTrue(fs, Output(fs, listings, |listings|)) ==> Forward(listings)
  {
    OnePassIsRight(listings);
    OutputIsTrue(fs, listings, |listings|);
    TrueUpToMeans(fs, listings, |listings|);
    forall i | 0 <= i < |listings|
      ensures RightAt(listings, i) ==> TrueAt(fs, listings, i)
      ensures TellingLines(fs) && TrueAt(fs, listings, i) ==> RightAt(listings, i)
    {
      PlaceInFile(fs, listings, i);
      assert Increasing(listings[i].lines);
      RightIsTrue(fs, PlaceFor(listings, i), listings[i].path, listings[i].lines);
    }
  }

  // ----- records that overlap -----

  /** Three records of one file under one key: if the third starts before the
      second ends, the file is not rewound for it. */
  lemma OverlapGoesWrong(a: Listing, b: Listing, c: Listing)
    requires InOrder([a, b, c]) && a.path == b.path == c.path != "" && a.name != a.tag == b.tag == c.tag
    requires First(c) < LastLine(b)
    ensures !RightAt([a, b, c], 2) && !Forward([a, b, c])
  {
    var listings := [a, b, c];
    PlaceAfter(listings, 0);
    PlaceAfter(listings, 1);
    assert GoesOn(listings, 2);
    assert Increasing(listings[2].lines);
    RecordIsRight(PlaceFor(listings, 2), c.lines);
    assert !ForwardAt(listings, 2);
  }

  /** A file of n lines, each of which shows its own number. */
  function Numbered(n: nat): (file: seq<string>)
    ensures |file| == n
  {
    if n == 0 then [] else Numbered(n - 1) + [Decimal.Numeral(n)]
  }

  lemma {:induction false} NumberedAt(n: nat, i: nat)
    requires i < n
    ensures Numbered(n)[i] == Decimal.Numeral(i + 1)
    decreases n
  {
    if i < n - 1 {
      NumberedAt(n - 1, i);
    }
  }

  lemma NumberedTells(path: string, n: nat)
    ensures TellingLines(map[path := Numbered(n)])
  {
    var file := Numbered(n);
    forall i, j | 0 <= i < j < n ensures file[i] != file[j] {
      NumberedAt(n, i);
      NumberedAt(n, j);
      if file[i] == file[j] {
        Decimal.NumeralsDiffer(i + 1, j + 1);
      }
    }
  }

  lemma BodyOfOne(n: nat)
    ensures WellFormed(Decimal.Numeral(n)) && Lines(Decimal.Numeral(n)) == [n]
  {
    CompactEncoder.FirstItem(n);
  }

  lemma BodyOfTwo(m: nat, n: nat)
    ensures var body := Decimal.Numeral(m) + CompactEncoder.Item(',', n);
            WellFormed(body) && Lines(body) == [m, m + n]
  {
    CompactEncoder.FirstItem(m);
    CompactEncoder.AppendItem(Decimal.Numeral(m), ',', n);
  }

  /** Three records of a file of 50 lines, the third within the second. */
  lemma OverlapIsShown(fs: Sources, a: Listing, b: Listing, c: Listing)
    requires a.path == b.path == c.path != "" && a.name != a.tag == b.tag == c.tag
    requires a.lines == [5] && b.lines == [10, 50] && c.lines == [20]
    requires a.path in fs && |fs[a.path]| == 50 && TellingLines(fs)
    ensures InOrder([a, b, c]) && AllReadable(fs, [a, b, c]) && !AllTrue(fs, Output(fs, [a, b, c], 3))
  {
    OverlapGoesWrong(a, b, c);
    ImagesAreTrue(fs, [a, b, c]);
  }

  lemma ThreeUnfolded(a: Tagline, b: Tagline, c: Tagline)
    ensures AllUnfolded([a, b, c]) == [Unfolded(a), Unfolded(b), Unfolded(c)]
  {
    UnfoldedAt([a, b, c], 0);
    UnfoldedAt([a, b, c], 1);
    UnfoldedAt([a, b, c], 2);
  }

  lemma BodiesAre()
    ensures WellFormed("5") && Lines("5") == [5]
    ensures WellFormed("10,40") && Lines("10,40") == [10, 50]
    ensures WellFormed("20") && Lines("20") == [20]
  {
    assert Decimal.Numeral(5) == "5" && Decimal.Numeral(20) == "20";
    assert Decimal.Numeral(10) + CompactEncoder.Item(',', 40) == "10,40";
    BodyOfOne(5);
    BodyOfTwo(10, 40);
    BodyOfOne(20);
  }

  lemma OverlapIsPrinted(a: Tagline, b: Tagline, c: Tagline)
    requires a.path == b.path == c.path != "" && a.name != a.tag == b.tag == c.tag
    requires WellFormed(a.body) && WellFormed(b.body) && WellFormed(c.body)
    requires Lines(a.body) == [5] && Lines(b.body) == [10, 50] && Lines(c.body) == [20]
    ensures var fs, records := map[a.path := Numbered(50)], [a, b, c];
            && AllWellFormed(records) && AllReadable(fs, AllUnfolded(records))
            && !AllTrue(fs, Output(fs, AllUnfolded(records), 3))
  {
    NumberedTells(a.path, 50);
    ThreeUnfolded(a, b, c);
    ThreeWellFormed(a, b, c);
    var fs, x, y, z := map[a.path := Numbered(50)], Unfolded(a), Unfolded(b), Unfolded(c);
    assert x.path == y.path == z.path && x.name != x.tag == y.tag == z.tag;
    OverlapIsShown(fs, x, y, z);
  }

  lemma ThreeWellFormed(a: Tagline, b: Tagline, c: Tagline)
    requires WellFormed(a.body) && WellFormed(b.body) && WellFormed(c.body)
    ensures AllWellFormed([a, b, c])
  {
  }

  /** The key `f` with the methods `A::f`, `B::f` and `C::f` of one file: an image is wrong. */
  lemma OverlapExample()
    ensures var a := Tagline("./a.cpp", "f", "A::@n", "5");
            var b := Tagline("./a.cpp", "f", "B::@n", "10,40");
            var c := Tagline("./a.cpp", "f", "C::@n", "20");
            var fs, records := map[a.path := Numbered(50)], [a, b, c];
            && AllWellFormed(records) && AllReadable(fs, AllUnfolded(records))
            && !AllTrue(fs, Output(fs, AllUnfolded(records), 3))
  {
    BodiesAre();
    OverlapIsPrinted(Tagline("./a.cpp", "f", "A::@n", "5"), Tagline("./a.cpp", "f", "B::@n", "10,40"),
                     Tagline("./a.cpp", "f", "C::@n", "20"));
  }
}
