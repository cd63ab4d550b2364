/** From the pool of the encoder to the printed lines: what a search shows of an index
    that flush_pool has written. */
module IndexSearch {
  import opened CompactFormat
  import opened SourceReader
  import Encoder = CompactEncoder

  // ----- the records of one pool entry -----

  lemma {:induction false} FlatGrows(records: seq<string>, k: nat)
    requires k <= |records|
    ensures Encoder.Flat(records[..k]) <= Encoder.Flat(records)
    decreases |records|
  {
    if k == |records| {
      assert records[..k] == records;
    } else {
      var shorter := records[..|records| - 1];
      FlatGrows(shorter, k);
      assert shorter[..k] == records[..k];
    }
  }

  lemma FlatNext(records: seq<string>, k: nat)
    requires k < |records|
    ensures Encoder.Flat(records[..k + 1]) == Encoder.Flat(records[..k]) + Lines(records[k])
  {
    assert records[..k + 1][..k] == records[..k];
  }

  /** The lines of two records, one after the other in those of all records. */
  predicate Follows(a: seq<nat>, b: seq<nat>, c: seq<nat>, whole: seq<nat>) {
    a + b + c <= whole
  }

  lemma IncreasingParts(a: seq<nat>, b: seq<nat>, c: seq<nat>, whole: seq<nat>)
    requires Increasing(whole) && Follows(a, b, c, whole)
    ensures Increasing(c) && (|b| > 0 && |c| > 0 ==> Encoder.LastOf(b) < c[0])
  {
    var d := a + b + c;
    forall i, j | 0 <= i < j < |c| ensures c[i] < c[j] {
      assert d[|a + b| + i] == c[i] && d[|a + b| + j] == c[j];
    }
    if |b| > 0 && |c| > 0 {
      assert d[|a + b| - 1] == b[|b| - 1] && d[|a + b|] == c[0];
    }
  }

  lemma FirstFollows(records: seq<string>)
    requires |records| > 0
    ensures Follows([], [], Lines(records[0]), Encoder.Flat(records))
  {
    FlatGrows(records, 1);
    FlatNext(records, 0);
    assert Encoder.Flat(records[..0]) == [];
  }

  lemma Chain(a: seq<nat>, b: seq<nat>, c: seq<nat>, ab: seq<nat>, abc: seq<nat>, whole: seq<nat>)
    requires ab == a + b && abc == ab + c && abc <= whole
    ensures Follows(a, b, c, whole)
  {
  }

  lemma FlatBefore(records: seq<string>, k: nat)
    requires 0 < k <= |records|
    ensures Encoder.Flat(records[..k]) == Encoder.Flat(records[..k - 1]) + Lines(records[k - 1])
  {
    assert records[..k][..k - 1] == records[..k - 1];
  }

  /** With values in the place of the records. */
  lemma ChainOf(a: seq<nat>, b: seq<nat>, c: seq<nat>, records: seq<string>, k: nat)
    requires k + 1 <= |records|
    requires Encoder.Flat(records[..k]) == a + b && Encoder.Flat(records[..k + 1]) == Encoder.Flat(records[..k]) + c
    ensures Follows(a, b, c, Encoder.Flat(records))
  {
    FlatGrows(records, k + 1);
    Chain(a, b, c, Encoder.Flat(records[..k]), Encoder.Flat(records[..k + 1]), Encoder.Flat(records));
  }

  lemma NextFollows(records: seq<string>, k: nat)
    requires 0 < k < |records|
    ensures Follows(Encoder.Flat(records[..k - 1]), Lines(records[k - 1]), Lines(records[k]), Encoder.Flat(records))
  {
    FlatBefore(records, k);
    FlatNext(records, k);
    ChainOf(Encoder.Flat(records[..k - 1]), Lines(records[k - 1]), Lines(records[k]), records, k);
  }

  lemma FirstInOrder(records: seq<string>)
    requires |records| > 0 && Increasing(Encoder.Flat(records))
    ensures Increasing(Lines(records[0]))
  {
    FirstFollows(records);
    IncreasingParts([], [], Lines(records[0]), Encoder.Flat(records));
  }

  /** If the lines of all records increase, those of each record do, and each record
      begins after the one before it ends. */
  lemma RecordsInOrder(records: seq<string>, k: nat)
    requires k < |records| && Increasing(Encoder.Flat(records))
    ensures Increasing(Lines(records[k]))
    ensures k > 0 ==> Encoder.LastOf(Lines(records[k - 1])) < Lines(records[k])[0]
  {
    if k == 0 {
      FirstInOrder(records);
    } else {
      NextFollows(records, k);
      IncreasingParts(Encoder.Flat(records[..k - 1]), Lines(records[k - 1]), Lines(records[k]), Encoder.Flat(records));
    }
  }

  // ----- what ought to be printed -----

  /** A line with its own image. */
  function HitOf(fs: Sources, path: string, n: nat): Hit {
    Hit(path, n, Image(fs, path, n))
  }

  /** Each of the lines. */
  function Wanted(fs: Sources, path: string, lines: seq<nat>): seq<Hit> {
    if |lines| == 0 then []
    else Wanted(fs, path, lines[..|lines| - 1]) + [HitOf(fs, path, lines[|lines| - 1])]
  }

  lemma WantedNext(fs: Sources, path: string, lines: seq<nat>, n: nat)
    ensures Wanted(fs, path, lines + [n]) == Wanted(fs, path, lines) + [HitOf(fs, path, n)]
  {
    assert (lines + [n])[..|lines|] == lines;
  }

  lemma {:induction false} WantedOfBoth(fs: Sources, path: string, a: seq<nat>, b: seq<nat>)
    ensures Wanted(fs, path, a + b) == Wanted(fs, path, a) + Wanted(fs, path, b)
    decreases |b|
  {
    if |b| == 0 {
      assert a + b == a;
    } else {
      var before, n := b[..|b| - 1], b[|b| - 1];
      WantedOfBoth(fs, path, a, before);
      WantedOfThree(fs, path, a, before, n);
      assert b == before + [n];
    }
  }

  lemma WantedOfThree(fs: Sources, path: string, a: seq<nat>, b: seq<nat>, n: nat)
    requires Wanted(fs, path, a + b) == Wanted(fs, path, a) + Wanted(fs, path, b)
    ensures Wanted(fs, path, a + (b + [n])) == Wanted(fs, path, a) + Wanted(fs, path, b + [n])
  {
    Assoc(a, b, [n]);
    WantedNext(fs, path, a + b, n);
    WantedNext(fs, path, b, n);
    Assoc(Wanted(fs, path, a), Wanted(fs, path, b), [HitOf(fs, path, n)]);
  }

  /** The same for the first i listings. */
  function AllWanted(fs: Sources, listings: seq<Listing>, i: nat): seq<Hit>
    requires i <= |listings|
  {
    if i == 0 then [] else AllWanted(fs, listings, i - 1) + Wanted(fs, listings[i - 1].path, listings[i - 1].lines)
  }

  lemma {:induction false} PrintedIsWanted(fs: Sources, x: Place, path: string, lines: seq<nat>, k: nat)
    requires k <= |lines| && Right(x, lines)
    ensures Printed(fs, x, path, lines, k) == Wanted(fs, path, lines[..k])
    decreases k
  {
    if k > 0 {
      PrintedIsWanted(fs, x, path, lines, k - 1);
      WantedNext(fs, path, lines[..k - 1], lines[k - 1]);
      assert lines[..k] == lines[..k - 1] + [lines[k - 1]];
      assert Shown(x, lines, k - 1) == lines[k - 1];
    }
  }

  lemma HitsAreWanted(fs: Sources, listings: seq<Listing>, i: nat)
    requires i < |listings| && RightAt(listings, i)
    ensures HitsAt(fs, listings, i) == Wanted(fs, listings[i].path, listings[i].lines)
  {
    var lines := listings[i].lines;
    PrintedIsWanted(fs, PlaceFor(listings, i), listings[i].path, lines, |lines|);
    assert lines[..|lines|] == lines;
  }

  /** If no continuation goes back, every line is printed with its own image. */
  lemma {:induction false} OutputIsWanted(fs: Sources, listings: seq<Listing>, i: nat)
    requires i <= |listings| && InOrder(listings) && Forward(listings)
    ensures Output(fs, listings, i) == AllWanted(fs, listings, i)
    decreases i
  {
    if i > 0 {
      OutputIsWanted(fs, listings, i - 1);
      ForwardIsRight(listings, i - 1);
      HitsAreWanted(fs, listings, i - 1);
      OneMore(fs, listings, i - 1);
    }
  }

  // ----- one more record -----

  /** In the order in which one pass shows them right. */
  ghost predicate Good(fs: Sources, listings: seq<Listing>, wanted: seq<Hit>) {
    && InOrder(listings) && Forward(listings) && AllReadable(fs, listings)
    && AllWanted(fs, listings, |listings|) == wanted
  }

  /** If r is read as more of a, it begins no earlier than a ends. */
  predicate MayFollow(a: Listing, r: Listing) {
    a.path == r.path && (r.tag == a.tag || r.tag == a.name) ==> LastLine(a) <= First(r)
  }

  lemma {:induction false} PlaceOfPrefix(listings: seq<Listing>, r: Listing, i: nat)
    requires i <= |listings|
    ensures PlaceAt(listings + [r], i) == PlaceAt(listings, i)
    decreases i
  {
    if i > 0 {
      PlaceOfPrefix(listings, r, i - 1);
    }
  }

  lemma {:induction false} WantedOfPrefix(fs: Sources, listings: seq<Listing>, r: Listing, i: nat)
    requires i <= |listings|
    ensures AllWanted(fs, listings + [r], i) == AllWanted(fs, listings, i)
    decreases i
  {
    if i > 0 {
      WantedOfPrefix(fs, listings, r, i - 1);
    }
  }

  /** The reader remembers the path of the last record, and its key or its name. */
  lemma TurnTag(x: Place, r: Listing)
    ensures Turn(x, r).path == r.path && (Turn(x, r).tag == r.tag || Turn(x, r).tag == r.name)
  {
  }

  lemma RemembersLast(listings: seq<Listing>, i: nat)
    requires i < |listings| && InOrder(listings)
    ensures var x, r := PlaceAt(listings, i + 1), listings[i]; x.path == r.path && (x.tag == r.tag || x.tag == r.name)
  {
    PlaceAfter(listings, i);
    TurnTag(PlaceAt(listings, i), listings[i]);
  }

  lemma InOrderAppend(listings: seq<Listing>, r: Listing)
    requires InOrder(listings) && |r.lines| > 0 && Increasing(r.lines)
    ensures InOrder(listings + [r])
  {
    var more := listings + [r];
    forall i | 0 <= i < |more| ensures |more[i].lines| > 0 && Increasing(more[i].lines) {
      assert i < |listings| ==> Increasing(listings[i].lines);
    }
  }

  lemma ReadableAppend(fs: Sources, listings: seq<Listing>, r: Listing)
    requires AllReadable(fs, listings) && Readable(fs, r)
    ensures AllReadable(fs, listings + [r])
  {
    var more := listings + [r];
    forall i | 0 <= i < |more| ensures Readable(fs, more[i]) {
      assert i < |listings| ==> Readable(fs, listings[i]);
    }
  }

  lemma ForwardAppend(listings: seq<Listing>, r: Listing)
    requires InOrder(listings) && InOrder(listings + [r]) && Forward(listings)
    requires |listings| > 0 ==> MayFollow(listings[|listings| - 1], r)
    ensures Forward(listings + [r])
  {
    var more, n := listings + [r], |listings|;
    forall i | 0 <= i < |more| ensures ForwardAt(more, i) {
      if i < n {
        PlaceOfPrefix(listings, r, i);
        assert ForwardAt(listings, i);
      } else if n > 0 {
        RemembersLast(more, n - 1);
      }
    }
  }

  lemma GoodAppend(fs: Sources, listings: seq<Listing>, wanted: seq<Hit>, r: Listing)
    requires Good(fs, listings, wanted) && |r.lines| > 0 && Increasing(r.lines) && Readable(fs, r)
    requires |listings| > 0 ==> MayFollow(listings[|listings| - 1], r)
    ensures Good(fs, listings + [r], wanted + Wanted(fs, r.path, r.lines))
  {
    InOrderAppend(listings, r);
    ReadableAppend(fs, listings, r);
    ForwardAppend(listings, r);
    WantedOfPrefix(fs, listings, r, |listings|);
  }

  // ----- an index -----

  /** What the pool of one file holds for a key, and the records written for it. */
  datatype Stored = Stored(path: string, tag: string, name: string, lines: seq<nat>, records: seq<string>)

  /** The records are those of flush_pool. */
  ghost predicate Flushed(e: Stored) {
    && Encoder.Sorted(e.lines) && Encoder.AllWellFormed(e.records)
    && Encoder.Flat(e.records) == Encoder.Distinct(e.lines)
  }

  /** The source file is there, and has the lines. */
  predicate There(fs: Sources, e: Stored) {
    e.path in fs && forall i :: 0 <= i < |e.lines| ==> e.lines[i] <= |fs[e.path]|
  }

  /** Entries of one file have different keys, and no key is a stored name: with
      compression every stored name has an `@`. */
  predicate Separate(a: Stored, b: Stored) {
    a.path == b.path ==> b.tag != a.tag && b.tag != a.name
  }

  ghost predicate IndexOk(fs: Sources, index: seq<Stored>) {
    && (forall m {:trigger Flushed(index[m])} :: 0 <= m < |index| ==> Flushed(index[m]))
    && (forall m {:trigger There(fs, index[m])} :: 0 <= m < |index| ==> There(fs, index[m]))
    && (forall j, m {:trigger Separate(index[j], index[m])} :: 0 <= j < m < |index| ==> Separate(index[j], index[m]))
  }

  function Record(e: Stored, k: nat): Tagline
    requires k < |e.records|
  {
    Tagline(e.path, e.tag, e.name, e.records[k])
  }

  /** The first k records of an entry. */
  function Records(e: Stored, k: nat): (records: seq<Tagline>)
    requires k <= |e.records|
    ensures |records| == k
  {
    if k == 0 then [] else Records(e, k - 1) + [Record(e, k - 1)]
  }

  /** The records of the first m entries. */
  function Taglines(index: seq<Stored>, m: nat): seq<Tagline>
    requires m <= |index|
  {
    if m == 0 then [] else Taglines(index, m - 1) + Records(index[m - 1], |index[m - 1].records|)
  }

  /** What a search of the first m entries should print: every line of the pool once,
      in order, with its own image. */
  function WantedOfIndex(fs: Sources, index: seq<Stored>, m: nat): seq<Hit>
    requires m <= |index|
  {
    if m == 0 then []
    else WantedOfIndex(fs, index, m - 1) + Wanted(fs, index[m - 1].path, Encoder.Distinct(index[m - 1].lines))
  }

  /** The listings of all the records of an entry. */
  function ListingsOf(e: Stored): (listings: seq<Listing>)
    ensures |listings| == |e.records|
  {
    AllUnfolded(Records(e, |e.records|))
  }

  /** The listings of the first m entries. */
  function Listings(index: seq<Stored>, m: nat): seq<Listing>
    requires m <= |index|
  {
    if m == 0 then [] else Listings(index, m - 1) + ListingsOf(index[m - 1])
  }

  lemma UnfoldedNext(a: seq<Tagline>, r: Tagline)
    ensures AllUnfolded(a + [r]) == AllUnfolded(a) + [Unfolded(r)]
  {
    assert (a + [r])[..|a|] == a;
  }

  lemma TakeNext<T>(a: seq<T>, k: nat)
    requires k < |a|
    ensures a[..k + 1] == a[..k] + [a[k]]
  {
  }

  ghost predicate UnfoldsTo(a: seq<Tagline>, b: seq<Tagline>, k: nat)
    requires k <= |b|
  {
    AllUnfolded(a + b[..k]) == AllUnfolded(a) + AllUnfolded(b[..k]) && (k > 0 ==> UnfoldsTo(a, b, k - 1))
  }

  lemma {:induction false} UnfoldStep(a: seq<Tagline>, b: seq<Tagline>, k: nat)
    requires k < |b| && UnfoldsTo(a, b, k)
    ensures UnfoldsTo(a, b, k + 1)
  {
    UnfoldedOfThree(a, b[..k], b[k]);
    TakeNext(b, k);
  }

  lemma {:induction false} UnfoldAll(a: seq<Tagline>, b: seq<Tagline>, k: nat)
    requires k <= |b| && UnfoldsTo(a, b, 0)
    ensures UnfoldsTo(a, b, k)
    decreases k
  {
    if k > 0 {
      UnfoldAll(a, b, k - 1);
      UnfoldStep(a, b, k - 1);
    }
  }

  lemma UnfoldedOfThree(a: seq<Tagline>, b: seq<Tagline>, r: Tagline)
    requires AllUnfolded(a + b) == AllUnfolded(a) + AllUnfolded(b)
    ensures AllUnfolded(a + (b + [r])) == AllUnfolded(a) + AllUnfolded(b + [r])
  {
    Assoc(a, b, [r]);
    UnfoldedNext(a + b, r);
    UnfoldedNext(b, r);
    Assoc(AllUnfolded(a), AllUnfolded(b), [Unfolded(r)]);
  }

  lemma UnfoldedOfBoth(a: seq<Tagline>, b: seq<Tagline>)
    ensures AllUnfolded(a + b) == AllUnfolded(a) + AllUnfolded(b)
  {
    NothingAdded(a);
    NothingAdded(AllUnfolded(a));
    UnfoldAll(a, b, |b|);
    assert b[..|b|] == b;
  }

  // ----- the index in order -----

  lemma PartIsIn(a: seq<nat>, b: seq<nat>, c: seq<nat>, whole: seq<nat>, n: nat)
    requires Follows(a, b, c, whole) && n in c
    ensures n in whole
  {
    var i :| 0 <= i < |c| && c[i] == n;
    assert (a + b + c)[|a + b| + i] == n;
  }

  lemma LineIsStored(records: seq<string>, k: nat, n: nat)
    requires k < |records| && n in Lines(records[k])
    ensures n in Encoder.Flat(records)
  {
    if k == 0 {
      FirstFollows(records);
      PartIsIn([], [], Lines(records[0]), Encoder.Flat(records), n);
    } else {
      NextFollows(records, k);
      PartIsIn(Encoder.Flat(records[..k - 1]), Lines(records[k - 1]), Lines(records[k]), Encoder.Flat(records), n);
    }
  }

  lemma RecordIsReadable(fs: Sources, e: Stored, k: nat)
    requires k < |e.records| && Flushed(e) && There(fs, e)
    ensures Readable(fs, Unfolded(Record(e, k)))
  {
    var lines := Lines(e.records[k]);
    forall i | 0 <= i < |lines| ensures 1 <= lines[i] <= |fs[e.path]| {
      LineIsStored(e.records, k, lines[i]);
      Encoder.DistinctHas(e.lines, lines[i]);
    }
  }

  /** The records that flush_pool makes of one pool are in order. */
  lemma FlushedInOrder(e: Stored, k: nat)
    requires k < |e.records| && Flushed(e)
    ensures Increasing(Lines(e.records[k]))
    ensures k > 0 ==> MayFollow(Unfolded(Record(e, k - 1)), Unfolded(Record(e, k)))
  {
    Encoder.DistinctIncreases(e.lines);
    RecordsInOrder(e.records, k);
  }

  /** The records of e are not read as more of a. */
  predicate Starts(a: Listing, e: Stored) {
    a.path == e.path ==> e.tag != a.tag && e.tag != a.name
  }

  lemma NothingAdded<T>(a: seq<T>)
    ensures a + [] == a
  {
  }

  /** With every number of records of the entry up to k, the listings are good. */
  ghost predicate EntryGood(fs: Sources, before: seq<Listing>, wanted: seq<Hit>, e: Stored, k: nat)
    requires k <= |e.records|
  {
    && Good(fs, before + AllUnfolded(Records(e, k)), wanted + Wanted(fs, e.path, Encoder.Flat(e.records[..k])))
    && (k > 0 ==> EntryGood(fs, before, wanted, e, k - 1))
  }

  /** One more record of the entry. */
  lemma EntryAppend(fs: Sources, listings: seq<Listing>, wanted: seq<Hit>, e: Stored, k: nat)
    requires Flushed(e) && There(fs, e) && k < |e.records| && Good(fs, listings, wanted)
    requires |listings| > 0 ==> if k > 0 then listings[|listings| - 1] == Unfolded(Record(e, k - 1))
                                else Starts(listings[|listings| - 1], e)
    ensures Good(fs, listings + [Unfolded(Record(e, k))], wanted + Wanted(fs, e.path, Lines(e.records[k])))
  {
    FlushedInOrder(e, k);
    RecordIsReadable(fs, e, k);
    GoodAppend(fs, listings, wanted, Unfolded(Record(e, k)));
  }

  lemma LastBefore(before: seq<Listing>, e: Stored, k: nat)
    requires k <= |e.records| && (|before| > 0 ==> Starts(before[|before| - 1], e))
    ensures var listings := before + AllUnfolded(Records(e, k));
            |listings| > 0 ==> if k > 0 then listings[|listings| - 1] == Unfolded(Record(e, k - 1))
                               else Starts(listings[|listings| - 1], e)
  {
    if k > 0 {
      UnfoldedNext(Records(e, k - 1), Record(e, k - 1));
    }
  }

  lemma MoreListings(before: seq<Listing>, e: Stored, k: nat)
    requires k < |e.records|
    ensures before + AllUnfolded(Records(e, k + 1)) == before + AllUnfolded(Records(e, k)) + [Unfolded(Record(e, k))]
  {
    UnfoldedNext(Records(e, k), Record(e, k));
    Assoc(before, AllUnfolded(Records(e, k)), [Unfolded(Record(e, k))]);
  }

  lemma MoreWanted(fs: Sources, wanted: seq<Hit>, e: Stored, k: nat)
    requires k < |e.records|
    ensures wanted + Wanted(fs, e.path, Encoder.Flat(e.records[..k + 1]))
         == wanted + Wanted(fs, e.path, Encoder.Flat(e.records[..k])) + Wanted(fs, e.path, Lines(e.records[k]))
  {
    var shown, lines := Encoder.Flat(e.records[..k]), Lines(e.records[k]);
    FlatNext(e.records, k);
    WantedOfBoth(fs, e.path, shown, lines);
    Assoc(wanted, Wanted(fs, e.path, shown), Wanted(fs, e.path, lines));
  }

  lemma {:induction false} EntryStep(fs: Sources, before: seq<Listing>, wanted: seq<Hit>, e: Stored, k: nat)
    requires Flushed(e) && There(fs, e) && k < |e.records| && EntryGood(fs, before, wanted, e, k)
    requires |before| > 0 ==> Starts(before[|before| - 1], e)
    ensures EntryGood(fs, before, wanted, e, k + 1)
  {
    LastBefore(before, e, k);
    EntryAppend(fs, before + AllUnfolded(Records(e, k)), wanted + Wanted(fs, e.path, Encoder.Flat(e.records[..k])), e, k);
    MoreListings(before, e, k);
    MoreWanted(fs, wanted, e, k);
  }

  lemma {:induction false} EntryIsGood(fs: Sources, before: seq<Listing>, wanted: seq<Hit>, e: Stored, k: nat)
    requires Flushed(e) && There(fs, e) && k <= |e.records| && EntryGood(fs, before, wanted, e, 0)
    requires |before| > 0 ==> Starts(before[|before| - 1], e)
    ensures EntryGood(fs, before, wanted, e, k)
    decreases k
  {
    if k > 0 {
      EntryIsGood(fs, before, wanted, e, k - 1);
      EntryStep(fs, before, wanted, e, k - 1);
    }
  }

  lemma WholeEntryIsGood(fs: Sources, before: seq<Listing>, wanted: seq<Hit>, e: Stored)
    requires Good(fs, before, wanted) && Flushed(e) && There(fs, e)
    requires |before| > 0 ==> Starts(before[|before| - 1], e)
    ensures Good(fs, before + ListingsOf(e), wanted + Wanted(fs, e.path, Encoder.Distinct(e.lines)))
  {
    NothingAdded(before);
    NothingAdded(wanted);
    EntryIsGood(fs, before, wanted, e, |e.records|);
    assert e.records[..|e.records|] == e.records;
  }

  lemma ListingsStep(records: seq<Tagline>, e: Stored, listings: seq<Listing>)
    requires AllUnfolded(records) == listings
    ensures AllUnfolded(records + Records(e, |e.records|)) == listings + ListingsOf(e)
  {
    UnfoldedOfBoth(records, Records(e, |e.records|));
  }

  ghost predicate ListingsFit(index: seq<Stored>, m: nat)
    requires m <= |index|
  {
    Listings(index, m) == AllUnfolded(Taglines(index, m)) && (m > 0 ==> ListingsFit(index, m - 1))
  }

  lemma {:induction false} ListingsAre(index: seq<Stored>, m: nat)
    requires m <= |index|
    ensures ListingsFit(index, m)
    decreases m
  {
    if m > 0 {
      ListingsAre(index, m - 1);
      ListingsStep(Taglines(index, m - 1), index[m - 1], Listings(index, m - 1));
    }
  }

  /** The listing is of a record of the entry. */
  predicate IsOf(l: Listing, e: Stored) {
    l.path == e.path && l.tag == e.tag && l.name == e.name
  }

  lemma LastOfEntry(e: Stored)
    requires |e.records| > 0
    ensures IsOf(ListingsOf(e)[|e.records| - 1], e)
  {
    var k := |e.records| - 1;
    UnfoldedNext(Records(e, k), Record(e, k));
  }

  lemma LastOfBoth(a: seq<Listing>, b: seq<Listing>, e: Stored)
    requires |a + b| > 0 && (if |b| > 0 then IsOf(b[|b| - 1], e) else IsOf(a[|a| - 1], e))
    ensures IsOf((a + b)[|a + b| - 1], e)
  {
  }

  /** Whose record the last one is. */
  lemma {:induction false} LastIsOf(index: seq<Stored>, m: nat) returns (j: nat)
    requires m <= |index| && |Listings(index, m)| > 0
    ensures j < m && IsOf(Listings(index, m)[|Listings(index, m)| - 1], index[j])
    decreases m
  {
    if |index[m - 1].records| > 0 {
      LastOfEntry(index[m - 1]);
      j := m - 1;
    } else {
      j := LastIsOf(index, m - 1);
    }
    LastOfBoth(Listings(index, m - 1), ListingsOf(index[m - 1]), index[j]);
  }

  lemma NextStarts(fs: Sources, index: seq<Stored>, m: nat)
    requires IndexOk(fs, index) && m < |index| && |Listings(index, m)| > 0
    ensures Starts(Listings(index, m)[|Listings(index, m)| - 1], index[m])
  {
    var j := LastIsOf(index, m);
    assert Separate(index[j], index[m]);
  }

  /** The listings of the first m entries are good, and those of fewer are. */
  ghost predicate IndexGood(fs: Sources, index: seq<Stored>, m: nat)
    requires m <= |index|
  {
    Good(fs, Listings(index, m), WantedOfIndex(fs, index, m)) && (m > 0 ==> IndexGood(fs, index, m - 1))
  }

  lemma {:induction false} IndexStep(fs: Sources, index: seq<Stored>, m: nat)
    requires IndexOk(fs, index) && m < |index| && IndexGood(fs, index, m)
    ensures IndexGood(fs, index, m + 1)
  {
    if |Listings(index, m)| > 0 {
      NextStarts(fs, index, m);
    }
    assert Flushed(index[m]) && There(fs, index[m]);
    WholeEntryIsGood(fs, Listings(index, m), WantedOfIndex(fs, index, m), index[m]);
  }

  lemma {:induction false} IndexIsGood(fs: Sources, index: seq<Stored>, m: nat)
    requires IndexOk(fs, index) && m <= |index|
    ensures IndexGood(fs, index, m)
    decreases m
  {
    if m > 0 {
      IndexIsGood(fs, index, m - 1);
      IndexStep(fs, index, m - 1);
    }
  }

  lemma {:induction false} RecordsWellFormed(e: Stored, k: nat)
    requires Flushed(e) && k <= |e.records|
    ensures AllWellFormed(Records(e, k))
    decreases k
  {
    if k > 0 {
      RecordsWellFormed(e, k - 1);
      assert e.records[k - 1] in e.records;
    }
  }

  lemma {:induction false} TaglinesWellFormed(fs: Sources, index: seq<Stored>, m: nat)
    requires IndexOk(fs, index) && m <= |index|
    ensures AllWellFormed(Taglines(index, m))
    decreases m
  {
    if m > 0 {
      TaglinesWellFormed(fs, index, m - 1);
      assert Flushed(index[m - 1]);
      RecordsWellFormed(index[m - 1], |index[m - 1].records|);
    }
  }

  /** The records of an index are in an order in which every line is shown right. */
  lemma IndexIsShown(fs: Sources, index: seq<Stored>)
    requires IndexOk(fs, index)
    ensures var taglines := Taglines(index, |index|);
            var listings := AllUnfolded(taglines);
            && AllWellFormed(taglines) && AllReadable(fs, listings) && InOrder(listings) && Forward(listings)
            && Output(fs, listings, |listings|) == WantedOfIndex(fs, index, |index|)
  {
    IndexIsGood(fs, index, |index|);
    TaglinesWellFormed(fs, index, |index|);
    ListingsAre(index, |index|);
    var listings := Listings(index, |index|);
    OutputIsWanted(fs, listings, |listings|);
  }

  /** A search of an index whose keys have one name in each file prints every line of the
      pools once, in order, each with its own image, wherever flush_pool has split the
      records. */
  method SearchIndex(searcher: Searcher, ghost index: seq<Stored>, taglines: seq<Tagline>)
    requires searcher.Valid() && searcher.Where() == START && searcher.out == []
    requires IndexOk(searcher.fs, index) && taglines == Taglines(index, |index|)
    modifies searcher
    ensures searcher.out == WantedOfIndex(searcher.fs, index, |index|)
  {
    IndexIsShown(searcher.fs, index);
    searcher.Search(taglines);
  }
}
