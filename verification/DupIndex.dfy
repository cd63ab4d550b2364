/** The duplicate index: a stream of tag lines is grouped into cache records, from which
    the source converter makes its anchors. */
module DupIndex {
  import opened CStrings
  import opened Decimal

  /** A line of the stream: its tag, and the text of its line number and file id. */
  datatype Line = Line(tag: string, lineno: string, fid: string)

  datatype Option<T> = None | Some(value: T)

  const BLANK := ' '

  // ----- the stream and its groups -----

  /** Tags are not empty, a line number does not begin with a blank, and no text has a NUL. */
  predicate LineOk(l: Line) {
    l.tag != [] && l.lineno != [] && l.lineno[0] != BLANK && NoNul(l.lineno) && NoNul(l.fid)
  }

  predicate LinesOk(s: seq<Line>) {
    forall i :: 0 <= i < |s| ==> LineOk(s[i])
  }

  /** Lines of one tag are not parted by another. */
  predicate Grouped(s: seq<Line>) {
    forall i, j, k :: 0 <= i < j < k < |s| && s[i].tag == s[k].tag ==> s[j].tag == s[i].tag
  }

  /** Where the run of lines that holds k begins. */
  function Start(s: seq<Line>, k: nat): (st: nat)
    requires k < |s|
    ensures st <= k && s[st].tag == s[k].tag
    ensures st > 0 ==> s[st - 1].tag != s[k].tag
  {
    if k > 0 && s[k - 1].tag == s[k].tag then Start(s, k - 1) else k
  }

  lemma {:induction false} RunHasTag(s: seq<Line>, k: nat, j: nat)
    requires k < |s| && Start(s, k) <= j <= k
    ensures s[j].tag == s[k].tag
    decreases k
  {
    if j < k {
      RunHasTag(s, k - 1, j);
    }
  }

  /** How many runs there are in the first k lines. */
  function Runs(s: seq<Line>, k: nat): (n: nat)
    requires k <= |s|
    ensures k > 0 ==> n > 0
  {
    if k == 0 then 0 else if k > 1 && s[k - 2].tag == s[k - 1].tag then Runs(s, k - 1) else Runs(s, k - 1) + 1
  }

  lemma {:induction false} RunsAtStart(s: seq<Line>, k: nat)
    requires k < |s|
    ensures Runs(s, k + 1) == Runs(s, Start(s, k)) + 1
    decreases k
  {
    if k > 0 && s[k - 1].tag == s[k].tag {
      RunsAtStart(s, k - 1);
    }
  }

  lemma {:induction false} RunsGrow(s: seq<Line>, j: nat, k: nat)
    requires j <= k <= |s|
    ensures Runs(s, j) <= Runs(s, k)
    decreases k - j
  {
    if j < k {
      RunsGrow(s, j, k - 1);
    }
  }

  predicate InGroup(s: seq<Line>, tag: string, st: nat, e: nat, j: nat)
    requires j < |s|
  {
    s[j].tag == tag <==> st <= j < e
  }

  /** The group of a tag: all its lines are those from st to e. */
  ghost predicate IsGroup(s: seq<Line>, tag: string, st: nat, e: nat) {
    st < e <= |s| && forall j {:trigger InGroup(s, tag, st, e, j)} :: 0 <= j < |s| ==> InGroup(s, tag, st, e, j)
  }

  predicate InLastRun(s: seq<Line>, tag: string, st: nat, e: nat, j: nat)
    requires j < |s|
  {
    (st <= j < e ==> s[j].tag == tag) && (j >= e || j + 1 == st ==> s[j].tag != tag)
  }

  /** The last run of a tag: the lines from st to e are all of it, and none comes later. */
  ghost predicate IsLastRun(s: seq<Line>, tag: string, st: nat, e: nat) {
    st < e <= |s| && forall j {:trigger InLastRun(s, tag, st, e, j)} :: 0 <= j < |s| ==> InLastRun(s, tag, st, e, j)
  }

  lemma GroupIsLastRun(s: seq<Line>, tag: string, st: nat, e: nat)
    requires IsGroup(s, tag, st, e)
    ensures IsLastRun(s, tag, st, e)
  {
    forall j | 0 <= j < |s| ensures InLastRun(s, tag, st, e, j) {
      assert InGroup(s, tag, st, e, j);
    }
  }

  // ----- records -----

  function LineRecord(l: Line): string {
    l.lineno + [NUL] + l.fid + [NUL]
  }

  function PageRecord(id: nat, count: nat): string {
    [BLANK] + Numeral(id) + [NUL] + Numeral(count) + [NUL]
  }

  /** The cache record of a run: its line, or the number of its page and of its lines. */
  function Record(s: seq<Line>, st: nat, e: nat): string
    requires st < e <= |s|
  {
    if e - st == 1 then LineRecord(s[st]) else PageRecord(Runs(s, st) + 1, e - st)
  }

  /** The records of the runs that end at k or before. */
  function Cache(s: seq<Line>, k: nat): map<string, string>
    requires k <= |s|
  {
    if k == 0 then map[]
    else
      var st := Start(s, k - 1);
      Cache(s, st)[s[st].tag := Record(s, st, k)]
  }

  /** The pages of the runs of two lines or more that end at k or before. */
  function Pages(s: seq<Line>, k: nat): map<nat, seq<Line>>
    requires k <= |s|
  {
    if k == 0 then map[]
    else
      var st := Start(s, k - 1);
      if k - st == 1 then Pages(s, st) else Pages(s, st)[Runs(s, st) + 1 := s[st..k]]
  }

  // ----- the code -----

  class DupIndex {
    const dynamic: bool
    var cache: map<string, string>
    var pages: map<nat, seq<Line>>
    /** The loop of makedupindex. */
    var prev: string
    var first: Option<Line>
    var writing: bool
    var count: nat
    var entryCount: nat
    /** The page that is being written, and its number. */
    var page: seq<Line>
    var pageId: nat

    constructor (dynamic: bool)
      ensures this.dynamic == dynamic && cache == map[] && pages == map[] && Fresh() && count == 0
    {
      this.dynamic := dynamic;
      cache, pages, prev, first, writing, count, entryCount, page, pageId := map[], map[], [], None, false, 0, 0, [], 0;
    }

    predicate Fresh()
      reads this
    {
      prev == [] && first == None && !writing
    }

    /** The state after the first k lines: the last run, from st on, is still open. */
    ghost predicate After(s: seq<Line>, k: nat)
      requires k <= |s|
      reads this
    {
      if k == 0 then Fresh() && cache == map[] && pages == map[]
      else
        var st := Start(s, k - 1);
        && prev == s[st].tag && cache == Cache(s, st)
        && pages == (if dynamic then map[] else Pages(s, st))
        && (k - st == 1 ==> first == Some(s[st]) && !writing && entryCount == 0)
        && (k - st > 1 ==> first == None && writing && entryCount == k - st && PageIs(s, st, k))
    }

    ghost predicate PageIs(s: seq<Line>, st: nat, k: nat)
      requires st <= k <= |s|
      reads `page, `pageId
    {
      !dynamic ==> page == s[st..k] && pageId == Runs(s, st) + 1
    }

    /** cache_put for a tag that has a page, which is closed. */
    method PutPage(n: nat)
      modifies `cache, `pages, `writing
      ensures cache == old(cache)[prev := PageRecord(n, entryCount)] && !writing
      ensures pages == if dynamic then old(pages) else old(pages)[pageId := page]
    {
      if !dynamic {
        pages := pages[pageId := page];
      }
      writing := false;
      cache := cache[prev := PageRecord(n, entryCount)];
    }

    /** cache_put for a tag with a single line. */
    method PutLine(l: Line)
      modifies `cache
      ensures cache == old(cache)[prev := LineRecord(l)]
    {
      cache := cache[prev := LineRecord(l)];
    }

    /** What is to be put when the run that is open ends. */
    lemma OpenRun(s: seq<Line>, k: nat)
      requires 0 < k <= |s| && After(s, k)
      ensures writing == first.None?
      ensures var st := Start(s, k - 1);
              && Runs(s, k) == Runs(s, st) + 1
              && (writing ==>
                    && Cache(s, k) == cache[prev := PageRecord(Runs(s, k), entryCount)]
                    && (!dynamic ==> Pages(s, k) == pages[pageId := page]))
              && (first.Some? ==>
                    && Cache(s, k) == cache[prev := LineRecord(first.value)]
                    && (!dynamic ==> Pages(s, k) == pages))
    {
      RunsAtStart(s, k - 1);
    }

    /** The record of the run that has ended, if there is one. */
    method CloseRun(ghost s: seq<Line>, ghost k: nat, n: nat)
      requires k <= |s| && After(s, k) && n == Runs(s, k)
      modifies `cache, `pages, `writing
      ensures cache == Cache(s, k) && pages == (if dynamic then map[] else Pages(s, k)) && !writing
    {
      if k > 0 {
        OpenRun(s, k);
      }
      if writing {
        PutPage(n);
      }
      if first.Some? {
        PutLine(first.value);
      }
    }

    /** A line with another tag than the one before. */
    method NewTag(l: Line, ghost s: seq<Line>, ghost k: nat)
      requires k < |s| && After(s, k) && count == Runs(s, k) && l == s[k] && l.tag != prev && LineOk(l)
      modifies this
      ensures After(s, k + 1) && count == Runs(s, k + 1)
    {
      count := count + 1;
      CloseRun(s, k, count - 1);
      assert Start(s, k) == k;
      first, prev, entryCount := Some(l), l.tag, 0;
    }

    /** The second line of a tag begins its page, with the first line on it. */
    method BeginPage(ghost s: seq<Line>, ghost k: nat)
      requires 0 < k < |s| && After(s, k) && count == Runs(s, k) && s[k].tag == prev
      modifies `first, `writing, `entryCount, `page, `pageId
      ensures var st := Start(s, k - 1);
              first == None && writing && entryCount == k - st && PageIs(s, st, k)
    {
      RunsAtStart(s, k - 1);
      ghost var st := Start(s, k - 1);
      if first.Some? {
        if !dynamic {
          pageId, page := count, [first.value];
          assert page == s[st..k];
        }
        writing, entryCount, first := true, entryCount + 1, None;
      }
    }

    /** A line with the same tag as the one before. */
    method SameTag(l: Line, ghost s: seq<Line>, ghost k: nat)
      requires k < |s| && After(s, k) && count == Runs(s, k) && l == s[k] && l.tag == prev && LineOk(l)
      modifies `first, `writing, `entryCount, `page, `pageId
      ensures After(s, k + 1) && count == Runs(s, k + 1)
    {
      BeginPage(s, k);
      AddToPage(l, s, Start(s, k - 1), k);
      assert Start(s, k) == Start(s, k - 1);
    }

    method AddToPage(l: Line, ghost s: seq<Line>, ghost st: nat, ghost k: nat)
      requires st <= k < |s| && l == s[k] && PageIs(s, st, k)
      modifies `entryCount, `page
      ensures entryCount == old(entryCount) + 1 && PageIs(s, st, k + 1)
    {
      assert s[st..k] + [l] == s[st..k + 1];
      if !dynamic {
        page := page + [l];
      }
      entryCount := entryCount + 1;
    }

    /** The loop of makedupindex over the lines of one tag file. */
    method MakeIndex(s: seq<Line>)
      requires LinesOk(s) && Fresh() && count == 0 && cache == map[] && pages == map[]
      modifies this
      ensures cache == Cache(s, |s|) && pages == if dynamic then map[] else Pages(s, |s|)
    {
      var k := 0;
      while k < |s|
        invariant 0 <= k <= |s| && After(s, k) && count == Runs(s, k)
      {
        NextLine(s[k], s, k);
        k := k + 1;
      }
      CloseRun(s, |s|, count);
    }

    method NextLine(l: Line, ghost s: seq<Line>, ghost k: nat)
      requires k < |s| && LinesOk(s) && After(s, k) && count == Runs(s, k) && l == s[k]
      modifies this
      ensures After(s, k + 1) && count == Runs(s, k + 1)
    {
      assert LineOk(s[k]);
      if l.tag != prev {
        NewTag(l, s, k);
      } else {
        SameTag(l, s, k);
      }
    }
  }

  // ----- what an anchor is made from -----

  datatype Anchor = NoAnchor | PageAnchor(id: string, count: string) | LineAnchor(fid: string, lineno: string)

  /** put_anchor: what it takes from the cache record of a tag. */
  function PutAnchor(cache: map<string, string>, tag: string): Anchor {
    if tag !in cache then NoAnchor
    else
      var r := cache[tag];
      if r != [] && r[0] == BLANK then PageAnchor(CString(r, 1), CString(r, NextString(r, 1)))
      else LineAnchor(CString(r, NextString(r, 0)), CString(r, 0))
  }

  lemma NumeralHasNoNul(n: nat)
    ensures NoNul(Numeral(n)) && Numeral(n) != []
  {
    NumeralIsDigits(n);
    forall i | 0 <= i < |Numeral(n)| ensures Numeral(n)[i] != NUL {
      assert IsDigit(Numeral(n)[i]);
    }
  }

  // ----- anchors are faithful to the stream -----

  /** A run ends before k. */
  predicate Boundary(s: seq<Line>, k: nat)
    requires k <= |s|
  {
    0 < k < |s| ==> s[k - 1].tag != s[k].tag
  }

  lemma {:induction false} RunStart(s: seq<Line>, tag: string, st: nat, e: nat, k: nat)
    requires IsLastRun(s, tag, st, e) && st <= k < e
    ensures Start(s, k) == st
    decreases k
  {
    assert InLastRun(s, tag, st, e, k);
    assert k > 0 ==> InLastRun(s, tag, st, e, k - 1);
    if st < k {
      RunStart(s, tag, st, e, k - 1);
    }
  }

  /** The run before a boundary after the last run of a tag lies after it too. */
  lemma LaterRun(s: seq<Line>, tag: string, st: nat, e: nat, k: nat)
    requires IsLastRun(s, tag, st, e) && e < k <= |s|
    ensures e <= Start(s, k - 1) && s[k - 1].tag != tag && Boundary(s, Start(s, k - 1))
    ensures Runs(s, st) < Runs(s, Start(s, k - 1))
  {
    var b := Start(s, k - 1);
    assert InLastRun(s, tag, st, e, k - 1) && InLastRun(s, tag, st, e, e - 1);
    if b < e {
      RunHasTag(s, k - 1, e - 1);
    }
    RunStart(s, tag, st, e, e - 1);
    RunsAtStart(s, e - 1);
    RunsGrow(s, e, b);
  }

  /** A run with another tag leaves the records and pages before it as they are. */
  lemma OtherRun(s: seq<Line>, tag: string, id: nat, k: nat)
    requires 0 < k <= |s| && s[k - 1].tag != tag && id <= Runs(s, Start(s, k - 1))
    ensures tag in Cache(s, Start(s, k - 1)) ==> tag in Cache(s, k) && Cache(s, k)[tag] == Cache(s, Start(s, k - 1))[tag]
    ensures id in Pages(s, Start(s, k - 1)) ==> id in Pages(s, k) && Pages(s, k)[id] == Pages(s, Start(s, k - 1))[id]
  {
  }

  /** The cache and the pages have what was written for the run from st to e. */
  ghost predicate Kept(s: seq<Line>, tag: string, st: nat, e: nat, k: nat)
    requires st < e <= |s| && k <= |s|
  {
    && tag in Cache(s, k) && Cache(s, k)[tag] == Record(s, st, e)
    && (e - st > 1 ==> Runs(s, st) + 1 in Pages(s, k) && Pages(s, k)[Runs(s, st) + 1] == s[st..e])
  }

  lemma RecordIsPut(s: seq<Line>, tag: string, st: nat, e: nat)
    requires IsLastRun(s, tag, st, e)
    ensures Kept(s, tag, st, e, e)
  {
    assert InLastRun(s, tag, st, e, st);
    RunStart(s, tag, st, e, e - 1);
  }

  lemma KeptOverRun(s: seq<Line>, tag: string, st: nat, e: nat, k: nat)
    requires IsLastRun(s, tag, st, e) && e < k <= |s| && Kept(s, tag, st, e, Start(s, k - 1))
    ensures Kept(s, tag, st, e, k)
  {
    LaterRun(s, tag, st, e, k);
    OtherRun(s, tag, Runs(s, st) + 1, k);
  }

  /** The record and the page of the last run of a tag stay as they were written. */
  lemma {:induction false} RecordIsKept(s: seq<Line>, tag: string, st: nat, e: nat, k: nat)
    requires IsLastRun(s, tag, st, e) && e <= k <= |s| && Boundary(s, k)
    ensures Kept(s, tag, st, e, k)
    decreases k
  {
    if e == k {
      RecordIsPut(s, tag, st, e);
    } else {
      LaterRun(s, tag, st, e, k);
      RecordIsKept(s, tag, st, e, Start(s, k - 1));
      KeptOverRun(s, tag, st, e, k);
    }
  }

  lemma {:induction false} NoRecord(s: seq<Line>, tag: string, k: nat)
    requires k <= |s| && forall j :: 0 <= j < |s| ==> s[j].tag != tag
    ensures tag !in Cache(s, k)
    decreases k
  {
    if k > 0 {
      NoRecord(s, tag, Start(s, k - 1));
    }
  }

  lemma DecodeLine(cache: map<string, string>, tag: string, l: Line)
    requires LineOk(l) && tag in cache && cache[tag] == LineRecord(l)
    ensures PutAnchor(cache, tag) == LineAnchor(l.fid, l.lineno)
  {
    TwoStrings([], l.lineno, l.fid);
    assert [] + l.lineno + [NUL] + l.fid + [NUL] == LineRecord(l);
  }

  lemma DecodePage(cache: map<string, string>, tag: string, id: nat, count: nat)
    requires tag in cache && cache[tag] == PageRecord(id, count)
    ensures PutAnchor(cache, tag) == PageAnchor(Numeral(id), Numeral(count))
  {
    NumeralHasNoNul(id);
    NumeralHasNoNul(count);
    TwoStrings([BLANK], Numeral(id), Numeral(count));
  }

  lemma LineIsDecoded(s: seq<Line>, cache: map<string, string>, tag: string, st: nat)
    requires st < |s| && LineOk(s[st]) && tag in cache && cache[tag] == Record(s, st, st + 1)
    ensures PutAnchor(cache, tag) == LineAnchor(s[st].fid, s[st].lineno)
  {
    DecodeLine(cache, tag, s[st]);
  }

  lemma PageIsDecoded(s: seq<Line>, cache: map<string, string>, tag: string, st: nat, e: nat)
    requires st + 1 < e <= |s| && tag in cache && cache[tag] == Record(s, st, e)
    ensures PutAnchor(cache, tag) == PageAnchor(Numeral(Runs(s, st) + 1), Numeral(e - st))
  {
    DecodePage(cache, tag, Runs(s, st) + 1, e - st);
  }

  lemma RunPageAnchor(s: seq<Line>, tag: string, st: nat, e: nat)
    requires IsLastRun(s, tag, st, e) && st + 1 < e
    ensures PutAnchor(Cache(s, |s|), tag) == PageAnchor(Numeral(Runs(s, st) + 1), Numeral(e - st))
  {
    RecordIsKept(s, tag, st, e, |s|);
    PageIsDecoded(s, Cache(s, |s|), tag, st, e);
  }

  lemma RunPage(s: seq<Line>, tag: string, st: nat, e: nat)
    requires IsLastRun(s, tag, st, e) && st + 1 < e
    ensures Runs(s, st) + 1 in Pages(s, |s|) && Pages(s, |s|)[Runs(s, st) + 1] == s[st..e]
  {
    RecordIsKept(s, tag, st, e, |s|);
  }

  /** Of a tag with several runs, the anchor is that of the last. */
  lemma LastRunAnchor(s: seq<Line>, tag: string, st: nat, e: nat)
    requires IsLastRun(s, tag, st, e) && LineOk(s[st])
    ensures PutAnchor(Cache(s, |s|), tag) ==
            if e - st == 1 then LineAnchor(s[st].fid, s[st].lineno)
            else PageAnchor(Numeral(Runs(s, st) + 1), Numeral(e - st))
  {
    if e - st == 1 {
      RecordIsKept(s, tag, st, e, |s|);
      LineIsDecoded(s, Cache(s, |s|), tag, st);
    } else {
      RunPageAnchor(s, tag, st, e);
    }
  }

  /** The anchor of a tag with one line leads to that line. */
  lemma LineAnchorIsFaithful(s: seq<Line>, tag: string, st: nat)
    requires IsGroup(s, tag, st, st + 1) && LineOk(s[st])
    ensures PutAnchor(Cache(s, |s|), tag) == LineAnchor(s[st].fid, s[st].lineno)
  {
    GroupIsLastRun(s, tag, st, st + 1);
    LastRunAnchor(s, tag, st, st + 1);
  }

  /** The anchor of any other tag shows the true number of its lines, and leads to a
      page that lists exactly them, in their order. */
  lemma PageAnchorIsFaithful(s: seq<Line>, tag: string, st: nat, e: nat)
    requires e - st > 1 && IsGroup(s, tag, st, e)
    ensures var id := Runs(s, st) + 1;
            && id in Pages(s, |s|) && Pages(s, |s|)[id] == s[st..e]
            && PutAnchor(Cache(s, |s|), tag) == PageAnchor(Numeral(id), Numeral(e - st))
  {
    GroupIsLastRun(s, tag, st, e);
    RunPage(s, tag, st, e);
    RunPageAnchor(s, tag, st, e);
  }

  // ----- tags with several runs -----

  /** How many of the first k lines have the tag. */
  function CountTo(s: seq<Line>, tag: string, k: nat): nat
    requires k <= |s|
  {
    if k == 0 then 0 else CountTo(s, tag, k - 1) + if s[k - 1].tag == tag then 1 else 0
  }

  lemma {:induction false} CountGrows(s: seq<Line>, tag: string, i: nat, k: nat)
    requires i <= k <= |s|
    ensures (forall j :: i <= j < k ==> s[j].tag == tag) ==> CountTo(s, tag, k) == CountTo(s, tag, i) + (k - i)
    ensures CountTo(s, tag, i) <= CountTo(s, tag, k)
    ensures CountTo(s, tag, k) == CountTo(s, tag, i) <==> forall j :: i <= j < k ==> s[j].tag != tag
    decreases k - i
  {
    if i < k {
      CountGrows(s, tag, i, k - 1);
    }
  }

  /** What an anchor says of the number of lines of its tag. */
  predicate Shows(a: Anchor, n: nat) {
    match a
    case NoAnchor => n == 0
    case LineAnchor(_, _) => n == 1
    case PageAnchor(_, count) => count == Numeral(n)
  }

  /** Every tag of the stream has a last run. */
  lemma LastRunOf(s: seq<Line>, k: nat) returns (st: nat, e: nat)
    requires k < |s|
    ensures IsLastRun(s, s[k].tag, st, e)
  {
    e := |s|;
    while s[e - 1].tag != s[k].tag
      invariant k < e <= |s| && forall j :: e <= j < |s| ==> s[j].tag != s[k].tag
      decreases e
    {
      e := e - 1;
    }
    st := Start(s, e - 1);
    forall j | 0 <= j < |s| ensures InLastRun(s, s[k].tag, st, e, j) {
      if st <= j < e {
        RunHasTag(s, e - 1, j);
      }
    }
  }

  /** No line before the last run has the tag. */
  predicate OnlyRun(s: seq<Line>, tag: string, st: nat)
    requires st <= |s|
  {
    forall j :: 0 <= j < st ==> s[j].tag != tag
  }

  lemma OnlyRunIsGroup(s: seq<Line>, tag: string, st: nat, e: nat)
    requires IsLastRun(s, tag, st, e)
    ensures OnlyRun(s, tag, st) <==> IsGroup(s, tag, st, e)
  {
    if OnlyRun(s, tag, st) {
      forall j | 0 <= j < |s| ensures InGroup(s, tag, st, e, j) {
        assert InLastRun(s, tag, st, e, j);
      }
    }
    if IsGroup(s, tag, st, e) {
      forall j | 0 <= j < st ensures s[j].tag != tag {
        assert InGroup(s, tag, st, e, j);
      }
    }
  }

  lemma RunIsAll(s: seq<Line>, tag: string, st: nat, e: nat)
    requires IsLastRun(s, tag, st, e)
    ensures CountTo(s, tag, |s|) == e - st <==> IsGroup(s, tag, st, e)
    ensures CountTo(s, tag, |s|) >= e - st
  {
    OnlyRunIsGroup(s, tag, st, e);
    forall j | st <= j < |s| ensures s[j].tag == tag <==> j < e {
      assert InLastRun(s, tag, st, e, j);
    }
    CountGrows(s, tag, 0, st);
    CountGrows(s, tag, st, e);
    CountGrows(s, tag, e, |s|);
  }

  /** The number that the anchor of a tag shows is true exactly if the tag has one run. */
  lemma CountIsTrue(s: seq<Line>, tag: string, st: nat, e: nat)
    requires IsLastRun(s, tag, st, e) && LineOk(s[st])
    ensures Shows(PutAnchor(Cache(s, |s|), tag), CountTo(s, tag, |s|)) <==> IsGroup(s, tag, st, e)
  {
    LastRunAnchor(s, tag, st, e);
    RunIsAll(s, tag, st, e);
    var n := CountTo(s, tag, |s|);
    if e - st > 1 && Numeral(e - st) == Numeral(n) {
      NumeralsDiffer(e - st, n);
    }
  }

  lemma TwoRuns(f: Line, g: Line, h: Line)
    requires LineOk(f) && LineOk(g) && LineOk(h) && f.tag == h.tag != g.tag
    ensures var s := [f, g, h];
            LinesOk(s) && CountTo(s, f.tag, 3) == 2 && !Shows(PutAnchor(Cache(s, 3), f.tag), 2)
  {
    var s := [f, g, h];
    assert s[0] == f && s[1] == g && s[2] == h;
    assert InLastRun(s, f.tag, 2, 3, 0) && InLastRun(s, f.tag, 2, 3, 1) && InLastRun(s, f.tag, 2, 3, 2);
    LastRunAnchor(s, f.tag, 2, 3);
    assert CountTo(s, f.tag, 0) == 0;
    assert CountTo(s, f.tag, 1) == 1;
    assert CountTo(s, f.tag, 2) == 1;
  }

  /** `A::f` and `B::f` have one key, and lines come in the order of keys, files and line
      numbers: with a line of `B::f` between its two, the anchor of `A::f` says one. */
  lemma TwoRunsExample()
    ensures var s := [Line("A::f", "1", "7"), Line("B::f", "2", "7"), Line("A::f", "3", "7")];
            LinesOk(s) && CountTo(s, "A::f", 3) == 2 && !Shows(PutAnchor(Cache(s, 3), "A::f"), 2)
  {
    assert "A::f"[0] != "B::f"[0];
    TwoRuns(Line("A::f", "1", "7"), Line("B::f", "2", "7"), Line("A::f", "3", "7"));
  }

  /** The anchors of different tags lead to different pages. */
  lemma PagesDiffer(s: seq<Line>, t: string, st: nat, e: nat, u: string, st': nat, e': nat)
    requires IsGroup(s, t, st, e) && IsGroup(s, u, st', e') && st < st'
    ensures Numeral(Runs(s, st) + 1) != Numeral(Runs(s, st') + 1)
  {
    assert InGroup(s, u, st', e', st') && InGroup(s, u, st', e', st);
    assert InGroup(s, t, st, e, st') && InGroup(s, t, st, e, st);
    GroupIsLastRun(s, t, st, e);
    GroupIsLastRun(s, u, st', e');
    RunStart(s, u, st', e', e' - 1);
    if e < e' {
      LaterRun(s, t, st, e, e');
    }
    if Numeral(Runs(s, st) + 1) == Numeral(Runs(s, st') + 1) {
      NumeralsDiffer(Runs(s, st) + 1, Runs(s, st') + 1);
    }
  }

  /** In a grouped stream every line belongs to a group. */
  lemma GroupOf(s: seq<Line>, k: nat) returns (st: nat, e: nat)
    requires Grouped(s) && k < |s|
    ensures IsGroup(s, s[k].tag, st, e) && st <= k < e
  {
    st, e := Start(s, k), k + 1;
    while e < |s| && s[e].tag == s[k].tag
      invariant k < e <= |s| && forall j :: k < j < e ==> s[j].tag == s[k].tag
    {
      e := e + 1;
    }
    forall j | 0 <= j < |s| ensures InGroup(s, s[k].tag, st, e, j) {
      if st <= j <= k {
        RunHasTag(s, k, j);
      }
    }
  }
}
