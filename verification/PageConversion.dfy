/** Byte-order conversion of btree pages, in place: where the words of a page are is
    itself written in words that are converted. */
module PageConversion {
  type Byte = x: int | 0 <= x < 256

  datatype Order = Little | Big

  function Other(e: Order): Order {
    if e == Little then Big else Little
  }

  const P_META := 0
  const P_BINTERNAL := 1
  const P_BLEAF := 2
  const PGNO := 0
  const PREVPG := 4
  const NEXTPG := 8
  const FLAGS := 12
  const LOWER := 16
  const UPPER := 18
  /** BTDATAOFF, where the index slots begin. */
  const LINP := 20

  /** A 16-bit number of the page. */
  function Read16(s: seq<Byte>, e: Order, at: nat): nat
    requires at + 2 <= |s|
  {
    var lo: int, hi: int := s[at], s[at + 1];
    if e == Little then lo + 256 * hi else hi + 256 * lo
  }

  /** flags & P_TYPE, which is in the low byte of a 32-bit number. */
  function Kind(s: seq<Byte>, e: Order): nat
    requires LINP <= |s|
  {
    (if e == Little then s[FLAGS] else s[FLAGS + 3]) % 32
  }

  /** NEXTINDEX, computed in 64 bits and kept in 16. */
  function NextIndex(lower: nat): nat {
    (lower + 0x1_0000_0000_0000_0000 - LINP) % 0x1_0000_0000_0000_0000 / 2 % 0x1_0000
  }

  function Top(s: seq<Byte>, e: Order): nat
    requires LINP <= |s|
  {
    NextIndex(Read16(s, e, LOWER))
  }

  predicate HasItems(kind: nat) {
    kind == P_BINTERNAL || kind == P_BLEAF
  }

  // ----- swapping words -----

  /** A set of words, as a map from each of their bytes to the byte it changes places with. */
  type Words = map<int, int>

  function Word(at: int): Words {
    map[at := at + 3, at + 1 := at + 2, at + 2 := at + 1, at + 3 := at]
  }

  function Half(at: int): Words {
    map[at := at + 1, at + 1 := at]
  }

  /** A byte that is read, and must stay. */
  function Fixed(at: int): Words {
    map[at := at]
  }

  function Pair(at: int): Words {
    Word(at) + Word(at + 4)
  }

  /** The byte at k lies on a page of n bytes, and so does the one it changes places with. */
  predicate Mutual(w: Words, n: nat, k: int) {
    k in w ==> 0 <= k < n && 0 <= w[k] < n && w[k] in w && w[w[k]] == k
  }

  ghost predicate Fits(w: Words, n: nat) {
    forall k {:trigger Mutual(w, n, k)} :: Mutual(w, n, k)
  }

  /** The byte at k is not in both. */
  predicate Separate(v: Words, w: Words, k: int) {
    k in v ==> k !in w
  }

  ghost predicate Apart(v: Words, w: Words) {
    forall k {:trigger Separate(v, w, k)} :: Separate(v, w, k)
  }

  /** Where a byte of the result comes from. */
  function Source(w: Words, k: int): int {
    if k in w then w[k] else k
  }

  predicate SwappedAt(a: seq<Byte>, b: seq<Byte>, w: Words, k: int)
    requires 0 <= k < |b|
  {
    0 <= Source(w, k) < |a| && b[k] == a[Source(w, k)]
  }

  /** b is a with the words w swapped, and everything else the same. */
  ghost predicate Swapped(a: seq<Byte>, b: seq<Byte>, w: Words) {
    |a| == |b| && Fits(w, |a|) && forall k {:trigger SwappedAt(a, b, w, k)} :: 0 <= k < |b| ==> SwappedAt(a, b, w, k)
  }

  /** Swapping the same words twice restores every byte. */
  lemma SwapTwice(a: seq<Byte>, b: seq<Byte>, c: seq<Byte>, w: Words)
    requires Swapped(a, b, w) && Swapped(b, c, w)
    ensures a == c
  {
    forall k | 0 <= k < |c| ensures c[k] == a[k] {
      assert Mutual(w, |a|, k);
      assert SwappedAt(b, c, w, k) && SwappedAt(a, b, w, Source(w, k));
    }
  }

  lemma FitsBoth(v: Words, w: Words, n: nat)
    requires Fits(v, n) && Fits(w, n) && Apart(v, w)
    ensures Fits(v + w, n)
  {
    forall k ensures Mutual(v + w, n, k) {
      assert Mutual(v, n, k) && Mutual(w, n, k) && Separate(v, w, k);
      assert k in v ==> Separate(v, w, v[k]);
    }
  }

  /** Words apart from each other can be swapped one after the other. */
  lemma SwapBoth(a: seq<Byte>, b: seq<Byte>, c: seq<Byte>, v: Words, w: Words)
    requires Swapped(a, b, v) && Swapped(b, c, w) && Apart(v, w)
    ensures Swapped(a, c, v + w)
  {
    FitsBoth(v, w, |a|);
    forall k | 0 <= k < |c| ensures SwappedAt(a, c, v + w, k) {
      assert SwappedAt(b, c, w, k) && Mutual(w, |a|, k);
      assert SwappedAt(a, b, v, Source(w, k)) && Separate(v, w, Source(w, k)) && Separate(v, w, k);
    }
  }

  predicate InRange(w: Words, lo: int, hi: int, k: int) {
    k in w ==> lo <= k < hi
  }

  /** The words lie between lo and hi. */
  ghost predicate Between(w: Words, lo: int, hi: int) {
    forall k {:trigger InRange(w, lo, hi, k)} :: InRange(w, lo, hi, k)
  }

  lemma BetweenApart(v: Words, w: Words, lo: int, mid: int, mid': int, hi: int)
    requires Between(v, lo, mid) && Between(w, mid', hi) && mid <= mid'
    ensures Apart(v, w)
  {
    forall k ensures Separate(v, w, k) {
      assert InRange(v, lo, mid, k) && InRange(w, mid', hi, k);
    }
  }

  lemma BetweenBoth(v: Words, w: Words, lo: int, mid: int, mid': int, hi: int)
    requires Between(v, lo, mid) && Between(w, mid', hi) && lo <= mid <= mid' <= hi
    ensures Between(v + w, lo, hi)
  {
    forall k ensures InRange(v + w, lo, hi, k) {
      assert InRange(v, lo, mid, k) && InRange(w, mid', hi, k);
    }
  }

  /** Words that follow others are swapped after them. */
  lemma InTurn(a: seq<Byte>, b: seq<Byte>, c: seq<Byte>, v: Words, w: Words, lo: int, mid: int, mid': int, hi: int)
    requires Swapped(a, b, v) && Swapped(b, c, w)
    requires Between(v, lo, mid) && Between(w, mid', hi) && lo <= mid <= mid' <= hi
    ensures Swapped(a, c, v + w) && Between(v + w, lo, hi)
  {
    BetweenApart(v, w, lo, mid, mid', hi);
    SwapBoth(a, b, c, v, w);
    BetweenBoth(v, w, lo, mid, mid', hi);
  }

  lemma SwapNothing(a: seq<Byte>, lo: int, hi: int)
    ensures Swapped(a, a, map[]) && Between(map[], lo, hi)
  {
  }

  lemma BetweenWider(w: Words, lo: int, hi: int, lo': int, hi': int)
    requires Between(w, lo, hi) && lo' <= lo && hi <= hi'
    ensures Between(w, lo', hi')
  {
    forall k ensures InRange(w, lo', hi', k) {
      assert InRange(w, lo, hi, k);
    }
  }

  /** The order of swaps apart from each other does not matter. */
  lemma SumCommutes(v: Words, w: Words)
    requires Apart(v, w)
    ensures v + w == w + v
  {
    forall k | k in v + w ensures (v + w)[k] == (w + v)[k] {
      assert Separate(v, w, k);
    }
  }

  // ----- the words of a page -----

  function Header(): Words {
    Pair(PGNO) + Pair(NEXTPG) + Half(LOWER) + Half(UPPER)
  }

  /** Six words in a row. */
  function SixWords(at: int): Words {
    Pair(at) + Pair(at + 8) + Pair(at + 16)
  }

  function Meta(): Words {
    SixWords(0)
  }

  function Slot(i: nat): Words {
    Half(LINP + 2 * i)
  }

  predicate BigData(flags: Byte) {
    flags % 2 == 1
  }

  predicate BigKey(flags: Byte) {
    flags / 2 % 2 == 1
  }

  /** The page references after the fixed part of an item. */
  function References(kind: nat, at: int, flags: Byte): Words {
    if kind == P_BINTERNAL then (if BigKey(flags) then Pair(at) else map[])
    else if BigKey(flags) then (if BigData(flags) then Pair(at) + Pair(at + 8) else Pair(at))
    else if BigData(flags) then Pair(at + 4)
    else map[]
  }

  /** The words of the item at off. */
  function Body(kind: nat, off: nat, flags: Byte): Words {
    Pair(off) + Fixed(off + 8) + References(kind, off + 9, flags)
  }

  /** The words of an item, given its offset and its flags. */
  type Format = (nat, Byte) -> Words

  /** The slot at i lies on the page and addresses an item that begins on it. */
  predicate SlotOk(s: seq<Byte>, e: Order, i: nat) {
    LINP + 2 * i + 2 <= |s| && Read16(s, e, LINP + 2 * i) + 9 <= |s|
  }

  function BodyAt(s: seq<Byte>, e: Order, f: Format, i: nat): Words
    requires SlotOk(s, e, i)
  {
    var off := Read16(s, e, LINP + 2 * i);
    f(off, s[off + 8])
  }

  function Item(s: seq<Byte>, e: Order, f: Format, i: nat): Words
    requires SlotOk(s, e, i)
  {
    Slot(i) + BodyAt(s, e, f, i)
  }

  /** The words of an item lie on the page; its slot and its flags are not among those
      that its slot addresses. */
  ghost predicate ItemOk(s: seq<Byte>, e: Order, f: Format, i: nat) {
    && SlotOk(s, e, i) && Fits(BodyAt(s, e, f, i), |s|) && Apart(Slot(i), BodyAt(s, e, f, i))
    && Stays(BodyAt(s, e, f, i), Read16(s, e, LINP + 2 * i) + 8)
  }

  predicate Stays(w: Words, k: int) {
    k in w && w[k] == k
  }

  /** The words of the first n items. */
  ghost function ItemsTo(s: seq<Byte>, e: Order, f: Format, n: nat): Words
    requires ItemsOk(s, e, f, n)
    decreases n, 1
  {
    if n == 0 then map[] else ItemsTo(s, e, f, n - 1) + Item(s, e, f, n - 1)
  }

  /** The words of the first n items lie on the page, apart from each other and from the header. */
  ghost predicate ItemsOk(s: seq<Byte>, e: Order, f: Format, n: nat)
    decreases n, 0
  {
    n > 0 ==>
      && ItemsOk(s, e, f, n - 1) && ItemOk(s, e, f, n - 1)
      && Apart(Header(), Item(s, e, f, n - 1)) && Apart(ItemsTo(s, e, f, n - 1), Item(s, e, f, n - 1))
  }

  // ----- the words are found again in the other byte order -----

  ghost predicate Within(v: Words, w: Words) {
    forall k {:trigger k in v} {:trigger v[k]} :: k in v ==> k in w && w[k] == v[k]
  }

  lemma WithinBoth(v: Words, w: Words)
    requires Apart(v, w)
    ensures Within(v, v + w) && Within(w, v + w)
  {
    forall k | k in v ensures k in v + w && (v + w)[k] == v[k] {
      assert Separate(v, w, k);
    }
  }

  lemma WithinWithin(u: Words, v: Words, w: Words)
    requires Within(u, v) && Within(v, w)
    ensures Within(u, w)
  {
  }

  lemma ReadHalf(a: seq<Byte>, b: seq<Byte>, w: Words, e: Order, at: nat)
    requires Swapped(a, b, w) && Within(Half(at), w)
    ensures at + 2 <= |a| && Read16(b, Other(e), at) == Read16(a, e, at)
  {
    assert at in Half(at) && at + 1 in Half(at);
    assert Mutual(w, |a|, at) && Mutual(w, |a|, at + 1);
    assert SwappedAt(a, b, w, at) && SwappedAt(a, b, w, at + 1);
  }

  /** An item is found again, from its slot and its flags. */
  lemma ReadItem(a: seq<Byte>, b: seq<Byte>, w: Words, e: Order, f: Format, i: nat)
    requires Swapped(a, b, w) && ItemOk(a, e, f, i) && Within(Item(a, e, f, i), w)
    ensures SlotOk(b, Other(e), i) && BodyAt(b, Other(e), f, i) == BodyAt(a, e, f, i)
    ensures ItemOk(b, Other(e), f, i)
  {
    WithinBoth(Slot(i), BodyAt(a, e, f, i));
    WithinWithin(Slot(i), Item(a, e, f, i), w);
    ReadHalf(a, b, w, e, LINP + 2 * i);
    var k := Read16(a, e, LINP + 2 * i) + 8;
    assert k in BodyAt(a, e, f, i);
    assert SwappedAt(a, b, w, k) && Separate(Slot(i), BodyAt(a, e, f, i), k);
  }

  lemma {:induction false} ReadItems(a: seq<Byte>, b: seq<Byte>, w: Words, e: Order, f: Format, n: nat)
    requires Swapped(a, b, w) && ItemsOk(a, e, f, n) && Within(ItemsTo(a, e, f, n), w)
    ensures ItemsOk(b, Other(e), f, n) && ItemsTo(b, Other(e), f, n) == ItemsTo(a, e, f, n)
    decreases n
  {
    if n > 0 {
      WithinBoth(ItemsTo(a, e, f, n - 1), Item(a, e, f, n - 1));
      WithinWithin(ItemsTo(a, e, f, n - 1), ItemsTo(a, e, f, n), w);
      WithinWithin(Item(a, e, f, n - 1), ItemsTo(a, e, f, n), w);
      ReadItems(a, b, w, e, f, n - 1);
      ReadItem(a, b, w, e, f, n - 1);
    }
  }

  lemma {:induction false} ItemsApart(s: seq<Byte>, e: Order, f: Format, n: nat)
    requires ItemsOk(s, e, f, n)
    ensures Apart(Header(), ItemsTo(s, e, f, n))
    decreases n
  {
    if n > 0 {
      ItemsApart(s, e, f, n - 1);
      ApartBoth(Header(), ItemsTo(s, e, f, n - 1), Item(s, e, f, n - 1));
    }
  }

  lemma ApartBoth(u: Words, v: Words, w: Words)
    requires Apart(u, v) && Apart(u, w)
    ensures Apart(u, v + w)
  {
    forall k ensures Separate(u, v + w, k) {
      assert Separate(u, v, k) && Separate(u, w, k);
    }
  }

  lemma SumKeeps(v: Words, w: Words, k: int)
    requires k in v && k !in w
    ensures k in v + w && (v + w)[k] == v[k]
  {
  }

  lemma SumHas(v: Words, w: Words, k: int)
    requires k in w
    ensures k in v + w && (v + w)[k] == w[k]
  {
  }

  /** The ends of the second word of a pair. */
  lemma SecondWord(at: int)
    ensures var w := Pair(at); at + 4 in w && w[at + 4] == at + 7 && at + 7 in w && w[at + 7] == at + 4
  {
    SumHas(Word(at), Word(at + 4), at + 4);
    SumHas(Word(at), Word(at + 4), at + 7);
  }

  /** A byte before the bounds is where the pairs have it. */
  lemma HeaderByte(k: int)
    requires k in Pair(NEXTPG) && k < LOWER
    ensures k in Header() && Header()[k] == Pair(NEXTPG)[k]
  {
    var pairs := Pair(PGNO) + Pair(NEXTPG);
    SumHas(Pair(PGNO), Pair(NEXTPG), k);
    SumKeeps(pairs, Half(LOWER), k);
    SumKeeps(pairs + Half(LOWER), Half(UPPER), k);
  }

  lemma HeaderBound(k: int)
    requires k == LOWER || k == LOWER + 1
    ensures k in Header() && Header()[k] == Half(LOWER)[k]
  {
    var pairs := Pair(PGNO) + Pair(NEXTPG);
    SumHas(pairs, Half(LOWER), k);
    SumKeeps(pairs + Half(LOWER), Half(UPPER), k);
  }

  lemma HeaderPlaces()
    ensures Within(Half(LOWER), Header())
    ensures FLAGS in Header() && Header()[FLAGS] == FLAGS + 3 && FLAGS + 3 in Header() && Header()[FLAGS + 3] == FLAGS
  {
    SecondWord(NEXTPG);
    HeaderByte(FLAGS);
    HeaderByte(FLAGS + 3);
    HeaderBound(LOWER);
    HeaderBound(LOWER + 1);
  }

  lemma ReadHeader(a: seq<Byte>, b: seq<Byte>, w: Words, e: Order)
    requires Swapped(a, b, w) && LINP <= |a| && Within(Half(LOWER), w)
    requires FLAGS in w && w[FLAGS] == FLAGS + 3 && FLAGS + 3 in w && w[FLAGS + 3] == FLAGS
    ensures Kind(b, Other(e)) == Kind(a, e) && Top(b, Other(e)) == Top(a, e)
  {
    assert SwappedAt(a, b, w, FLAGS) && SwappedAt(a, b, w, FLAGS + 3);
    ReadHalf(a, b, w, e, LOWER);
  }

  // ----- pages -----

  /** What the pages of a kind hold. */
  function FormatOf(kind: nat): Format {
    (off: nat, flags: Byte) => Body(kind, off, flags)
  }

  /** A page whose numbers are in byte order e and address words as they should. */
  ghost predicate PageOk(s: seq<Byte>, e: Order) {
    LINP <= |s| && (HasItems(Kind(s, e)) ==> ItemsOk(s, e, FormatOf(Kind(s, e)), Top(s, e)))
  }

  ghost function PageItems(s: seq<Byte>, e: Order): Words
    requires PageOk(s, e)
  {
    if HasItems(Kind(s, e)) then ItemsTo(s, e, FormatOf(Kind(s, e)), Top(s, e)) else map[]
  }

  /** All the words of a page. */
  ghost function Layout(s: seq<Byte>, e: Order): Words
    requires PageOk(s, e)
  {
    Header() + PageItems(s, e)
  }

  lemma PageItemsApart(s: seq<Byte>, e: Order)
    requires PageOk(s, e)
    ensures Apart(Header(), PageItems(s, e))
    ensures Within(Header(), Layout(s, e)) && Within(PageItems(s, e), Layout(s, e))
  {
    if HasItems(Kind(s, e)) {
      ItemsApart(s, e, FormatOf(Kind(s, e)), Top(s, e));
    }
    WithinBoth(Header(), PageItems(s, e));
  }

  /** Once its words are swapped, a page has the same layout in the other byte order,
      although the numbers that say where the words are were swapped with them. */
  lemma SameLayout(a: seq<Byte>, b: seq<Byte>, e: Order)
    requires PageOk(a, e) && Swapped(a, b, Layout(a, e))
    ensures PageOk(b, Other(e)) && Layout(b, Other(e)) == Layout(a, e)
  {
    var w := Layout(a, e);
    PageItemsApart(a, e);
    HeaderPlaces();
    WithinWithin(Half(LOWER), Header(), w);
    ReadHeader(a, b, w, e);
    if HasItems(Kind(a, e)) {
      ReadItems(a, b, w, e, FormatOf(Kind(a, e)), Top(a, e));
    }
  }

  // ----- the code -----

  /** M_32_SWAP and P_32_SWAP. */
  method Swap32(page: array<Byte>, at: nat)
    requires at + 4 <= page.Length
    modifies page
    ensures Swapped(old(page[..]), page[..], Word(at)) && Between(Word(at), at, at + 4)
  {
    page[at], page[at + 1], page[at + 2], page[at + 3] := page[at + 3], page[at + 2], page[at + 1], page[at];
  }

  /** M_16_SWAP. */
  method Swap16(page: array<Byte>, at: nat)
    requires at + 2 <= page.Length
    modifies page
    ensures Swapped(old(page[..]), page[..], Half(at)) && Between(Half(at), at, at + 2)
  {
    page[at], page[at + 1] := page[at + 1], page[at];
  }

  method SwapPair(page: array<Byte>, p: nat)
    requires p + 8 <= page.Length
    modifies page
    ensures Swapped(old(page[..]), page[..], Pair(p)) && Between(Pair(p), p, p + 8)
  {
    ghost var a := page[..];
    Swap32(page, p);
    ghost var b := page[..];
    Swap32(page, p + 4);
    InTurn(a, b, page[..], Word(p), Word(p + 4), p, p + 4, p + 4, p + 8);
  }

  /** The first four words of any page. */
  method SwapFirstPairs(page: array<Byte>)
    requires 16 <= page.Length
    modifies page
    ensures Swapped(old(page[..]), page[..], Pair(0) + Pair(8)) && Between(Pair(0) + Pair(8), 0, 16)
  {
    ghost var a := page[..];
    SwapPair(page, 0);
    ghost var b := page[..];
    SwapPair(page, 8);
    InTurn(a, b, page[..], Pair(0), Pair(8), 0, 8, 8, 16);
  }

  method SwapHeader(page: array<Byte>)
    requires LINP <= page.Length
    modifies page
    ensures Swapped(old(page[..]), page[..], Header())
  {
    ghost var a := page[..];
    SwapFirstPairs(page);
    ghost var b := page[..];
    Swap16(page, LOWER);
    InTurn(a, b, page[..], Pair(PGNO) + Pair(NEXTPG), Half(LOWER), 0, 16, 16, 18);
    b := page[..];
    Swap16(page, UPPER);
    InTurn(a, b, page[..], Pair(PGNO) + Pair(NEXTPG) + Half(LOWER), Half(UPPER), 0, 18, 18, 20);
  }

  /** mswap. */
  method SwapMeta(page: array<Byte>)
    requires 24 <= page.Length
    modifies page
    ensures Swapped(old(page[..]), page[..], Meta())
  {
    ghost var a := page[..];
    SwapFirstPairs(page);
    ghost var b := page[..];
    SwapPair(page, 16);
    InTurn(a, b, page[..], Pair(0) + Pair(8), Pair(16), 0, 16, 16, 24);
  }

  /** Where the references of an item end. */
  function ReferencesEnd(kind: nat, at: nat, flags: Byte): (end: nat)
    ensures at <= end
  {
    if kind == P_BINTERNAL then (if BigKey(flags) then at + 8 else at)
    else if BigKey(flags) then (if BigData(flags) then at + 16 else at + 8)
    else if BigData(flags) then at + 12
    else at
  }

  /** Words that lie on the page end there. */
  lemma BodyBound(kind: nat, off: nat, flags: Byte, n: nat)
    requires Fits(Body(kind, off, flags), n) && off + 9 <= n
    ensures ReferencesEnd(kind, off + 9, flags) <= n
  {
    var end := ReferencesEnd(kind, off + 9, flags);
    if end > off + 9 {
      assert end - 1 in References(kind, off + 9, flags);
      assert Mutual(Body(kind, off, flags), n, end - 1);
    }
  }

  /** The references of an item on an internal page, after its flags. */
  method SwapInternalReferences(page: array<Byte>, at: nat, flags: Byte)
    requires ReferencesEnd(P_BINTERNAL, at, flags) <= page.Length
    modifies page
    ensures Swapped(old(page[..]), page[..], References(P_BINTERNAL, at, flags))
    ensures Between(References(P_BINTERNAL, at, flags), at, ReferencesEnd(P_BINTERNAL, at, flags))
  {
    if BigKey(flags) {
      SwapPair(page, at);
    } else {
      SwapNothing(page[..], at, at);
    }
  }

  /** A reference is there only if its flag is set. */
  ghost predicate ReferenceSwapped(a: seq<Byte>, b: seq<Byte>, p: nat, there: bool) {
    if there then Swapped(a, b, Pair(p)) && Between(Pair(p), p, p + 8) else a == b
  }

  method SwapReference(page: array<Byte>, p: nat, there: bool)
    requires there ==> p + 8 <= page.Length
    modifies page
    ensures ReferenceSwapped(old(page[..]), page[..], p, there)
  {
    if there {
      SwapPair(page, p);
    }
  }

  /** The references of an item on a leaf page; without a big key, the reference of big
      data is taken to be 4 bytes after the flags. */
  method SwapLeafReferences(page: array<Byte>, at: nat, flags: Byte)
    requires ReferencesEnd(P_BLEAF, at, flags) <= page.Length
    modifies page
    ensures Swapped(old(page[..]), page[..], References(P_BLEAF, at, flags))
    ensures Between(References(P_BLEAF, at, flags), at, ReferencesEnd(P_BLEAF, at, flags))
  {
    ghost var a := page[..];
    var p := at;
    SwapReference(page, p, BigKey(flags));
    if BigKey(flags) {
      p := p + 4;
    }
    ghost var b := page[..];
    p := p + 4;
    SwapReference(page, p, BigData(flags));
    LeafReferences(a, b, page[..], at, flags, p);
  }

  lemma LeafReferences(a: seq<Byte>, b: seq<Byte>, c: seq<Byte>, at: nat, flags: Byte, p: nat)
    requires p == if BigKey(flags) then at + 8 else at + 4
    requires ReferenceSwapped(a, b, at, BigKey(flags)) && ReferenceSwapped(b, c, p, BigData(flags))
    ensures Swapped(a, c, References(P_BLEAF, at, flags))
    ensures Between(References(P_BLEAF, at, flags), at, ReferencesEnd(P_BLEAF, at, flags))
  {
    if BigKey(flags) && BigData(flags) {
      InTurn(a, b, c, Pair(at), Pair(at + 8), at, at + 8, at + 8, at + 16);
    } else if BigData(flags) {
      BetweenWider(Pair(at + 4), at + 4, at + 12, at, at + 12);
    } else if !BigKey(flags) {
      SwapNothing(a, at, at);
    }
  }

  /** The code that both directions share for one item. */
  method SwapBody(page: array<Byte>, kind: nat, off: nat)
    requires HasItems(kind) && off + 9 <= page.Length && ReferencesEnd(kind, off + 9, page[off + 8]) <= page.Length
    modifies page
    ensures Swapped(old(page[..]), page[..], Body(kind, off, old(page[off + 8])))
  {
    ghost var a := page[..];
    var p := off;
    SwapPair(page, p);
    p := p + 8;
    ghost var b := page[..];
    ReadStays(a, b, Pair(off), off, off + 8);
    var flags := page[p];
    SwapFixed(b, off + 8);
    InTurn(a, b, b, Pair(off), Fixed(off + 8), off, off + 8, off + 8, off + 9);
    if kind == P_BINTERNAL {
      SwapInternalReferences(page, p + 1, flags);
    } else {
      SwapLeafReferences(page, p + 1, flags);
    }
    InTurn(a, b, page[..], Pair(off) + Fixed(off + 8), References(kind, off + 9, flags),
           off, off + 9, off + 9, ReferencesEnd(kind, off + 9, flags));
  }

  /** A byte outside the words is not changed. */
  lemma ReadStays(a: seq<Byte>, b: seq<Byte>, w: Words, lo: int, k: nat)
    requires Swapped(a, b, w) && Between(w, lo, k) && k < |a|
    ensures b[k] == a[k]
  {
    assert InRange(w, lo, k, k) && SwappedAt(a, b, w, k);
  }

  lemma SwapFixed(a: seq<Byte>, k: nat)
    requires k < |a|
    ensures Swapped(a, a, Fixed(k)) && Between(Fixed(k), k, k + 1)
  {
  }

  predicate BodyIs(kind: nat, f: Format, off: nat, flags: Byte) {
    f(off, flags) == Body(kind, off, flags)
  }

  /** f says where the words of the items of a kind are. */
  ghost predicate Describes(kind: nat, f: Format) {
    forall off, flags {:trigger BodyIs(kind, f, off, flags)} :: BodyIs(kind, f, off, flags)
  }

  lemma FormatDescribes(kind: nat)
    ensures Describes(kind, FormatOf(kind))
  {
  }

  method SwapItemBody(page: array<Byte>, kind: nat, off: nat, ghost f: Format)
    requires HasItems(kind) && Describes(kind, f)
    requires off + 9 <= page.Length && Fits(f(off, page[off + 8]), page.Length)
    modifies page
    ensures Swapped(old(page[..]), page[..], f(off, old(page[off + 8])))
  {
    assert BodyIs(kind, f, off, page[off + 8]);
    BodyBound(kind, off, page[off + 8], page.Length);
    SwapBody(page, kind, off);
  }

  /** A slot and then the item it addresses, on a page that comes in: the slot can be
      read only after it is swapped. */
  method SwapItemIn(page: array<Byte>, e: Order, kind: nat, i: nat, ghost f: Format)
    requires HasItems(kind) && Describes(kind, f) && ItemOk(page[..], Other(e), f, i)
    modifies page
    ensures Swapped(old(page[..]), page[..], Item(old(page[..]), Other(e), f, i))
  {
    ghost var a := page[..];
    Swap16(page, LINP + 2 * i);
    ghost var b := page[..];
    WithinAll(Slot(i));
    ReadHalf(a, b, Slot(i), Other(e), LINP + 2 * i);
    var off := Read16(page[..], e, LINP + 2 * i);
    ReadApart(a, b, Slot(i), BodyAt(a, Other(e), f, i), off + 8);
    SwapItemBody(page, kind, off, f);
    SwapBoth(a, b, page[..], Slot(i), BodyAt(a, Other(e), f, i));
  }

  /** The item and then its slot, on a page that goes out: the slot can be read only
      before it is swapped. */
  method SwapItemOut(page: array<Byte>, e: Order, kind: nat, i: nat, ghost f: Format)
    requires HasItems(kind) && Describes(kind, f) && ItemOk(page[..], e, f, i)
    modifies page
    ensures Swapped(old(page[..]), page[..], Item(old(page[..]), e, f, i))
  {
    ghost var a := page[..];
    ghost var body := BodyAt(a, e, f, i);
    var off := Read16(page[..], e, LINP + 2 * i);
    SwapItemBody(page, kind, off, f);
    ghost var b := page[..];
    Swap16(page, LINP + 2 * i);
    ApartSymmetric(Slot(i), body);
    SwapBoth(a, b, page[..], body, Slot(i));
    SumCommutes(Slot(i), body);
  }

  lemma ApartSymmetric(v: Words, w: Words)
    requires Apart(v, w)
    ensures Apart(w, v)
  {
    forall k ensures Separate(w, v, k) {
      assert Separate(v, w, k);
    }
  }

  lemma WithinAll(w: Words)
    ensures Within(w, w)
  {
  }

  /** A byte of other words is not changed. */
  lemma ReadApart(a: seq<Byte>, b: seq<Byte>, v: Words, w: Words, k: nat)
    requires Swapped(a, b, v) && Apart(v, w) && k in w && k < |a|
    ensures b[k] == a[k]
  {
    assert Separate(v, w, k) && SwappedAt(a, b, v, k);
  }

  lemma {:induction false} ItemsOkBefore(s: seq<Byte>, e: Order, f: Format, i: nat, n: nat)
    requires i <= n && ItemsOk(s, e, f, n)
    ensures ItemsOk(s, e, f, i)
    decreases n - i
  {
    if i < n {
      ItemsOkBefore(s, e, f, i, n - 1);
    }
  }

  lemma SumApart(u: Words, v: Words, w: Words)
    requires Apart(u, w) && Apart(v, w)
    ensures Apart(u + v, w)
  {
    forall k ensures Separate(u + v, w, k) {
      assert Separate(u, w, k) && Separate(v, w, k);
    }
  }

  /** An item that has not been reached is still as it was. */
  lemma ItemWaits(a: seq<Byte>, b: seq<Byte>, w: Words, e: Order, f: Format, i: nat)
    requires Swapped(a, b, w) && ItemOk(a, e, f, i) && Apart(w, Item(a, e, f, i))
    ensures ItemOk(b, e, f, i) && Item(b, e, f, i) == Item(a, e, f, i)
  {
    var at := LINP + 2 * i;
    var off := Read16(a, e, at);
    assert at in Slot(i) && at + 1 in Slot(i) && off + 8 in BodyAt(a, e, f, i);
    ReadApart(a, b, w, Item(a, e, f, i), at);
    ReadApart(a, b, w, Item(a, e, f, i), at + 1);
    ReadApart(a, b, w, Item(a, e, f, i), off + 8);
  }

  /** The loop of __bt_pgin, on a page a whose words h have been swapped. */
  method ItemsIn(page: array<Byte>, e: Order, kind: nat, top: nat, ghost f: Format, ghost a: seq<Byte>, ghost h: Words)
    requires HasItems(kind) && Describes(kind, f) && ItemsOk(a, Other(e), f, top)
    requires h == Header() && Swapped(a, page[..], h)
    modifies page
    ensures Swapped(a, page[..], h + ItemsTo(a, Other(e), f, top))
  {
    var i := 0;
    ItemsOkBefore(a, Other(e), f, 0, top);
    SumNothing(h);
    while i < top
      invariant 0 <= i <= top && ItemsOk(a, Other(e), f, i)
      invariant Swapped(a, page[..], h + ItemsTo(a, Other(e), f, i))
    {
      ItemsOkBefore(a, Other(e), f, i + 1, top);
      NextItemIn(page, e, kind, i, f, a, h);
      i := i + 1;
    }
  }

  method NextItemIn(page: array<Byte>, e: Order, kind: nat, i: nat, ghost f: Format, ghost a: seq<Byte>, ghost h: Words)
    requires HasItems(kind) && Describes(kind, f) && ItemsOk(a, Other(e), f, i + 1)
    requires h == Header() && Swapped(a, page[..], h + ItemsTo(a, Other(e), f, i))
    modifies page
    ensures Swapped(a, page[..], h + ItemsTo(a, Other(e), f, i + 1))
  {
    ghost var b := page[..];
    ghost var items, item := ItemsTo(a, Other(e), f, i), Item(a, Other(e), f, i);
    SumApart(h, items, item);
    ItemWaits(a, b, h + items, Other(e), f, i);
    SwapItemIn(page, e, kind, i, f);
    SwapBoth(a, b, page[..], h + items, item);
    SumAssoc(h, items, item);
  }

  lemma SumNothing(w: Words)
    ensures w + map[] == w
  {
  }

  lemma SumAssoc(u: Words, v: Words, w: Words)
    ensures u + v + w == u + (v + w)
  {
  }

  /** The loop of __bt_pgout. */
  method ItemsOut(page: array<Byte>, e: Order, kind: nat, top: nat, ghost f: Format)
    requires HasItems(kind) && Describes(kind, f) && ItemsOk(page[..], e, f, top)
    modifies page
    ensures Swapped(old(page[..]), page[..], ItemsTo(old(page[..]), e, f, top))
  {
    ghost var a := page[..];
    var i := 0;
    ItemsOkBefore(a, e, f, 0, top);
    SwapNothing(a, 0, 0);
    while i < top
      invariant 0 <= i <= top && ItemsOk(a, e, f, i)
      invariant Swapped(a, page[..], ItemsTo(a, e, f, i))
    {
      ItemsOkBefore(a, e, f, i + 1, top);
      ghost var b := page[..];
      ItemWaits(a, b, ItemsTo(a, e, f, i), e, f, i);
      SwapItemOut(page, e, kind, i, f);
      SwapBoth(a, b, page[..], ItemsTo(a, e, f, i), Item(a, e, f, i));
      i := i + 1;
    }
  }

  // ----- both directions -----

  /** The words of page pg can be converted, when its numbers are in byte order e. */
  ghost predicate Convertible(s: seq<Byte>, pg: nat, e: Order) {
    if pg == P_META then |s| >= 24 else PageOk(s, e)
  }

  /** b is page pg, with numbers in byte order e, converted. */
  ghost predicate Converted(a: seq<Byte>, b: seq<Byte>, needSwap: bool, pg: nat, e: Order)
    requires needSwap ==> Convertible(a, pg, e)
  {
    if !needSwap then a == b
    else if pg == P_META then Swapped(a, b, Meta())
    else Swapped(a, b, Layout(a, e))
  }

  /** __bt_pgin, on a machine with byte order e. */
  method PgIn(needSwap: bool, pg: nat, page: array<Byte>, e: Order)
    requires needSwap ==> Convertible(page[..], pg, Other(e))
    modifies page
    ensures Converted(old(page[..]), page[..], needSwap, pg, Other(e))
  {
    if !needSwap {
      return;
    }
    if pg == P_META {
      SwapMeta(page);
      return;
    }
    ghost var a := page[..];
    SwapHeader(page);
    ghost var b := page[..];
    HeaderPlaces();
    ReadHeader(a, b, Header(), Other(e));
    var top := Top(page[..], e);
    var kind := Kind(page[..], e);
    if kind == P_BINTERNAL || kind == P_BLEAF {
      FormatDescribes(kind);
      ItemsIn(page, e, kind, top, FormatOf(kind), a, Header());
    } else {
      SumNothing(Header());
    }
  }

  /** __bt_pgout, on a machine with byte order e. */
  method PgOut(needSwap: bool, pg: nat, page: array<Byte>, e: Order)
    requires needSwap ==> Convertible(page[..], pg, e)
    modifies page
    ensures Converted(old(page[..]), page[..], needSwap, pg, e)
  {
    if !needSwap {
      return;
    }
    if pg == P_META {
      SwapMeta(page);
      return;
    }
    ghost var a := page[..];
    SwapNothing(a, 0, 0);
    var top := Top(page[..], e);
    var kind := Kind(page[..], e);
    if kind == P_BINTERNAL || kind == P_BLEAF {
      FormatDescribes(kind);
      ItemsOut(page, e, kind, top, FormatOf(kind));
    }
    ghost var b := page[..];
    SwapHeader(page);
    PageItemsApart(a, e);
    ApartSymmetric(Header(), PageItems(a, e));
    SwapBoth(a, b, page[..], PageItems(a, e), Header());
    SumCommutes(PageItems(a, e), Header());
  }

  /** What one direction does, the other undoes: whatever page could be converted from
      byte order e, its conversion can be converted back, and every byte is restored. */
  lemma RoundTrip(a: seq<Byte>, b: seq<Byte>, c: seq<Byte>, needSwap: bool, pg: nat, e: Order)
    requires needSwap ==> Convertible(a, pg, e)
    requires Converted(a, b, needSwap, pg, e)
    ensures needSwap ==> Convertible(b, pg, Other(e))
    ensures Converted(b, c, needSwap, pg, Other(e)) ==> c == a
  {
    if needSwap {
      if pg != P_META {
        SameLayout(a, b, e);
      }
      if Converted(b, c, needSwap, pg, Other(e)) {
        SwapTwice(a, b, c, if pg == P_META then Meta() else Layout(a, e));
      }
    }
  }

  /** A page that is read and written again is as it was on disk. */
  method ReadAndWrite(needSwap: bool, pg: nat, page: array<Byte>, e: Order)
    requires needSwap ==> Convertible(page[..], pg, Other(e))
    modifies page
    ensures page[..] == old(page[..])
  {
    ghost var a := page[..];
    PgIn(needSwap, pg, page, e);
    ghost var b := page[..];
    RoundTrip(a, b, b, needSwap, pg, Other(e));
    PgOut(needSwap, pg, page, e);
    RoundTrip(a, b, page[..], needSwap, pg, Other(e));
  }
}
