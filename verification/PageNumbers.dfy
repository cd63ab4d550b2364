/** What a conversion does to the numbers of a page: which ones are read in the other byte
    order as they were read before, and which bytes stay. */
module PageNumbers {
  import opened PageConversion

  /** A 32-bit number of the page. */
  function Read32(s: seq<Byte>, e: Order, at: nat): nat
    requires at + 4 <= |s|
  {
    var p: int, q: int, r: int, t: int := s[at], s[at + 1], s[at + 2], s[at + 3];
    if e == Little then p + 0x100 * q + 0x1_0000 * r + 0x100_0000 * t else t + 0x100 * r + 0x1_0000 * q + 0x100_0000 * p
  }

  /** The 16-bit number at a place is read from b in the other order as from a in order e. */
  predicate SameHalf(a: seq<Byte>, b: seq<Byte>, e: Order, at: nat) {
    at + 2 <= |a| == |b| && Read16(b, Other(e), at) == Read16(a, e, at)
  }

  predicate SameWord(a: seq<Byte>, b: seq<Byte>, e: Order, at: nat) {
    at + 4 <= |a| == |b| && Read32(b, Other(e), at) == Read32(a, e, at)
  }

  predicate SamePair(a: seq<Byte>, b: seq<Byte>, e: Order, at: nat) {
    SameWord(a, b, e, at) && SameWord(a, b, e, at + 4)
  }

  lemma ReadWord(a: seq<Byte>, b: seq<Byte>, w: Words, e: Order, at: nat)
    requires Swapped(a, b, w) && Within(Word(at), w)
    ensures SameWord(a, b, e, at)
  {
    assert at in Word(at) && at + 1 in Word(at) && at + 2 in Word(at) && at + 3 in Word(at);
    assert Mutual(w, |a|, at) && Mutual(w, |a|, at + 3);
    assert SwappedAt(a, b, w, at) && SwappedAt(a, b, w, at + 1) && SwappedAt(a, b, w, at + 2) && SwappedAt(a, b, w, at + 3);
  }

  /** Words that lie one after the other are all among their sum. */
  lemma Consecutive(v: Words, w: Words, lo: int, mid: int, mid': int, hi: int)
    requires Between(v, lo, mid) && Between(w, mid', hi) && lo <= mid <= mid' <= hi
    ensures Within(v, v + w) && Within(w, v + w) && Between(v + w, lo, hi)
  {
    BetweenApart(v, w, lo, mid, mid', hi);
    WithinBoth(v, w);
    BetweenBoth(v, w, lo, mid, mid', hi);
  }

  lemma WordBounds(at: nat)
    ensures Between(Word(at), at, at + 4) && Between(Half(at), at, at + 2) && Between(Fixed(at), at, at + 1)
  {
  }

  lemma PairHas(at: nat)
    ensures Within(Word(at), Pair(at)) && Within(Word(at + 4), Pair(at)) && Between(Pair(at), at, at + 8)
  {
    WordBounds(at);
    WordBounds(at + 4);
    Consecutive(Word(at), Word(at + 4), at, at + 4, at + 4, at + 8);
  }

  lemma ReadPair(a: seq<Byte>, b: seq<Byte>, w: Words, e: Order, at: nat)
    requires Swapped(a, b, w) && Within(Pair(at), w)
    ensures SamePair(a, b, e, at)
  {
    PairHas(at);
    WithinWithin(Word(at), Pair(at), w);
    WithinWithin(Word(at + 4), Pair(at), w);
    ReadWord(a, b, w, e, at);
    ReadWord(a, b, w, e, at + 4);
  }

  // ----- the header and the meta page -----

  lemma HeaderHas()
    ensures Within(Pair(PGNO), Header()) && Within(Pair(NEXTPG), Header())
    ensures Within(Half(LOWER), Header()) && Within(Half(UPPER), Header()) && Between(Header(), 0, LINP)
  {
    var p, q, r := Pair(PGNO) + Pair(NEXTPG), Pair(PGNO) + Pair(NEXTPG) + Half(LOWER), Header();
    PairHas(PGNO);
    PairHas(NEXTPG);
    WordBounds(LOWER);
    WordBounds(UPPER);
    Consecutive(Pair(PGNO), Pair(NEXTPG), 0, 8, 8, 16);
    Consecutive(p, Half(LOWER), 0, 16, 16, 18);
    Consecutive(q, Half(UPPER), 0, 18, 18, 20);
    WithinWithin(p, q, r);
    WithinWithin(Pair(PGNO), p, r);
    WithinWithin(Pair(NEXTPG), p, r);
    WithinWithin(Half(LOWER), q, r);
  }

  /** The six numbers of the header, after a conversion. */
  lemma HeaderNumbers(a: seq<Byte>, b: seq<Byte>, pg: nat, e: Order)
    requires pg != P_META && Convertible(a, pg, e) && Converted(a, b, true, pg, e)
    ensures SameWord(a, b, e, 0) && SameWord(a, b, e, 4) && SameWord(a, b, e, 8) && SameWord(a, b, e, 12)
    ensures SameHalf(a, b, e, 16) && SameHalf(a, b, e, 18)
  {
    var w := Layout(a, e);
    PageItemsApart(a, e);
    HeaderHas();
    WithinWithin(Pair(PGNO), Header(), w);
    WithinWithin(Pair(NEXTPG), Header(), w);
    WithinWithin(Half(LOWER), Header(), w);
    WithinWithin(Half(UPPER), Header(), w);
    ReadPair(a, b, w, e, PGNO);
    ReadPair(a, b, w, e, NEXTPG);
    ReadHalf(a, b, w, e, LOWER);
    ReadHalf(a, b, w, e, UPPER);
  }

  lemma PairsHave(at: nat)
    ensures var w := SixWords(at);
            Within(Pair(at), w) && Within(Pair(at + 8), w) && Within(Pair(at + 16), w) && Between(w, at, at + 24)
  {
    var u, v, x := Pair(at), Pair(at + 8), Pair(at + 16);
    PairHas(at);
    PairHas(at + 8);
    PairHas(at + 16);
    Consecutive(u, v, at, at + 8, at + 8, at + 16);
    Consecutive(u + v, x, at, at + 16, at + 16, at + 24);
    WithinWithin(u, u + v, u + v + x);
    WithinWithin(v, u + v, u + v + x);
  }

  lemma BytesAfter(a: seq<Byte>, b: seq<Byte>, w: Words, lo: int, hi: nat)
    requires Swapped(a, b, w) && Between(w, lo, hi)
    ensures forall k :: hi <= k < |a| ==> b[k] == a[k]
  {
    forall k | hi <= k < |a| ensures b[k] == a[k] {
      assert InRange(w, lo, hi, k) && SwappedAt(a, b, w, k);
    }
  }

  lemma OneOfSix(a: seq<Byte>, b: seq<Byte>, w: Words, e: Order, at: nat, i: nat)
    requires Swapped(a, b, w) && w == SixWords(at) && i < 6
    ensures SameWord(a, b, e, at + 4 * i)
  {
    var p := if i < 2 then at else if i < 4 then at + 8 else at + 16;
    PairsHave(at);
    PairHas(p);
    WithinWithin(Word(at + 4 * i), Pair(p), w);
    ReadWord(a, b, w, e, at + 4 * i);
  }

  lemma AfterSix(a: seq<Byte>, b: seq<Byte>, w: Words, at: nat)
    requires Swapped(a, b, w) && w == SixWords(at)
    ensures forall k :: at + 24 <= k < |a| ==> b[k] == a[k]
  {
    PairsHave(at);
    BytesAfter(a, b, w, at, at + 24);
  }

  /** Each of the six numbers of the meta page; the rest of it is as it was. */
  lemma MetaNumbers(a: seq<Byte>, b: seq<Byte>, e: Order, i: nat)
    requires i < 6 && Convertible(a, P_META, e) && Converted(a, b, true, P_META, e)
    ensures SameWord(a, b, e, 4 * i)
    ensures forall k :: 24 <= k < |a| ==> b[k] == a[k]
  {
    OneOfSix(a, b, Meta(), e, 0, i);
    AfterSix(a, b, Meta(), 0);
  }

  // ----- the items -----

  /** The type of a page: flags & 0x1f. */
  function TypeOf(s: seq<Byte>, e: Order): nat
    requires 20 <= |s|
  {
    Read32(s, e, 12) % 0x20
  }

  lemma KindIsType(s: seq<Byte>, e: Order)
    requires LINP <= |s|
    ensures Kind(s, e) == TypeOf(s, e)
  {
    var p: int, q: int, r: int, t: int := s[FLAGS], s[FLAGS + 1], s[FLAGS + 2], s[FLAGS + 3];
    if e == Little {
      Remainder(p, q, r, t);
    } else {
      Remainder(t, r, q, p);
    }
  }

  lemma Remainder(p: int, q: int, r: int, t: int)
    ensures (p + 0x100 * q + 0x1_0000 * r + 0x100_0000 * t) % 32 == p % 32
  {
    var m := 0x8 * q + 0x800 * r + 0x8_0000 * t;
    assert p + 0x100 * q + 0x1_0000 * r + 0x100_0000 * t == p + 32 * m;
    SameRemainder(p, m);
  }

  lemma SameRemainder(p: int, m: int)
    ensures (p + 32 * m) % 32 == p % 32
  {
  }

  /** The page has an item at i: its slot ends no later than the free space begins. */
  predicate HasItem(s: seq<Byte>, e: Order, i: nat) {
    20 <= |s| && (TypeOf(s, e) == 1 || TypeOf(s, e) == 2) && 20 + 2 * i + 2 <= Read16(s, e, 16)
  }

  lemma BelowTop(s: seq<Byte>, e: Order, i: nat)
    requires HasItem(s, e, i)
    ensures HasItems(Kind(s, e)) && i < Top(s, e)
  {
    KindIsType(s, e);
  }

  lemma LastWithin(s: seq<Byte>, e: Order, f: Format, n: nat)
    requires n > 0 && ItemsOk(s, e, f, n)
    ensures ItemsOk(s, e, f, n - 1) && ItemOk(s, e, f, n - 1)
    ensures Within(Item(s, e, f, n - 1), ItemsTo(s, e, f, n)) && Within(ItemsTo(s, e, f, n - 1), ItemsTo(s, e, f, n))
  {
    WithinBoth(ItemsTo(s, e, f, n - 1), Item(s, e, f, n - 1));
  }

  lemma {:induction false} ItemWithin(s: seq<Byte>, e: Order, f: Format, i: nat, n: nat)
    requires i < n && ItemsOk(s, e, f, n)
    ensures ItemOk(s, e, f, i) && Within(Item(s, e, f, i), ItemsTo(s, e, f, n))
    decreases n
  {
    LastWithin(s, e, f, n);
    if i < n - 1 {
      ItemWithin(s, e, f, i, n - 1);
      WithinWithin(Item(s, e, f, i), ItemsTo(s, e, f, n - 1), ItemsTo(s, e, f, n));
    }
  }

  /** Where item i is. */
  function OffsetOf(s: seq<Byte>, e: Order, i: nat): nat
    requires 20 + 2 * i + 2 <= |s|
  {
    Read16(s, e, 20 + 2 * i)
  }

  lemma WithinParts(u: Words, v: Words, w: Words)
    requires Apart(u, v) && Within(u + v, w)
    ensures Within(u, w) && Within(v, w)
  {
    WithinBoth(u, v);
    WithinWithin(u, u + v, w);
    WithinWithin(v, u + v, w);
  }

  lemma ItemParts(s: seq<Byte>, e: Order, f: Format, i: nat, n: nat, w: Words)
    requires i < n && ItemsOk(s, e, f, n) && Within(ItemsTo(s, e, f, n), w)
    ensures SlotOk(s, e, i) && Within(Slot(i), w) && Within(BodyAt(s, e, f, i), w)
  {
    ItemWithin(s, e, f, i, n);
    WithinWithin(Item(s, e, f, i), ItemsTo(s, e, f, n), w);
    WithinParts(Slot(i), BodyAt(s, e, f, i), w);
  }

  lemma BodyOf(s: seq<Byte>, e: Order, kind: nat, f: Format, i: nat)
    requires SlotOk(s, e, i) && Describes(kind, f)
    ensures BodyAt(s, e, f, i) == Body(kind, OffsetOf(s, e, i), s[OffsetOf(s, e, i) + 8])
  {
    assert BodyIs(kind, f, OffsetOf(s, e, i), s[OffsetOf(s, e, i) + 8]);
  }

  /** The words of an item are among those of the page. */
  lemma ItemOnPage(s: seq<Byte>, e: Order, i: nat)
    requires PageOk(s, e) && HasItem(s, e, i)
    ensures SlotOk(s, e, i) && Within(Slot(i), Layout(s, e))
    ensures Within(Body(Kind(s, e), OffsetOf(s, e, i), s[OffsetOf(s, e, i) + 8]), Layout(s, e))
  {
    BelowTop(s, e, i);
    PageItemsApart(s, e);
    FormatDescribes(Kind(s, e));
    ItemParts(s, e, FormatOf(Kind(s, e)), i, Top(s, e), Layout(s, e));
    BodyOf(s, e, Kind(s, e), FormatOf(Kind(s, e)), i);
  }

  /** The references of an item, after its flags at p: with a big key (0x02) its page and
      size, and on a leaf with big data (0x01), those of the data. */
  predicate SameReferences(a: seq<Byte>, b: seq<Byte>, e: Order, kind: nat, p: nat, flags: Byte) {
    && (flags / 2 % 2 == 1 ==> SamePair(a, b, e, p))
    && (kind == 2 && flags % 2 == 1 ==> SamePair(a, b, e, if flags / 2 % 2 == 1 then p + 8 else p + 4))
  }

  lemma ReferencesBounds(kind: nat, p: nat, flags: Byte)
    ensures Between(References(kind, p, flags), p, ReferencesEnd(kind, p, flags))
  {
    PairHas(p);
    PairHas(p + 4);
    PairHas(p + 8);
    Consecutive(Pair(p), Pair(p + 8), p, p + 8, p + 8, p + 16);
    BetweenWider(Pair(p + 4), p + 4, p + 12, p, p + 12);
  }

  lemma ReferencesHave(kind: nat, p: nat, flags: Byte)
    ensures BigKey(flags) ==> Within(Pair(p), References(kind, p, flags))
    ensures kind == P_BLEAF && BigData(flags) ==>
              Within(Pair(if BigKey(flags) then p + 8 else p + 4), References(kind, p, flags))
  {
    PairHas(p);
    PairHas(p + 8);
    Consecutive(Pair(p), Pair(p + 8), p, p + 8, p + 8, p + 16);
  }

  lemma BodyHas(kind: nat, off: nat, flags: Byte)
    ensures var w := Body(kind, off, flags);
            && Within(Pair(off), w) && Within(Fixed(off + 8), w) && Within(References(kind, off + 9, flags), w)
            && Between(w, off, ReferencesEnd(kind, off + 9, flags))
  {
    var u, v, x := Pair(off), Fixed(off + 8), References(kind, off + 9, flags);
    PairHas(off);
    WordBounds(off + 8);
    ReferencesBounds(kind, off + 9, flags);
    Consecutive(u, v, off, off + 8, off + 8, off + 9);
    Consecutive(u + v, x, off, off + 9, off + 9, ReferencesEnd(kind, off + 9, flags));
    WithinWithin(u, u + v, u + v + x);
    WithinWithin(v, u + v, u + v + x);
  }

  lemma ReadReferences(a: seq<Byte>, b: seq<Byte>, w: Words, e: Order, kind: nat, p: nat, flags: Byte)
    requires Swapped(a, b, w) && Within(References(kind, p, flags), w)
    ensures SameReferences(a, b, e, kind, p, flags)
  {
    ReferencesHave(kind, p, flags);
    if BigKey(flags) {
      WithinWithin(Pair(p), References(kind, p, flags), w);
      ReadPair(a, b, w, e, p);
    }
    if kind == P_BLEAF && BigData(flags) {
      var q := if BigKey(flags) then p + 8 else p + 4;
      WithinWithin(Pair(q), References(kind, p, flags), w);
      ReadPair(a, b, w, e, q);
    }
  }

  /** An item at off: its two numbers, its flags and its references. */
  predicate SameItem(a: seq<Byte>, b: seq<Byte>, e: Order, kind: nat, off: nat) {
    && off + 9 <= |a| == |b| && SamePair(a, b, e, off) && b[off + 8] == a[off + 8]
    && SameReferences(a, b, e, kind, off + 9, a[off + 8])
  }

  lemma ReadBody(a: seq<Byte>, b: seq<Byte>, w: Words, e: Order, kind: nat, off: nat)
    requires off + 9 <= |a| && Swapped(a, b, w) && Within(Body(kind, off, a[off + 8]), w)
    ensures SameItem(a, b, e, kind, off)
  {
    var flags := a[off + 8];
    var body := Body(kind, off, flags);
    BodyHas(kind, off, flags);
    WithinWithin(Pair(off), body, w);
    WithinWithin(Fixed(off + 8), body, w);
    WithinWithin(References(kind, off + 9, flags), body, w);
    ReadPair(a, b, w, e, off);
    assert off + 8 in Fixed(off + 8) && SwappedAt(a, b, w, off + 8);
    ReadReferences(a, b, w, e, kind, off + 9, flags);
  }

  /** After a conversion, the slot of every item is read as before, and at the place that it
      gives, the sizes, page numbers and references of the item are. */
  lemma ItemNumbers(a: seq<Byte>, b: seq<Byte>, pg: nat, e: Order, i: nat)
    requires pg != P_META && Convertible(a, pg, e) && Converted(a, b, true, pg, e) && HasItem(a, e, i)
    ensures SameHalf(a, b, e, 20 + 2 * i)
    ensures SameItem(a, b, e, TypeOf(a, e), OffsetOf(a, e, i))
  {
    ItemOnPage(a, e, i);
    KindIsType(a, e);
    ReadHalf(a, b, Layout(a, e), e, LINP + 2 * i);
    ReadBody(a, b, Layout(a, e), e, Kind(a, e), OffsetOf(a, e, i));
  }

  // ----- the bytes that stay -----

  /** The byte at k changes places. */
  predicate Moves(w: Words, k: int) {
    k in w && w[k] != k
  }

  lemma MovesSum(v: Words, w: Words, k: int)
    ensures Moves(v + w, k) ==> Moves(v, k) || Moves(w, k)
  {
  }

  predicate InPair(at: nat, k: nat) {
    at <= k < at + 8
  }

  predicate InReferences(kind: nat, p: nat, flags: Byte, k: nat) {
    || (flags / 2 % 2 == 1 && InPair(p, k))
    || (kind == 2 && flags % 2 == 1 && InPair(if flags / 2 % 2 == 1 then p + 8 else p + 4, k))
  }

  /** The byte at k is one of the slot of item i or of the numbers of the item. */
  predicate InItem(s: seq<Byte>, e: Order, kind: nat, i: nat, k: nat)
    requires SlotOk(s, e, i)
  {
    var off := OffsetOf(s, e, i);
    20 + 2 * i <= k < 20 + 2 * i + 2 || InPair(off, k) || InReferences(kind, off + 9, s[off + 8], k)
  }

  lemma MovesPair(at: nat, k: nat)
    ensures Moves(Pair(at), k) ==> InPair(at, k)
  {
    PairHas(at);
    assert InRange(Pair(at), at, at + 8, k);
  }

  lemma MovesReferences(kind: nat, p: nat, flags: Byte, k: nat)
    requires HasItems(kind)
    ensures Moves(References(kind, p, flags), k) ==> InReferences(kind, p, flags, k)
  {
    MovesPair(p, k);
    MovesPair(p + 4, k);
    MovesPair(p + 8, k);
    MovesSum(Pair(p), Pair(p + 8), k);
  }

  lemma MovesBody(kind: nat, off: nat, flags: Byte, k: nat)
    requires HasItems(kind) && Moves(Body(kind, off, flags), k)
    ensures InPair(off, k) || InReferences(kind, off + 9, flags, k)
  {
    MovesSum(Pair(off) + Fixed(off + 8), References(kind, off + 9, flags), k);
    MovesSum(Pair(off), Fixed(off + 8), k);
    MovesPair(off, k);
    MovesReferences(kind, off + 9, flags, k);
  }

  lemma MovesFormat(kind: nat, f: Format, off: nat, flags: Byte, k: nat)
    requires HasItems(kind) && Describes(kind, f) && Moves(f(off, flags), k)
    ensures InPair(off, k) || InReferences(kind, off + 9, flags, k)
  {
    assert BodyIs(kind, f, off, flags);
    MovesBody(kind, off, flags, k);
  }

  lemma MovesSlot(i: nat, k: nat)
    ensures Moves(Slot(i), k) ==> 20 + 2 * i <= k < 20 + 2 * i + 2
  {
  }

  lemma MovesItem(s: seq<Byte>, e: Order, kind: nat, f: Format, i: nat, k: nat)
    requires HasItems(kind) && Describes(kind, f) && SlotOk(s, e, i) && Moves(Item(s, e, f, i), k)
    ensures InItem(s, e, kind, i, k)
  {
    MovesSum(Slot(i), BodyAt(s, e, f, i), k);
    MovesSlot(i, k);
    if Moves(BodyAt(s, e, f, i), k) {
      MovesFormat(kind, f, OffsetOf(s, e, i), s[OffsetOf(s, e, i) + 8], k);
    }
  }

  /** A byte that changes places with the words of the items is one of an item. */
  lemma {:induction false} MovesItems(s: seq<Byte>, e: Order, kind: nat, f: Format, n: nat, k: nat) returns (i: nat)
    requires HasItems(kind) && Describes(kind, f) && ItemsOk(s, e, f, n) && Moves(ItemsTo(s, e, f, n), k)
    ensures i < n && SlotOk(s, e, i) && InItem(s, e, kind, i, k)
    decreases n
  {
    assert n > 0;
    MovesSum(ItemsTo(s, e, f, n - 1), Item(s, e, f, n - 1), k);
    if Moves(Item(s, e, f, n - 1), k) {
      MovesItem(s, e, kind, f, n - 1, k);
      i := n - 1;
    } else {
      i := MovesItems(s, e, kind, f, n - 1, k);
    }
  }

  lemma InTop(s: seq<Byte>, e: Order, i: nat)
    requires LINP <= |s| && HasItems(Kind(s, e)) && LINP <= Read16(s, e, LOWER) && i < Top(s, e)
    ensures HasItem(s, e, i)
  {
    KindIsType(s, e);
  }

  /** The words of the items, with their format as a value. */
  lemma ItemsOfPage(s: seq<Byte>, e: Order, k: nat) returns (f: Format)
    requires PageOk(s, e) && Moves(PageItems(s, e), k)
    ensures HasItems(Kind(s, e)) && Describes(Kind(s, e), f) && ItemsOk(s, e, f, Top(s, e))
    ensures Moves(ItemsTo(s, e, f, Top(s, e)), k)
  {
    f := FormatOf(Kind(s, e));
    FormatDescribes(Kind(s, e));
  }

  lemma SomeItem(s: seq<Byte>, e: Order, k: nat) returns (i: nat)
    requires PageOk(s, e) && LINP <= Read16(s, e, LOWER) && Moves(PageItems(s, e), k)
    ensures HasItem(s, e, i) && SlotOk(s, e, i) && InItem(s, e, TypeOf(s, e), i, k)
  {
    var f := ItemsOfPage(s, e, k);
    i := MovesItems(s, e, Kind(s, e), f, Top(s, e), k);
    InTop(s, e, i);
    KindIsType(s, e);
  }

  /** What is neither in the header nor one of the numbers of an item is as it was. */
  lemma OtherBytes(a: seq<Byte>, b: seq<Byte>, pg: nat, e: Order, k: nat)
    requires pg != P_META && Convertible(a, pg, e) && Converted(a, b, true, pg, e)
    requires 20 <= Read16(a, e, 16) && 20 <= k < |a|
    requires forall i :: 0 <= i && HasItem(a, e, i) && SlotOk(a, e, i) ==> !InItem(a, e, TypeOf(a, e), i, k)
    ensures |b| == |a| && b[k] == a[k]
  {
    HeaderHas();
    assert InRange(Header(), 0, LINP, k);
    MovesSum(Header(), PageItems(a, e), k);
    if Moves(PageItems(a, e), k) {
      var i := SomeItem(a, e, k);
    }
    assert SwappedAt(a, b, Layout(a, e), k);
  }

  // ----- which pages can be converted -----

  /** Where the numbers of item i end. */
  function EndOf(s: seq<Byte>, e: Order, i: nat): nat
    requires SlotOk(s, e, i)
  {
    ReferencesEnd(Kind(s, e), OffsetOf(s, e, i) + 9, s[OffsetOf(s, e, i) + 8])
  }

  /** Item i lies on the page, after the n slots. */
  predicate Placed(s: seq<Byte>, e: Order, n: nat, i: nat) {
    SlotOk(s, e, i) && LINP + 2 * n <= OffsetOf(s, e, i) && EndOf(s, e, i) <= |s|
  }

  /** The numbers of two items do not overlap. */
  predicate Clear(s: seq<Byte>, e: Order, i: nat, j: nat)
    requires SlotOk(s, e, i) && SlotOk(s, e, j)
  {
    EndOf(s, e, i) <= OffsetOf(s, e, j) || EndOf(s, e, j) <= OffsetOf(s, e, i)
  }

  /** The first n items lie on the page, after the slots and clear of each other. */
  ghost predicate LaidOut(s: seq<Byte>, e: Order, n: nat) {
    && LINP <= |s|
    && (forall i {:trigger Placed(s, e, n, i)} :: 0 <= i < n ==> Placed(s, e, n, i))
    && (forall i, j {:trigger Clear(s, e, i, j)} :: 0 <= i < j < n ==> SlotOk(s, e, i) && SlotOk(s, e, j) && Clear(s, e, i, j))
  }

  lemma WordFits(at: nat, n: nat)
    ensures at + 4 <= n ==> Fits(Word(at), n)
    ensures at + 1 <= n ==> Fits(Fixed(at), n)
  {
  }

  lemma PairFits(at: nat, n: nat)
    requires at + 8 <= n
    ensures Fits(Pair(at), n)
  {
    WordFits(at, n);
    WordFits(at + 4, n);
    WordBounds(at);
    WordBounds(at + 4);
    BetweenApart(Word(at), Word(at + 4), at, at + 4, at + 4, at + 8);
    FitsBoth(Word(at), Word(at + 4), n);
  }

  lemma PairsFit(at: nat, n: nat)
    requires at + 16 <= n
    ensures Fits(Pair(at) + Pair(at + 8), n)
  {
    PairFits(at, n);
    PairFits(at + 8, n);
    PairHas(at);
    PairHas(at + 8);
    BetweenApart(Pair(at), Pair(at + 8), at, at + 8, at + 8, at + 16);
    FitsBoth(Pair(at), Pair(at + 8), n);
  }

  lemma ReferencesFit(kind: nat, p: nat, flags: Byte, n: nat, w: Words)
    requires ReferencesEnd(kind, p, flags) <= n && w == References(kind, p, flags)
    ensures Fits(w, n)
  {
    if p + 16 <= n {
      PairsFit(p, n);
    }
    if p + 12 <= n {
      PairFits(p + 4, n);
    }
    if p + 8 <= n {
      PairFits(p, n);
    }
  }

  lemma JoinFits(u: Words, v: Words, lo: int, mid: int, hi: int, n: nat)
    requires Fits(u, n) && Fits(v, n) && Between(u, lo, mid) && Between(v, mid, hi) && lo <= mid <= hi
    ensures Fits(u + v, n) && Between(u + v, lo, hi)
  {
    BetweenApart(u, v, lo, mid, mid, hi);
    FitsBoth(u, v, n);
    BetweenBoth(u, v, lo, mid, mid, hi);
  }

  lemma HeadFits(off: nat, n: nat)
    requires off + 9 <= n
    ensures Fits(Pair(off) + Fixed(off + 8), n) && Between(Pair(off) + Fixed(off + 8), off, off + 9)
  {
    PairFits(off, n);
    PairHas(off);
    WordFits(off + 8, n);
    WordBounds(off + 8);
    JoinFits(Pair(off), Fixed(off + 8), off, off + 8, off + 9, n);
  }

  lemma ReferencesParts(kind: nat, p: nat, flags: Byte, n: nat, w: Words, end: nat)
    requires end == ReferencesEnd(kind, p, flags) <= n && w == References(kind, p, flags)
    ensures Fits(w, n) && Between(w, p, end)
  {
    ReferencesFit(kind, p, flags, n, w);
    ReferencesBounds(kind, p, flags);
  }

  lemma HeadAndTail(off: nat, v: Words, end: nat, n: nat)
    requires off + 9 <= end <= n && Fits(v, n) && Between(v, off + 9, end)
    ensures Fits(Pair(off) + Fixed(off + 8) + v, n)
  {
    HeadFits(off, n);
    JoinFits(Pair(off) + Fixed(off + 8), v, off, off + 9, end, n);
  }

  lemma BodyFits(kind: nat, off: nat, flags: Byte, n: nat, v: Words)
    requires ReferencesEnd(kind, off + 9, flags) <= n && v == References(kind, off + 9, flags)
    ensures Fits(Pair(off) + Fixed(off + 8) + v, n)
  {
    ReferencesParts(kind, off + 9, flags, n, v, ReferencesEnd(kind, off + 9, flags));
    HeadAndTail(off, v, ReferencesEnd(kind, off + 9, flags), n);
  }

  lemma SlotBounds(i: nat)
    ensures Between(Slot(i), LINP + 2 * i, LINP + 2 * i + 2)
  {
    WordBounds(LINP + 2 * i);
  }

  lemma BodyParts(kind: nat, off: nat, flags: Byte, n: nat, w: Words)
    requires ReferencesEnd(kind, off + 9, flags) <= n && w == Body(kind, off, flags)
    ensures Between(w, off, ReferencesEnd(kind, off + 9, flags)) && Fits(w, n) && Stays(w, off + 8)
  {
    BodyHas(kind, off, flags);
    BodyFits(kind, off, flags, n, References(kind, off + 9, flags));
    assert off + 8 in Fixed(off + 8);
  }

  lemma FormatParts(kind: nat, f: Format, off: nat, flags: Byte, n: nat)
    requires Describes(kind, f) && ReferencesEnd(kind, off + 9, flags) <= n
    ensures Between(f(off, flags), off, ReferencesEnd(kind, off + 9, flags)) && Fits(f(off, flags), n)
    ensures Stays(f(off, flags), off + 8)
  {
    assert BodyIs(kind, f, off, flags);
    BodyParts(kind, off, flags, n, f(off, flags));
  }

  /** Where the numbers of an item are. */
  lemma PartsOf(s: seq<Byte>, e: Order, f: Format, n: nat, i: nat)
    requires LINP <= |s| && Describes(Kind(s, e), f) && Placed(s, e, n, i)
    ensures Between(BodyAt(s, e, f, i), OffsetOf(s, e, i), EndOf(s, e, i)) && OffsetOf(s, e, i) <= EndOf(s, e, i)
    ensures Fits(BodyAt(s, e, f, i), |s|) && Stays(BodyAt(s, e, f, i), OffsetOf(s, e, i) + 8)
  {
    FormatParts(Kind(s, e), f, OffsetOf(s, e, i), s[OffsetOf(s, e, i) + 8], |s|);
  }

  lemma SlotThenBody(u: Words, v: Words, at: int, off: int, end: int)
    requires Between(u, at, at + 2) && Between(v, off, end) && LINP <= at && at + 2 <= off <= end
    ensures Apart(u, v) && Apart(Header(), u + v)
  {
    BetweenApart(u, v, at, at + 2, off, end);
    BetweenBoth(u, v, at, at + 2, off, end);
    HeaderHas();
    BetweenApart(Header(), u + v, 0, LINP, at, end);
  }

  lemma PlacedIsOk(s: seq<Byte>, e: Order, f: Format, n: nat, i: nat)
    requires LINP <= |s| && Describes(Kind(s, e), f) && Placed(s, e, n, i) && i < n
    ensures ItemOk(s, e, f, i) && Apart(Header(), Item(s, e, f, i))
  {
    PartsOf(s, e, f, n, i);
    SlotBounds(i);
    SlotThenBody(Slot(i), BodyAt(s, e, f, i), LINP + 2 * i, OffsetOf(s, e, i), EndOf(s, e, i));
  }

  lemma BodiesApart(s: seq<Byte>, e: Order, f: Format, n: nat, i: nat, j: nat)
    requires LINP <= |s| && Describes(Kind(s, e), f) && Placed(s, e, n, i) && Placed(s, e, n, j) && Clear(s, e, i, j)
    ensures Apart(BodyAt(s, e, f, i), BodyAt(s, e, f, j))
  {
    PartsOf(s, e, f, n, i);
    PartsOf(s, e, f, n, j);
    var v, w := BodyAt(s, e, f, i), BodyAt(s, e, f, j);
    if EndOf(s, e, i) <= OffsetOf(s, e, j) {
      BetweenApart(v, w, OffsetOf(s, e, i), EndOf(s, e, i), OffsetOf(s, e, j), EndOf(s, e, j));
    } else {
      BetweenApart(w, v, OffsetOf(s, e, j), EndOf(s, e, j), OffsetOf(s, e, i), EndOf(s, e, i));
      ApartSymmetric(w, v);
    }
  }

  lemma SlotApart(s: seq<Byte>, e: Order, f: Format, n: nat, i: nat, j: nat)
    requires LINP <= |s| && Describes(Kind(s, e), f) && i < n && Placed(s, e, n, j)
    ensures Apart(Slot(i), BodyAt(s, e, f, j))
  {
    PartsOf(s, e, f, n, j);
    SlotBounds(i);
    BetweenApart(Slot(i), BodyAt(s, e, f, j), LINP + 2 * i, LINP + 2 * i + 2, OffsetOf(s, e, j), EndOf(s, e, j));
  }

  lemma ItemsClear(s: seq<Byte>, e: Order, f: Format, n: nat, i: nat, j: nat)
    requires LINP <= |s| && Describes(Kind(s, e), f) && LaidOut(s, e, n) && i < j < n && SlotOk(s, e, i) && SlotOk(s, e, j)
    ensures Apart(Item(s, e, f, i), Item(s, e, f, j))
  {
    assert Placed(s, e, n, i) && Placed(s, e, n, j) && Clear(s, e, i, j);
    var u, v, x, y := Slot(i), BodyAt(s, e, f, i), Slot(j), BodyAt(s, e, f, j);
    SlotBounds(i);
    SlotBounds(j);
    BetweenApart(u, x, LINP + 2 * i, LINP + 2 * i + 2, LINP + 2 * j, LINP + 2 * j + 2);
    SlotApart(s, e, f, n, i, j);
    SlotApart(s, e, f, n, j, i);
    ApartSymmetric(x, v);
    BodiesApart(s, e, f, n, i, j);
    SumApart(u, v, x);
    SumApart(u, v, y);
    ApartBoth(u + v, x, y);
  }

  lemma {:induction false} ItemsApartFrom(s: seq<Byte>, e: Order, f: Format, n: nat, m: nat, j: nat)
    requires LINP <= |s| && Describes(Kind(s, e), f) && LaidOut(s, e, n) && m <= j < n && ItemsOk(s, e, f, m) && SlotOk(s, e, j)
    ensures Apart(ItemsTo(s, e, f, m), Item(s, e, f, j))
    decreases m
  {
    if m > 0 {
      ItemsApartFrom(s, e, f, n, m - 1, j);
      ItemsClear(s, e, f, n, m - 1, j);
      SumApart(ItemsTo(s, e, f, m - 1), Item(s, e, f, m - 1), Item(s, e, f, j));
    }
  }

  lemma {:induction false} LaidOutItems(s: seq<Byte>, e: Order, f: Format, n: nat, m: nat)
    requires LINP <= |s| && Describes(Kind(s, e), f) && LaidOut(s, e, n) && m <= n
    ensures ItemsOk(s, e, f, m)
    decreases m
  {
    if m > 0 {
      LaidOutItems(s, e, f, n, m - 1);
      assert Placed(s, e, n, m - 1);
      PlacedIsOk(s, e, f, n, m - 1);
      ItemsApartFrom(s, e, f, n, m - 1, m - 1);
    }
  }

  lemma TopIs(s: seq<Byte>, e: Order)
    requires LINP <= |s| && LINP <= Read16(s, e, LOWER)
    ensures Top(s, e) == (Read16(s, e, LOWER) - LINP) / 2
  {
  }

  lemma LaidOutKind(s: seq<Byte>, e: Order, f: Format)
    requires LINP <= |s| && Describes(Kind(s, e), f) && LaidOut(s, e, Top(s, e))
    ensures ItemsOk(s, e, f, Top(s, e))
  {
    LaidOutItems(s, e, f, Top(s, e), Top(s, e));
  }

  /** A page whose items lie on it, after their slots and clear of each other, can be
      converted; and one that is neither of the two kinds with items, always. */
  lemma LaidOutIsOk(s: seq<Byte>, e: Order)
    requires LINP <= |s|
    requires TypeOf(s, e) == P_BINTERNAL || TypeOf(s, e) == P_BLEAF ==>
               LINP <= Read16(s, e, LOWER) && LaidOut(s, e, (Read16(s, e, LOWER) - LINP) / 2)
    ensures PageOk(s, e)
  {
    KindIsType(s, e);
    FormatDescribes(Kind(s, e));
    if HasItems(Kind(s, e)) {
      TopIs(s, e);
      LaidOutKind(s, e, FormatOf(Kind(s, e)));
    }
  }
}
