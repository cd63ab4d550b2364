/** The anchors of one source file: a cursor over a table sorted by line number, and the
    chain of links between its definitions. */
module AnchorTable {
  datatype Option<T> = None | Some(value: T)

  const DEFINITION := 'D'

  datatype Anchor = Anchor(lineno: nat, kind: char, name: string, done: bool)

  ghost predicate Sorted(t: seq<Anchor>) {
    forall i, j :: 0 <= i < j < |t| ==> t[i].lineno <= t[j].lineno
  }

  // ----- queries, answered by a scan of the whole table -----

  /** anchor_get asks for an unused anchor on a line, of any kind or of one kind. */
  predicate Matches(a: Anchor, name: string, kind: Option<char>, lineno: int) {
    a.lineno == lineno && !a.done && a.name == name && (kind == None || kind == Some(a.kind))
  }

  /** The first anchor from i on that matches. */
  function Scan(t: seq<Anchor>, i: nat, name: string, kind: Option<char>, lineno: int): Option<nat>
    requires i <= |t|
    decreases |t| - i
  {
    if i == |t| then None else if Matches(t[i], name, kind, lineno) then Some(i) else Scan(t, i + 1, name, kind, lineno)
  }

  /** A definition begins on the line. */
  ghost predicate IsDefinition(t: seq<Anchor>, lineno: int) {
    exists i :: 0 <= i < |t| && t[i].lineno == lineno && t[i].kind == DEFINITION
  }

  lemma {:induction false} ScanSkips(t: seq<Anchor>, i: nat, j: nat, name: string, kind: Option<char>, lineno: int)
    requires i <= j <= |t| && forall k :: i <= k < j ==> !Matches(t[k], name, kind, lineno)
    ensures Scan(t, i, name, kind, lineno) == Scan(t, j, name, kind, lineno)
    decreases j - i
  {
    if i < j {
      ScanSkips(t, i + 1, j, name, kind, lineno);
    }
  }

  lemma {:induction false} ScanIsInTable(t: seq<Anchor>, i: nat, name: string, kind: Option<char>, lineno: int)
    requires i <= |t|
    ensures var a := Scan(t, i, name, kind, lineno); a.Some? ==> i <= a.value < |t| && Matches(t[a.value], name, kind, lineno)
    decreases |t| - i
  {
    if i < |t| {
      ScanIsInTable(t, i + 1, name, kind, lineno);
    }
  }

  datatype Query = DefineLine(lineno: nat) | Get(name: string, kind: Option<char>, lineno: nat, use: bool)

  datatype Answer = IsDefined(yes: bool) | Found(anchor: Option<nat>)

  ghost function AnswerOf(t: seq<Anchor>, q: Query): Answer {
    match q
    case DefineLine(l) => IsDefined(IsDefinition(t, l))
    case Get(name, kind, l, _) => Found(Scan(t, 0, name, kind, l))
  }

  /** The table after a query whose anchor the caller marks as done. */
  ghost function Used(t: seq<Anchor>, q: Query): (u: seq<Anchor>)
    ensures |u| == |t|
  {
    match q
    case DefineLine(_) => t
    case Get(name, kind, l, use) =>
      match Scan(t, 0, name, kind, l)
      case Some(i) => if use && i < |t| then t[i := t[i].(done := true)] else t
      case None => t
  }

  /** The table after the first k queries. */
  ghost function UsedBy(t: seq<Anchor>, queries: seq<Query>, k: nat): (u: seq<Anchor>)
    requires k <= |queries|
    ensures |u| == |t|
  {
    if k == 0 then t else Used(UsedBy(t, queries, k - 1), queries[k - 1])
  }

  /** The answers to the first k queries, each by a scan of the whole table. */
  ghost function AnswersTo(t: seq<Anchor>, queries: seq<Query>, k: nat): seq<Answer>
    requires k <= |queries|
  {
    if k == 0 then [] else AnswersTo(t, queries, k - 1) + [AnswerOf(UsedBy(t, queries, k - 1), queries[k - 1])]
  }

  predicate Follows(queries: seq<Query>, i: nat)
    requires 0 < i < |queries|
  {
    queries[i - 1].lineno <= queries[i].lineno
  }

  ghost predicate InOrder(queries: seq<Query>) {
    forall i {:trigger Follows(queries, i)} :: 0 < i < |queries| ==> Follows(queries, i)
  }

  // ----- links between definitions -----

  predicate IsDefAt(t: seq<Anchor>, i: int, lineno: int)
    requires 0 <= i < |t|
  {
    t[i].lineno == lineno && t[i].kind == DEFINITION
  }

  /** The last definition on a line, at c or before; -1 if there is none. */
  function LastDefAt(t: seq<Anchor>, lineno: int, c: int): (i: int)
    requires -1 <= c < |t|
    ensures -1 <= i <= c && (i >= 0 ==> IsDefAt(t, i, lineno))
    ensures forall k :: i < k <= c ==> !IsDefAt(t, k, lineno)
    decreases c + 1
  {
    if c < 0 then -1 else if IsDefAt(t, c, lineno) then c else LastDefAt(t, lineno, c - 1)
  }

  /** The first definition on a line, at c or after; the length of the table if there is none. */
  function FirstDefAt(t: seq<Anchor>, lineno: int, c: nat): (i: int)
    requires c <= |t|
    ensures c <= i <= |t| && (i < |t| ==> IsDefAt(t, i, lineno))
    ensures forall k :: c <= k < i ==> !IsDefAt(t, k, lineno)
    decreases |t| - c
  {
    if c == |t| || IsDefAt(t, c, lineno) then c else FirstDefAt(t, lineno, c + 1)
  }

  lemma {:induction false} LastDefBefore(t: seq<Anchor>, lineno: int, c: nat)
    requires c < |t| && forall i :: c < i < |t| ==> t[i].kind != DEFINITION
    ensures LastDefAt(t, lineno, c) == LastDefAt(t, lineno, |t| - 1)
    decreases |t| - c
  {
    if c + 1 < |t| {
      LastDefBefore(t, lineno, c + 1);
    }
  }

  /** The line of the definition before c; 0 if there is none. */
  function PrevFrom(t: seq<Anchor>, c: int): nat
    requires c <= |t|
    decreases if c < 0 then 0 else c
  {
    if c <= 0 then 0 else if t[c - 1].kind == DEFINITION then t[c - 1].lineno else PrevFrom(t, c - 1)
  }

  /** The line of the definition after c; 0 if there is none. */
  function NextFrom(t: seq<Anchor>, c: int): nat
    requires -1 <= c
    decreases if c < |t| then |t| - c else 0
  {
    if c + 1 >= |t| then 0 else if t[c + 1].kind == DEFINITION then t[c + 1].lineno else NextFrom(t, c + 1)
  }

  /** FIRST and LAST. */
  function First(t: seq<Anchor>): nat {
    NextFrom(t, -1)
  }

  function Last(t: seq<Anchor>): nat {
    PrevFrom(t, |t|)
  }

  /** The link from a line to the next definition, and to the previous one. */
  function NextLink(t: seq<Anchor>, lineno: int): nat {
    NextFrom(t, LastDefAt(t, lineno, |t| - 1))
  }

  function PrevLink(t: seq<Anchor>, lineno: int): nat {
    PrevFrom(t, LastDefAt(t, lineno, |t| - 1))
  }

  /** The lines of the definitions among the first n anchors, each line once. */
  function DefLines(t: seq<Anchor>, n: nat): (d: seq<nat>)
    requires n <= |t|
  {
    if n == 0 then []
    else
      var d := DefLines(t, n - 1);
      if t[n - 1].kind == DEFINITION && (d == [] || d[|d| - 1] != t[n - 1].lineno) then d + [t[n - 1].lineno] else d
  }

  ghost predicate Increasing(d: seq<nat>) {
    forall i, j :: 0 <= i < j < |d| ==> d[i] < d[j]
  }

  lemma {:induction false} LineAt(t: seq<Anchor>, n: nat, k: nat) returns (i: nat)
    requires n <= |t| && k < |DefLines(t, n)|
    ensures i < n && IsDefAt(t, i, DefLines(t, n)[k])
    decreases n
  {
    if k < |DefLines(t, n - 1)| {
      i := LineAt(t, n - 1, k);
    } else {
      i := n - 1;
    }
  }

  lemma {:induction false} PlaceOf(t: seq<Anchor>, n: nat, i: nat) returns (k: nat)
    requires i < n <= |t| && t[i].kind == DEFINITION
    ensures k < |DefLines(t, n)| && DefLines(t, n)[k] == t[i].lineno
    decreases n
  {
    if i < n - 1 {
      k := PlaceOf(t, n - 1, i);
    } else {
      k := |DefLines(t, n)| - 1;
    }
  }

  lemma {:induction false} DefLinesIncrease(t: seq<Anchor>, n: nat)
    requires Sorted(t) && n <= |t|
    ensures Increasing(DefLines(t, n))
    decreases n
  {
    if n > 0 {
      DefLinesIncrease(t, n - 1);
      var d := DefLines(t, n - 1);
      if d != [] {
        var i := LineAt(t, n - 1, |d| - 1);
      }
    }
  }

  /** The definition lines of a table are exactly the lines of its list. */
  lemma DefLinesAre(t: seq<Anchor>, lineno: nat)
    ensures IsDefinition(t, lineno) <==> exists k :: 0 <= k < |DefLines(t, |t|)| && DefLines(t, |t|)[k] == lineno
  {
    if IsDefinition(t, lineno) {
      var i :| 0 <= i < |t| && t[i].lineno == lineno && t[i].kind == DEFINITION;
      var _ := PlaceOf(t, |t|, i);
    }
    if k :| 0 <= k < |DefLines(t, |t|)| && DefLines(t, |t|)[k] == lineno {
      var _ := LineAt(t, |t|, k);
    }
  }

  /** The definition that NextFrom finds. */
  lemma {:induction false} NextIndex(t: seq<Anchor>, c: int) returns (i: int)
    requires -1 <= c < |t|
    ensures c < i <= |t| && forall k :: c < k < i ==> t[k].kind != DEFINITION
    ensures if i == |t| then NextFrom(t, c) == 0 else t[i].kind == DEFINITION && NextFrom(t, c) == t[i].lineno
    decreases |t| - c
  {
    i := c + 1;
    if i < |t| && t[i].kind != DEFINITION {
      i := NextIndex(t, i);
    }
  }

  /** The definition that PrevFrom finds. */
  lemma {:induction false} PrevIndex(t: seq<Anchor>, c: nat) returns (i: int)
    requires c <= |t|
    ensures -1 <= i < c && forall k :: i < k < c ==> t[k].kind != DEFINITION
    ensures if i < 0 then PrevFrom(t, c) == 0 else t[i].kind == DEFINITION && PrevFrom(t, c) == t[i].lineno
    decreases c
  {
    i := c - 1;
    if i >= 0 && t[i].kind != DEFINITION {
      i := PrevIndex(t, c - 1);
    }
  }

  ghost predicate HasDefinition(t: seq<Anchor>) {
    exists i :: 0 <= i < |t| && t[i].kind == DEFINITION
  }

  lemma DefinitionsHaveLines(t: seq<Anchor>)
    ensures HasDefinition(t) <==> DefLines(t, |t|) != []
  {
    if HasDefinition(t) {
      var i :| 0 <= i < |t| && t[i].kind == DEFINITION;
      var _ := PlaceOf(t, |t|, i);
    }
    if DefLines(t, |t|) != [] {
      var _ := LineAt(t, |t|, 0);
    }
  }

  ghost predicate LinesPositive(t: seq<Anchor>) {
    forall i :: 0 <= i < |t| ==> t[i].lineno > 0
  }

  /** FIRST and LAST are the ends of the list of definition lines. */
  lemma FirstAndLast(t: seq<Anchor>)
    requires Sorted(t) && DefLines(t, |t|) != []
    ensures var d := DefLines(t, |t|); First(t) == d[0] && Last(t) == d[|d| - 1]
  {
    var d := DefLines(t, |t|);
    DefLinesIncrease(t, |t|);
    var f := LineAt(t, |t|, 0);
    var l := LineAt(t, |t|, |d| - 1);
    var i := NextIndex(t, -1);
    var j := PrevIndex(t, |t|);
    var k := PlaceOf(t, |t|, i);
    var m := PlaceOf(t, |t|, j);
  }

  /** The next links visit every definition line once, in order, and end at the last. */
  lemma NextLinkIs(t: seq<Anchor>, k: nat)
    requires Sorted(t) && LinesPositive(t) && k < |DefLines(t, |t|)|
    ensures var d := DefLines(t, |t|); NextLink(t, d[k]) == if k + 1 < |d| then d[k + 1] else 0
  {
    var d := DefLines(t, |t|);
    DefLinesIncrease(t, |t|);
    var own := LineAt(t, |t|, k);
    var c := LastDefAt(t, d[k], |t| - 1);
    assert own <= c;
    var i := NextIndex(t, c);
    if k + 1 < |d| {
      var j := LineAt(t, |t|, k + 1);
      assert c < j && i <= j;
    }
    if i < |t| {
      assert !IsDefAt(t, i, d[k]) && t[i].lineno > d[k];
      var m := PlaceOf(t, |t|, i);
    }
  }

  /** Where k next links lead from FIRST. */
  function Follow(t: seq<Anchor>, k: nat): nat {
    if k == 0 then First(t) else NextLink(t, Follow(t, k - 1))
  }

  lemma {:induction false} FollowIs(t: seq<Anchor>, k: nat)
    requires Sorted(t) && LinesPositive(t) && k < |DefLines(t, |t|)|
    ensures Follow(t, k) == DefLines(t, |t|)[k]
    decreases k
  {
    if k == 0 {
      FirstAndLast(t);
    } else {
      FollowIs(t, k - 1);
      NextLinkIs(t, k - 1);
    }
  }

  ghost predicate Reached(t: seq<Anchor>, lineno: nat) {
    exists k :: 0 <= k < |DefLines(t, |t|)| && Follow(t, k) == lineno
  }

  /** From FIRST, the next links come to a line exactly if a definition begins on it, */
  lemma ChainIsComplete(t: seq<Anchor>, lineno: nat)
    requires Sorted(t) && LinesPositive(t)
    ensures Reached(t, lineno) <==> IsDefinition(t, lineno)
  {
    DefLinesAre(t, lineno);
    if Reached(t, lineno) {
      var k :| 0 <= k < |DefLines(t, |t|)| && Follow(t, k) == lineno;
      FollowIs(t, k);
      assert DefLines(t, |t|)[k] == lineno;
    }
    if IsDefinition(t, lineno) {
      var k :| 0 <= k < |DefLines(t, |t|)| && DefLines(t, |t|)[k] == lineno;
      FollowIs(t, k);
      assert Follow(t, k) == lineno;
    }
  }

  /** to each such line once and in order, */
  lemma ChainInOrder(t: seq<Anchor>, j: nat, k: nat)
    requires Sorted(t) && LinesPositive(t) && j < k < |DefLines(t, |t|)|
    ensures Follow(t, j) < Follow(t, k)
  {
    DefLinesIncrease(t, |t|);
    FollowIs(t, j);
    FollowIs(t, k);
  }

  /** and at last to LAST, where they end. */
  lemma ChainEnds(t: seq<Anchor>)
    requires Sorted(t) && LinesPositive(t) && DefLines(t, |t|) != []
    ensures Follow(t, |DefLines(t, |t|)| - 1) == Last(t) && NextLink(t, Last(t)) == 0
  {
    var k := |DefLines(t, |t|)| - 1;
    FollowIs(t, k);
    FirstAndLast(t);
    NextLinkIs(t, k);
  }

  /** Only one definition begins on the line. */
  ghost predicate Single(t: seq<Anchor>, lineno: int) {
    forall i, j :: 0 <= i < j < |t| && IsDefAt(t, i, lineno) ==> !IsDefAt(t, j, lineno)
  }

  lemma OnlyOne(t: seq<Anchor>, lineno: int, i: nat, c: nat)
    requires Sorted(t) && i < c < |t| && t[i].lineno < lineno && c == LastDefAt(t, lineno, |t| - 1)
    requires forall k :: i < k < c ==> t[k].kind != DEFINITION
    ensures Single(t, lineno)
  {
    forall x, y | 0 <= x < y < |t| && IsDefAt(t, x, lineno) ensures !IsDefAt(t, y, lineno) {
      assert x > i;
    }
  }

  /** The previous link undoes the next link exactly if one definition begins on the line
      it starts from; if there are more, the line links to itself. */
  lemma PrevLinkIs(t: seq<Anchor>, k: nat)
    requires Sorted(t) && LinesPositive(t) && 0 < k < |DefLines(t, |t|)|
    ensures var d := DefLines(t, |t|);
            && NextLink(t, d[k - 1]) == d[k]
            && (PrevLink(t, d[k]) == d[k - 1] <==> Single(t, d[k]))
            && (PrevLink(t, d[k]) == d[k] <==> !Single(t, d[k]))
  {
    var d := DefLines(t, |t|);
    DefLinesIncrease(t, |t|);
    NextLinkIs(t, k - 1);
    var own := LineAt(t, |t|, k);
    var before := LineAt(t, |t|, k - 1);
    var c := LastDefAt(t, d[k], |t| - 1);
    assert own <= c && before < c;
    var i := PrevIndex(t, c);
    assert before <= i;
    if t[i].lineno == d[k] {
      assert IsDefAt(t, i, d[k]) && IsDefAt(t, c, d[k]);
    } else {
      var m := PlaceOf(t, |t|, i);
      assert m == k - 1;
      OnlyOne(t, d[k], i, c);
    }
  }

  /** Where k previous links lead from LAST. */
  function Back(t: seq<Anchor>, k: nat): nat {
    if k == 0 then Last(t) else PrevLink(t, Back(t, k - 1))
  }

  /** No definition line from the j-th on has two definitions. */
  ghost predicate SingleFrom(t: seq<Anchor>, j: int) {
    forall i {:trigger DefLines(t, |t|)[i]} :: 0 <= i < |DefLines(t, |t|)| && j <= i ==> Single(t, DefLines(t, |t|)[i])
  }

  /** As long as the lines that it starts from have one definition each, k previous links
      lead k definition lines back. */
  lemma {:induction false} BackIs(t: seq<Anchor>, k: nat)
    requires Sorted(t) && LinesPositive(t) && k < |DefLines(t, |t|)| && SingleFrom(t, |DefLines(t, |t|)| - k)
    ensures Back(t, k) == DefLines(t, |t|)[|DefLines(t, |t|)| - 1 - k]
    decreases k
  {
    var d := DefLines(t, |t|);
    if k == 0 {
      FirstAndLast(t);
    } else {
      BackIs(t, k - 1);
      assert Single(t, d[|d| - k]);
      PrevLinkIs(t, |d| - k);
    }
  }

  /** From a line with more definitions they lead nowhere else. */
  lemma {:induction false} BackStays(t: seq<Anchor>, j: nat, m: nat, k: nat)
    requires Sorted(t) && LinesPositive(t) && 0 < j < |DefLines(t, |t|)| && !Single(t, DefLines(t, |t|)[j])
    requires m <= k && Back(t, m) == DefLines(t, |t|)[j]
    ensures Back(t, k) == DefLines(t, |t|)[j]
    decreases k
  {
    if m < k {
      BackStays(t, j, m, k - 1);
      PrevLinkIs(t, j);
    }
  }

  /** The last definition line but the first that has more than one definition. */
  lemma LastDoubled(t: seq<Anchor>) returns (j: nat)
    requires !SingleFrom(t, 1)
    ensures 0 < j < |DefLines(t, |t|)| && !Single(t, DefLines(t, |t|)[j]) && SingleFrom(t, j + 1)
  {
    var d := DefLines(t, |t|);
    j := |d| - 1;
    while Single(t, d[j])
      invariant 0 < j < |d| && SingleFrom(t, j + 1)
      decreases j
    {
      assert SingleFrom(t, j);
      j := j - 1;
    }
  }

  lemma BackNeverFirst(t: seq<Anchor>, j: nat, k: nat)
    requires Sorted(t) && LinesPositive(t) && 0 < j < |DefLines(t, |t|)|
    requires !Single(t, DefLines(t, |t|)[j]) && SingleFrom(t, j + 1)
    ensures Back(t, k) != First(t)
  {
    var d := DefLines(t, |t|);
    FirstAndLast(t);
    DefLinesIncrease(t, |t|);
    var m := |d| - 1 - j;
    if k <= m {
      assert SingleFrom(t, |d| - k);
      BackIs(t, k);
    } else {
      BackIs(t, m);
      BackStays(t, j, m, k);
    }
  }

  ghost predicate BackToFirst(t: seq<Anchor>) {
    exists k :: Back(t, k) == First(t)
  }

  /** From LAST, the previous links come to FIRST exactly if every definition line after
      the first has one definition. */
  lemma PreviousReachFirst(t: seq<Anchor>)
    requires Sorted(t) && LinesPositive(t) && DefLines(t, |t|) != []
    ensures BackToFirst(t) <==> SingleFrom(t, 1)
  {
    if SingleFrom(t, 1) {
      var k := |DefLines(t, |t|)| - 1;
      BackIs(t, k);
      FirstAndLast(t);
      assert Back(t, k) == First(t);
    } else {
      var j := LastDoubled(t);
      forall k: nat ensures Back(t, k) != First(t) {
        BackNeverFirst(t, j, k);
      }
    }
  }

  /** Definitions on the lines 3, 5, 5 and 7: line 5 is reached from line 3, and its
      previous link leads to itself. */
  lemma SelfLinkExample()
    ensures var t := [Anchor(3, DEFINITION, "f", false), Anchor(5, DEFINITION, "g", false),
                      Anchor(5, DEFINITION, "h", false), Anchor(7, DEFINITION, "k", false)];
            Sorted(t) && NextLink(t, 3) == 5 && PrevLink(t, 5) == 5 && NextLink(t, 5) == 7
  {
    DoubledLine(Anchor(3, DEFINITION, "f", false), Anchor(5, DEFINITION, "g", false),
                Anchor(5, DEFINITION, "h", false), Anchor(7, DEFINITION, "k", false));
  }

  lemma DoubledLine(a: Anchor, b: Anchor, c: Anchor, e: Anchor)
    requires a.kind == b.kind == c.kind == e.kind == DEFINITION && a.lineno < b.lineno == c.lineno < e.lineno
    ensures var t := [a, b, c, e];
            && Sorted(t) && NextLink(t, a.lineno) == b.lineno
            && PrevLink(t, b.lineno) == b.lineno && NextLink(t, b.lineno) == e.lineno
  {
    var t := [a, b, c, e];
    assert IsDefAt(t, 0, a.lineno) && LastDefAt(t, a.lineno, 3) == 0;
    assert IsDefAt(t, 2, b.lineno) && LastDefAt(t, b.lineno, 3) == 2;
  }

  // ----- the code -----

  /** What a link to the top or the bottom of the page is marked with. */
  const TOP := -1
  const BOTTOM := -2

  datatype Links = Links(prev: int, next: int, first: int, last: int, top: int, bottom: int)

  class AnchorTable {
    var table: seq<Anchor>
    /** The top of the cluster of the last line that was found. */
    var curp: Option<nat>
    var first: nat
    var last: nat
    var current: int
    /** Not reset when another file is loaded. */
    var currentDef: Option<int>

    /** The cursor is the top of the anchors on its line. */
    constructor ()
      ensures Valid() && curp == None && table == []
    {
      table, curp, first, last, current, currentDef := [], None, 0, 0, 0, None;
    }

    ghost predicate Valid()
      reads `table, `curp
    {
      Sorted(table) && (curp.Some? ==> curp.value < |table| && IsTop(curp.value))
    }

    ghost predicate IsTop(p: nat)
      requires p < |table|
      reads `table
    {
      forall i :: 0 <= i < p ==> table[i].lineno < table[p].lineno
    }

    /** A line before the cursor is not found. */
    predicate Behind(lineno: int)
      requires curp.Some? ==> curp.value < |table|
      reads `table, `curp
    {
      curp.Some? && lineno < table[curp.value].lineno
    }

    /** The loop that both queries begin with: the top of the cluster of a line. */
    method TopOf(lineno: int) returns (p: Option<nat>)
      requires Valid()
      modifies `curp
      ensures Valid()
      ensures p.Some? ==> curp == p && p.value < |table| && table[p.value].lineno == lineno && !old(Behind(lineno))
      ensures p == None ==>
                && curp == old(curp)
                && (old(Behind(lineno)) || forall i :: 0 <= i < |table| ==> table[i].lineno != lineno)
    {
      p := None;
      if |table| == 0 {
        return;
      }
      var q := if curp.Some? then curp.value else 0;
      if table[q].lineno > lineno {
        return;
      }
      while q < |table| && table[q].lineno < lineno
        invariant q <= |table| && !Behind(lineno)
        invariant forall i :: 0 <= i < q ==> table[i].lineno < lineno
        decreases |table| - q
      {
        q := q + 1;
      }
      if q < |table| && table[q].lineno == lineno {
        p := Some(q);
        curp := p;
      }
    }

    /** anchor_get: a scan of the whole table, except for a line before the cursor. */
    method Get(name: string, kind: Option<char>, lineno: nat) returns (a: Option<nat>)
      requires Valid()
      modifies `curp
      ensures Valid()
      ensures a == if old(Behind(lineno)) then None else Scan(table, 0, name, kind, lineno)
      ensures curp == old(curp) || (curp.Some? && table[curp.value].lineno == lineno)
    {
      var top := TopOf(lineno);
      if top == None {
        a := None;
        if !Behind(lineno) {
          ScanSkips(table, 0, |table|, name, kind, lineno);
        }
      } else {
        ScanSkips(table, 0, top.value, name, kind, lineno);
        a := GetFrom(top.value, name, kind, lineno);
      }
    }

    /** The loop over the cluster of a line. */
    method GetFrom(top: nat, name: string, kind: Option<char>, lineno: nat) returns (a: Option<nat>)
      requires Sorted(table) && top < |table| && table[top].lineno == lineno
      ensures a == Scan(table, top, name, kind, lineno)
    {
      var p := top;
      while p < |table| && table[p].lineno == lineno
        invariant top <= p <= |table| && Scan(table, p, name, kind, lineno) == Scan(table, top, name, kind, lineno)
        decreases |table| - p
      {
        if !table[p].done && table[p].name == name && (kind == None || kind == Some(table[p].kind)) {
          return Some(p);
        }
        p := p + 1;
      }
      ScanSkips(table, p, |table|, name, kind, lineno);
      a := None;
    }

    /** define_line, likewise. */
    method DefineLine(lineno: nat) returns (yes: bool)
      requires Valid()
      modifies `curp
      ensures Valid()
      ensures yes == (!old(Behind(lineno)) && IsDefinition(table, lineno))
      ensures curp == old(curp) || (curp.Some? && table[curp.value].lineno == lineno)
    {
      yes := false;
      var top := TopOf(lineno);
      if top == None {
        return;
      }
      var p := top.value;
      while p < |table| && table[p].lineno == lineno
        invariant top.value <= p <= |table|
        invariant forall i :: 0 <= i < p ==> table[i].lineno < lineno || (table[i].lineno == lineno && table[i].kind != DEFINITION)
        decreases |table| - p
      {
        if table[p].kind == DEFINITION {
          return true;
        }
        p := p + 1;
      }
    }

    /** A query; the caller of anchor_get may mark the anchor that it gets. */
    method Ask(q: Query) returns (answer: Answer)
      requires Valid() && !Behind(q.lineno)
      modifies `curp, `table
      ensures Valid() && answer == AnswerOf(old(table), q) && table == Used(old(table), q)
      ensures curp == old(curp) || (curp.Some? && table[curp.value].lineno == q.lineno)
    {
      match q {
        case DefineLine(lineno) =>
          var yes := DefineLine(lineno);
          answer := IsDefined(yes);
        case Get(name, kind, lineno, use) =>
          var a := Get(name, kind, lineno);
          answer := Found(a);
          if a.Some? && use {
            ScanIsInTable(table, 0, name, kind, lineno);
            table := table[a.value := table[a.value].(done := true)];
          }
      }
    }

    /** Any queries in the order of their lines: each is answered as by a scan of the
        whole table, with the marks that the queries before it have left. */
    method AskAll(queries: seq<Query>) returns (answers: seq<Answer>)
      requires Valid() && InOrder(queries) && curp == None
      modifies `curp, `table
      ensures Valid() && table == UsedBy(old(table), queries, |queries|)
      ensures answers == AnswersTo(old(table), queries, |queries|)
    {
      answers := [];
      var n := 0;
      while n < |queries|
        invariant 0 <= n <= |queries| && Valid()
        invariant table == UsedBy(old(table), queries, n) && answers == AnswersTo(old(table), queries, n)
        invariant curp.Some? ==> n > 0 && table[curp.value].lineno <= queries[n - 1].lineno
      {
        assert n > 0 ==> Follows(queries, n);
        var answer := Ask(queries[n]);
        answers := answers + [answer];
        n := n + 1;
      }
    }

    /** anchor_load, after the lines have been read; qsort has put them in order. */
    method Load(sorted: seq<Anchor>)
      requires Sorted(sorted)
      modifies this
      ensures Valid() && table == sorted && curp == None && first == First(table) && last == Last(table)
      ensures currentDef == old(currentDef)
    {
      table, curp, current, first, last := sorted, None, -1, 0, 0;
      var i := 0;
      while i < |table| && table[i].kind != DEFINITION
        invariant 0 <= i <= |table| && First(table) == NextFrom(table, i - 1)
      {
        i := i + 1;
      }
      if i < |table| {
        first := table[i].lineno;
      }
      i := |table| - 1;
      while i >= 0 && table[i].kind != DEFINITION
        invariant -1 <= i < |table| && Last(table) == PrevFrom(table, i + 1)
        decreases i + 1
      {
        i := i - 1;
      }
      if i >= 0 {
        last := table[i].lineno;
      }
    }

    /** The definition that is remembered is in the table, and none lies after it. */
    ghost predicate RemembersLast()
      reads `table, `currentDef
    {
      && currentDef.Some? && 0 <= currentDef.value < |table|
      && forall i :: currentDef.value < i < |table| ==> table[i].kind != DEFINITION
    }

    /** Every anchor after anchor_first and anchor_next have returned all of them: the
        last definition is remembered. */
    method VisitAll() returns (visited: seq<Anchor>)
      modifies `current, `currentDef
      ensures visited == table
      ensures HasDefinition(table) ==> RemembersLast()
      ensures (forall i :: 0 <= i < |table| ==> table[i].kind != DEFINITION) ==> currentDef == old(currentDef)
      ensures currentDef == old(currentDef) || (currentDef.Some? && 0 <= currentDef.value < |table|)
    {
      visited := [];
      current := 0;
      while current < |table|
        invariant 0 <= current <= |table| && visited == table[..current]
        invariant forall i :: 0 <= i < current && table[i].kind == DEFINITION ==> currentDef.Some? && i <= currentDef.value < current
        invariant (forall i :: 0 <= i < current ==> table[i].kind != DEFINITION) ==> currentDef == old(currentDef)
        invariant currentDef == old(currentDef) || (currentDef.Some? && 0 <= currentDef.value < current)
        decreases |table| - current
      {
        if table[current].kind == DEFINITION {
          currentDef := Some(current);
        }
        visited := visited + [table[current]];
        current := current + 1;
      }
    }

    /** The definition on a line that the links start from: the last one, as far as the
        remembered definition lets it be found; the first one, if none is remembered. */
    ghost function Chosen(lineno: nat): (c: int)
      requires currentDef.Some? ==> 0 <= currentDef.value < |table|
      reads `table, `currentDef
      ensures -1 <= c <= |table|
    {
      if currentDef.Some? then LastDefAt(table, lineno, currentDef.value) else FirstDefAt(table, lineno, 0)
    }

    /** The part of anchor_getlinks that looks for the definition on a line. */
    method Choose(lineno: nat) returns (c: int)
      requires currentDef.Some? ==> 0 <= currentDef.value < |table|
      modifies `currentDef
      ensures c == old(Chosen(lineno))
      ensures old(currentDef).Some? ==> currentDef == old(currentDef)
    {
      if currentDef == None {
        c := 0;
        while c < |table| && !(table[c].lineno == lineno && table[c].kind == DEFINITION)
          invariant 0 <= c <= |table| && FirstDefAt(table, lineno, c) == FirstDefAt(table, lineno, 0)
          decreases |table| - c
        {
          c := c + 1;
        }
        currentDef := Some(c);
      } else {
        c := currentDef.value;
        while c >= 0 && !(table[c].lineno == lineno && table[c].kind == DEFINITION)
          invariant -1 <= c < |table| && LastDefAt(table, lineno, c) == LastDefAt(table, lineno, currentDef.value)
          decreases c + 1
        {
          c := c - 1;
        }
      }
    }

    /** The part of anchor_getlinks for a line of the file: the links to the previous
        and the next definition. */
    method Neighbours(lineno: nat) returns (prev: nat, next: nat)
      requires currentDef.Some? ==> 0 <= currentDef.value < |table|
      modifies `currentDef
      ensures prev == PrevFrom(table, old(Chosen(lineno))) && next == NextFrom(table, old(Chosen(lineno)))
      ensures old(currentDef).Some? ==> currentDef == old(currentDef)
    {
      var c := Choose(lineno);
      prev, next := 0, 0;
      var p := c - 1;
      while p >= 0 && table[p].kind != DEFINITION
        invariant p < c && (p >= 0 ==> PrevFrom(table, p + 1) == PrevFrom(table, c)) && (p < 0 ==> PrevFrom(table, c) == 0)
        decreases p + 1
      {
        p := p - 1;
      }
      if p >= 0 {
        prev := table[p].lineno;
      }
      p := c + 1;
      while p < |table| && table[p].kind != DEFINITION
        invariant c < p && NextFrom(table, p - 1) == NextFrom(table, c)
        decreases |table| - p
      {
        p := p + 1;
      }
      if p < |table| {
        next := table[p].lineno;
      }
    }

    /** anchor_getlinks: for a line of the file, for 0, which is the top of the page, and
        for -1, its bottom. No link to the first or last definition leads to where it is,
        and the top and the bottom have one link if FIRST and LAST are the same. */
    method GetLinks(lineno: int) returns (links: Links)
      requires lineno >= 1 && currentDef.Some? ==> 0 <= currentDef.value < |table|
      modifies `currentDef
      ensures old(currentDef).Some? ==> currentDef == old(currentDef)
      ensures lineno < 1 ==> links.prev == links.next == 0 && currentDef == old(currentDef)
      ensures lineno >= 1 ==>
                links.prev == PrevFrom(table, old(Chosen(lineno))) && links.next == NextFrom(table, old(Chosen(lineno)))
      ensures links.first == if first == lineno || (lineno == -1 && first == last) then 0 else first
      ensures links.last == if last == lineno || (lineno == 0 && first == last) then 0 else last
      ensures links.top == (if lineno == 0 then 0 else TOP) && links.bottom == (if lineno == -1 then 0 else BOTTOM)
    {
      links := Links(0, 0, 0, 0, 0, 0);
      if lineno >= 1 {
        var prev, next := Neighbours(lineno);
        links := links.(prev := prev, next := next);
      }
      if first > 0 && lineno != first {
        links := links.(first := first);
      }
      if last > 0 && lineno != last {
        links := links.(last := last);
      }
      if lineno != 0 {
        links := links.(top := TOP);
      }
      if lineno != -1 {
        links := links.(bottom := BOTTOM);
      }
      if first > 0 && first == last {
        if lineno == 0 {
          links := links.(last := 0);
        }
        if lineno == -1 {
          links := links.(first := 0);
        }
      }
    }

    /** After all anchors have been visited, the links are those of the chain. */
    lemma LinksAfterVisit(lineno: nat)
      requires RemembersLast()
      ensures PrevFrom(table, Chosen(lineno)) == PrevLink(table, lineno)
      ensures NextFrom(table, Chosen(lineno)) == NextLink(table, lineno)
    {
      LastDefBefore(table, lineno, currentDef.value);
    }

    /** A page whose links can be asked for: with a definition, all anchors were visited. */
    ghost predicate Ready()
      reads `table, `currentDef, `first, `last
    {
      && Sorted(table) && LinesPositive(table) && first == First(table) && last == Last(table)
      && (HasDefinition(table) ==> RemembersLast())
    }

    /** A new file after any others, as src2html begins its page. */
    method Open(sorted: seq<Anchor>)
      requires Sorted(sorted) && LinesPositive(sorted)
      modifies this
      ensures Ready() && table == sorted
    {
      Load(sorted);
      var _ := VisitAll();
    }

    /** The links to the neighbours of a line that a link leads to. */
    method LinksOf(lineno: nat) returns (links: Links)
      requires Ready() && (lineno > 0 ==> HasDefinition(table))
      modifies `currentDef
      ensures Ready()
      ensures links.prev == PrevLink(table, lineno) && (lineno > 0 ==> links.next == NextLink(table, lineno))
    {
      if lineno > 0 {
        LinksAfterVisit(lineno);
      } else {
        NoLineZero(table);
      }
      links := GetLinks(lineno);
    }

    /** From the link at the top of a page to the first definition, follow the next links
        until there is none: every definition line is visited once, in order, whatever was
        remembered of other files. */
    method FollowNext(sorted: seq<Anchor>) returns (visited: seq<nat>)
      requires Sorted(sorted) && LinesPositive(sorted)
      modifies this
      ensures visited == DefLines(sorted, |sorted|)
    {
      Open(sorted);
      ghost var d := DefLines(sorted, |sorted|);
      DefinitionsHaveLines(sorted);
      var top := GetLinks(0);
      var line := top.first;
      visited := [];
      if d != [] {
        FirstAndLast(sorted);
      } else {
        var _ := NextIndex(sorted, -1);
      }
      EveryLineIsPositive(sorted, 0);
      while line != 0
        invariant Ready() && table == sorted && |visited| <= |d| && visited == d[..|visited|]
        invariant line == if |visited| < |d| then d[|visited|] else 0
        decreases |d| - |visited|
      {
        NextLinkIs(sorted, |visited|);
        visited := visited + [line];
        var links := LinksOf(line);
        line := links.next;
      }
      EveryLineIsPositive(sorted, |visited|);
      assert visited == d;
    }

    method StepBack(line: nat, ghost k: nat) returns (prev: nat)
      requires Ready() && line == Back(table, k)
      modifies `currentDef
      ensures Ready() && prev == Back(table, k + 1)
    {
      BackIsDefined(table, k);
      var links := LinksOf(line);
      prev := links.prev;
    }

    /** From the link at the bottom of a page to the last definition, follow k previous links. */
    method FollowPrevious(sorted: seq<Anchor>, k: nat) returns (visited: seq<nat>)
      requires Sorted(sorted) && LinesPositive(sorted)
      modifies this
      ensures |visited| == k + 1 && IsBack(sorted, visited)
      ensures SingleFrom(sorted, 1) && k < |DefLines(sorted, |sorted|)| ==> IsReverse(DefLines(sorted, |sorted|), visited)
    {
      var line := OpenAtBottom(sorted);
      visited := [line];
      for n := 0 to k
        invariant Ready() && table == sorted && |visited| == n + 1 && line == visited[n] && IsBack(sorted, visited)
      {
        line := StepBack(line, n);
        IsBackMore(sorted, visited, line);
        visited := visited + [line];
      }
      if SingleFrom(sorted, 1) && k < |DefLines(sorted, |sorted|)| {
        BackReverses(sorted, visited);
      }
    }

    method OpenAtBottom(sorted: seq<Anchor>) returns (line: nat)
      requires Sorted(sorted) && LinesPositive(sorted)
      modifies this
      ensures Ready() && table == sorted && line == Back(sorted, 0)
    {
      Open(sorted);
      var bottom := GetLinks(-1);
      line := bottom.last;
    }
  }

  /** The lines that the previous links lead to, from LAST on. */
  ghost predicate IsBack(t: seq<Anchor>, lines: seq<nat>) {
    forall i :: 0 <= i < |lines| ==> lines[i] == Back(t, i)
  }

  lemma IsBackMore(t: seq<Anchor>, lines: seq<nat>, line: nat)
    requires IsBack(t, lines) && line == Back(t, |lines|)
    ensures IsBack(t, lines + [line])
  {
  }

  /** lines are the last ones of d, in the other order. */
  ghost predicate IsReverse(d: seq<nat>, lines: seq<nat>) {
    |lines| <= |d| && forall i :: 0 <= i < |lines| ==> lines[i] == d[|d| - 1 - i]
  }

  lemma BackReverses(t: seq<Anchor>, lines: seq<nat>)
    requires Sorted(t) && LinesPositive(t) && SingleFrom(t, 1)
    requires IsBack(t, lines) && |lines| <= |DefLines(t, |t|)|
    ensures IsReverse(DefLines(t, |t|), lines)
  {
    var d := DefLines(t, |t|);
    forall i | 0 <= i < |lines| ensures lines[i] == d[|d| - 1 - i] {
      assert SingleFrom(t, |d| - i);
      BackIs(t, i);
    }
  }

  lemma NoLineZero(t: seq<Anchor>)
    requires LinesPositive(t)
    ensures PrevLink(t, 0) == 0
  {
  }

  lemma EveryLineIsPositive(t: seq<Anchor>, k: nat)
    requires LinesPositive(t)
    ensures k < |DefLines(t, |t|)| ==> DefLines(t, |t|)[k] > 0
  {
    if k < |DefLines(t, |t|)| {
      var _ := LineAt(t, |t|, k);
    }
  }

  /** Only a table with a definition has links back. */
  lemma {:induction false} BackIsDefined(t: seq<Anchor>, k: nat)
    requires LinesPositive(t)
    ensures Back(t, k) > 0 ==> HasDefinition(t)
  {
    var c := if k == 0 then |t| else LastDefAt(t, Back(t, k - 1), |t| - 1);
    if c > 0 {
      var _ := PrevIndex(t, c);
    }
  }
}
