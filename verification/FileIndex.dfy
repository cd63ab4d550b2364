/** The pages of the file index: a recursive descent over a stream of paths, with one
    path of push-back. */
module FileIndex {
  type Path = string

  datatype Option<T> = None | Some(value: T)

  const SLASH := '/'

  /** localpath finds a local name: the path is under the directory. */
  predicate Under(p: Path, dir: Path) {
    |dir| < |p| && dir <= p && p[|dir|] == SLASH
  }

  /** The place of the first slash of p from i on, or its length. */
  function SlashFrom(p: Path, i: nat): (j: nat)
    requires i <= |p|
    ensures i <= j <= |p| && (j < |p| ==> p[j] == SLASH) && forall k :: i <= k < j ==> p[k] != SLASH
    decreases |p| - i
  {
    if i == |p| || p[i] == SLASH then i else SlashFrom(p, i + 1)
  }

  /** p is in a directory of dir. */
  predicate Deeper(p: Path, dir: Path)
    requires Under(p, dir)
  {
    SlashFrom(p, |dir| + 1) < |p|
  }

  /** The directory of dir that holds p. */
  function Sub(p: Path, dir: Path): (sub: Path)
    requires Under(p, dir) && Deeper(p, dir)
    ensures |dir| < |sub| < |p| && Under(p, sub) && Under(sub, dir)
  {
    p[..SlashFrom(p, |dir| + 1)]
  }

  lemma Spliced<T>(p: seq<T>, before: seq<T>, x: T, n: nat)
    requires |before| < n <= |p| && before == p[..|before|] && p[|before|] == x
    ensures before + [x] + p[|before| + 1..n] == p[..n] && p[..n][..|before|] == before
  {
  }

  /** How the code builds the name of the directory, and shrinks it again. */
  lemma SubIs(p: Path, dir: Path, slash: nat)
    requires Under(p, dir) && slash == SlashFrom(p, |dir| + 1) && slash < |p|
    ensures dir + [SLASH] + p[|dir| + 1..slash] == Sub(p, dir) && Sub(p, dir)[..|dir|] == dir
  {
    Spliced(p, dir, SLASH, slash);
  }

  lemma UnderUnder(p: Path, sub: Path, dir: Path)
    requires Under(p, sub) && Under(sub, dir)
    ensures Under(p, dir)
  {
  }

  /** The end of the paths under dir that begin at i. */
  function BlockEnd(paths: seq<Path>, i: nat, dir: Path): (j: nat)
    requires i <= |paths|
    ensures i <= j <= |paths|
    ensures i < |paths| && Under(paths[i], dir) ==> i < j
    decreases |paths| - i
  {
    if i < |paths| && Under(paths[i], dir) then BlockEnd(paths, i + 1, dir) else i
  }

  lemma {:induction false} BlockIsUnder(paths: seq<Path>, i: nat, dir: Path, k: nat)
    requires i <= |paths| && i <= k < BlockEnd(paths, i, dir)
    ensures Under(paths[k], dir)
    decreases k - i
  {
    if i < k {
      BlockIsUnder(paths, i + 1, dir, k);
    }
  }

  lemma {:induction false} BlockEnds(paths: seq<Path>, i: nat, dir: Path)
    requires i <= |paths|
    ensures var j := BlockEnd(paths, i, dir); j < |paths| ==> !Under(paths[j], dir)
    decreases |paths| - i
  {
    if i < |paths| && Under(paths[i], dir) {
      BlockEnds(paths, i + 1, dir);
    }
  }

  lemma {:induction false} BlockFrom(paths: seq<Path>, i: nat, dir: Path, k: nat)
    requires i <= |paths| && i <= k <= BlockEnd(paths, i, dir)
    ensures BlockEnd(paths, k, dir) == BlockEnd(paths, i, dir)
    decreases k - i
  {
    if i < k {
      BlockFrom(paths, i + 1, dir, k);
    }
  }

  /** The block of a directory lies within that of the directory above it. */
  lemma {:induction false} BlockWithin(paths: seq<Path>, i: nat, sub: Path, dir: Path)
    requires i <= |paths| && Under(sub, dir)
    ensures BlockEnd(paths, i, sub) <= BlockEnd(paths, i, dir)
    decreases |paths| - i
  {
    if i < |paths| && Under(paths[i], sub) {
      UnderUnder(paths[i], sub, dir);
      BlockWithin(paths, i + 1, sub, dir);
    }
  }

  // ----- what is to be written -----

  datatype Cell = FileCell(path: Path) | DirCell(dir: Path, count: nat)

  /** The page of a directory, without its rows. */
  datatype Page = Page(dir: Path, cells: seq<Cell>)

  /** How the paths from i to the end of the block of dir begin: a file, or all of a
      directory, which ends at Next. */
  function Next(paths: seq<Path>, i: nat, dir: Path): (e: nat)
    requires i < |paths| && Under(paths[i], dir)
    ensures i < e <= |paths|
  {
    if Deeper(paths[i], dir) then BlockEnd(paths, i, Sub(paths[i], dir)) else i + 1
  }

  lemma NextWithin(paths: seq<Path>, i: nat, dir: Path)
    requires i < |paths| && Under(paths[i], dir)
    ensures Next(paths, i, dir) <= BlockEnd(paths, i, dir)
    ensures BlockEnd(paths, Next(paths, i, dir), dir) == BlockEnd(paths, i, dir)
  {
    if Deeper(paths[i], dir) {
      BlockWithin(paths, i, Sub(paths[i], dir), dir);
    }
    BlockFrom(paths, i, dir, Next(paths, i, dir));
  }

  function CellAt(paths: seq<Path>, i: nat, dir: Path): Cell
    requires i < |paths| && Under(paths[i], dir)
  {
    if Deeper(paths[i], dir) then DirCell(Sub(paths[i], dir), Next(paths, i, dir) - i) else FileCell(paths[i])
  }

  /** What the page of dir lists, from the path at i on. */
  function Cells(paths: seq<Path>, i: nat, dir: Path): seq<Cell>
    requires i <= |paths|
    decreases |paths| - i
  {
    if i < |paths| && Under(paths[i], dir) then
      [CellAt(paths, i, dir)] + Cells(paths, Next(paths, i, dir), dir)
    else []
  }

  /** How deep the path at i lies under dir. */
  function Depth(paths: seq<Path>, i: nat, dir: Path): nat
    requires i <= |paths|
  {
    if i < |paths| && Under(paths[i], dir) then |paths[i]| - |dir| else 0
  }

  /** The pages of the directory of dir that holds the path at i, its own page last. */
  function EntryPages(paths: seq<Path>, i: nat, dir: Path): seq<Page>
    requires i < |paths| && Under(paths[i], dir)
    decreases BlockEnd(paths, i, dir) - i, Depth(paths, i, dir), 0
  {
    if Deeper(paths[i], dir) then
      var sub := Sub(paths[i], dir);
      BlockWithin(paths, i, sub, dir);
      SubPages(paths, i, sub) + [Page(sub, Cells(paths, i, sub))]
    else []
  }

  /** The pages of the directories under dir, from the path at i on. */
  function SubPages(paths: seq<Path>, i: nat, dir: Path): seq<Page>
    requires i <= |paths|
    decreases BlockEnd(paths, i, dir) - i, Depth(paths, i, dir), 1
  {
    if i < |paths| && Under(paths[i], dir) then
      NextWithin(paths, i, dir);
      EntryPages(paths, i, dir) + SubPages(paths, Next(paths, i, dir), dir)
    else []
  }

  function Files(cells: seq<Cell>): nat {
    if cells == [] then 0
    else (if cells[0].FileCell? then 1 else cells[0].count) + Files(cells[1..])
  }

  /** The counts that a page shows add up to the number of paths under its directory. */
  lemma {:induction false} CountsAddUp(paths: seq<Path>, i: nat, dir: Path)
    requires i <= |paths|
    ensures Files(Cells(paths, i, dir)) == BlockEnd(paths, i, dir) - i
    decreases |paths| - i
  {
    if i < |paths| && Under(paths[i], dir) {
      NextWithin(paths, i, dir);
      CountsAddUp(paths, Next(paths, i, dir), dir);
      var cells := Cells(paths, i, dir);
      assert cells[1..] == Cells(paths, Next(paths, i, dir), dir);
    }
  }

  // ----- one page for every directory -----

  /** The byte order of two paths. */
  predicate Le(a: Path, b: Path) {
    a == [] || (b != [] && (a[0] < b[0] || (a[0] == b[0] && Le(a[1..], b[1..]))))
  }

  predicate Sorted(paths: seq<Path>) {
    forall i, j :: 0 <= i < j < |paths| ==> Le(paths[i], paths[j])
  }

  /** What lies between two paths that begin alike begins so too. */
  lemma {:induction false} Between(x: Path, a: Path, b: Path, c: Path)
    requires Le(a, b) && Le(b, c) && x <= a && x <= c
    ensures x <= b
    decreases |x|
  {
    if x != [] {
      Between(x[1..], a[1..], b[1..], c[1..]);
    }
  }

  lemma UnderIsPrefix(p: Path, dir: Path)
    ensures Under(p, dir) <==> dir + [SLASH] <= p
  {
    if Under(p, dir) {
      assert p[..|dir| + 1] == dir + [SLASH];
    }
    if dir + [SLASH] <= p {
      assert dir == (dir + [SLASH])[..|dir|] && p[|dir|] == (dir + [SLASH])[|dir|];
    }
  }

  /** In sorted paths, a directory that has ended does not come again. */
  lemma NeverAgain(paths: seq<Path>, i: nat, dir: Path, m: nat)
    requires Sorted(paths) && i < |paths| && Under(paths[i], dir) && BlockEnd(paths, i, dir) <= m < |paths|
    ensures !Under(paths[m], dir)
  {
    var e := BlockEnd(paths, i, dir);
    BlockEnds(paths, i, dir);
    if Under(paths[m], dir) {
      UnderIsPrefix(paths[i], dir);
      UnderIsPrefix(paths[e], dir);
      UnderIsPrefix(paths[m], dir);
      assert e < m;
      Between(dir + [SLASH], paths[i], paths[e], paths[m]);
    }
  }

  /** Every page belongs to a directory under dir that holds one of the paths. */
  lemma {:induction false} PageHasPath(paths: seq<Path>, i: nat, dir: Path, x: nat) returns (k: nat)
    requires i <= |paths| && x < |SubPages(paths, i, dir)|
    ensures i <= k < BlockEnd(paths, i, dir)
    ensures Under(paths[k], SubPages(paths, i, dir)[x].dir) && Under(SubPages(paths, i, dir)[x].dir, dir)
    decreases BlockEnd(paths, i, dir) - i, Depth(paths, i, dir)
  {
    NextWithin(paths, i, dir);
    var first := EntryPages(paths, i, dir);
    if x >= |first| {
      k := PageHasPath(paths, Next(paths, i, dir), dir, x - |first|);
    } else {
      var sub := Sub(paths[i], dir);
      BlockWithin(paths, i, sub, dir);
      k := i;
      if x < |first| - 1 {
        k := PageHasPath(paths, i, sub, x);
        UnderUnder(first[x].dir, sub, dir);
      }
    }
  }

  lemma NotUnder(p: Path, d: Path, sub: Path)
    requires (d == sub || Under(d, sub)) && !Under(p, sub)
    ensures !Under(p, d)
  {
    if d != sub && Under(p, d) {
      UnderUnder(p, d, sub);
    }
  }

  /** No directory has two pages. */
  lemma {:induction false} OnePage(paths: seq<Path>, i: nat, dir: Path, x: nat, y: nat)
    requires Sorted(paths) && i <= |paths| && x < y < |SubPages(paths, i, dir)|
    ensures SubPages(paths, i, dir)[x].dir != SubPages(paths, i, dir)[y].dir
    decreases BlockEnd(paths, i, dir) - i, Depth(paths, i, dir)
  {
    NextWithin(paths, i, dir);
    var first := EntryPages(paths, i, dir);
    var next := Next(paths, i, dir);
    if x >= |first| {
      OnePage(paths, next, dir, x - |first|, y - |first|);
    } else {
      var sub := Sub(paths[i], dir);
      BlockWithin(paths, i, sub, dir);
      if x < |first| - 1 {
        var _ := PageHasPath(paths, i, sub, x);
      }
      if y >= |first| {
        var k := PageHasPath(paths, next, dir, y - |first|);
        NeverAgain(paths, i, sub, k);
        NotUnder(paths[k], first[x].dir, sub);
      } else if y < |first| - 1 {
        OnePage(paths, i, sub, x, y);
      }
    }
  }

  ghost predicate HasPage(pages: seq<Page>, dir: Path) {
    exists x :: 0 <= x < |pages| && pages[x].dir == dir
  }

  lemma HasPageIn(a: seq<Page>, b: seq<Page>, dir: Path)
    requires HasPage(a, dir) || HasPage(b, dir)
    ensures HasPage(a + b, dir)
  {
    if HasPage(a, dir) {
      var x :| 0 <= x < |a| && a[x].dir == dir;
      assert (a + b)[x].dir == dir;
    } else {
      var x :| 0 <= x < |b| && b[x].dir == dir;
      assert (a + b)[|a| + x].dir == dir;
    }
  }

  /** A directory of a path is the first one below dir, or lies under that. */
  lemma DirectoryOf(p: Path, q: Path, dir: Path, d: Path)
    requires Under(p, d) && Under(d, dir) && Under(q, dir) && (Deeper(q, dir) ==> Under(p, Sub(q, dir)))
    requires !Deeper(q, dir) ==> p == q
    ensures Deeper(q, dir) && (d == Sub(q, dir) || Under(d, Sub(q, dir)))
  {
    assert p[|d|] == SLASH && |d| > |dir|;
  }

  /** Every directory under dir that holds a path, at any depth, has a page. */
  lemma {:induction false} EveryPage(paths: seq<Path>, i: nat, dir: Path, k: nat, d: Path)
    requires i <= |paths| && i <= k < BlockEnd(paths, i, dir) && Under(paths[k], d) && Under(d, dir)
    ensures HasPage(SubPages(paths, i, dir), d)
    decreases BlockEnd(paths, i, dir) - i, Depth(paths, i, dir)
  {
    NextWithin(paths, i, dir);
    var next := Next(paths, i, dir);
    var first := EntryPages(paths, i, dir);
    if k >= next {
      EveryPage(paths, next, dir, k, d);
    } else {
      if Deeper(paths[i], dir) {
        BlockIsUnder(paths, i, Sub(paths[i], dir), k);
      }
      DirectoryOf(paths[k], paths[i], dir, d);
      var sub := Sub(paths[i], dir);
      BlockWithin(paths, i, sub, dir);
      var own := Page(sub, Cells(paths, i, sub));
      if d == sub {
        assert [own][0].dir == d;
      } else {
        EveryPage(paths, i, sub, k, d);
      }
      HasPageIn(SubPages(paths, i, sub), [own], d);
    }
    HasPageIn(first, SubPages(paths, next, dir), d);
  }

  // ----- every file on the page of its directory -----

  /** The place of the last slash of p before n, or -1. */
  function SlashBefore(p: Path, n: nat): (j: int)
    requires n <= |p|
    ensures -1 <= j < n && (j >= 0 ==> p[j] == SLASH) && forall k :: j < k < n ==> p[k] != SLASH
  {
    if n == 0 || p[n - 1] == SLASH then n - 1 else SlashBefore(p, n - 1)
  }

  /** The directory of a path: what precedes its last slash. */
  function DirName(p: Path): Path {
    p[..if SlashBefore(p, |p|) < 0 then 0 else SlashBefore(p, |p|)]
  }

  predicate IsFileOf(p: Path, dir: Path) {
    Under(p, dir) && !Deeper(p, dir)
  }

  lemma FileOfItsDirectory(p: Path, dir: Path, d: Path)
    requires Under(p, dir)
    ensures IsFileOf(p, d) <==> d == DirName(p)
  {
    var j := SlashBefore(p, |p|);
    assert j >= |dir|;
    if IsFileOf(p, d) {
      assert |d| == j;
      assert d == p[..j];
    }
  }

  /** A directory of dir holds no file of dir itself. */
  lemma NotOfSub(p: Path, q: Path, dir: Path)
    requires Under(q, dir) && Deeper(q, dir) && Under(p, Sub(q, dir))
    ensures Under(p, dir) && Deeper(p, dir)
  {
    UnderUnder(p, Sub(q, dir), dir);
    assert p[|Sub(q, dir)|] == SLASH;
  }

  /** The cell of one path, and then those of the rest. */
  lemma CellsStep(paths: seq<Path>, i: nat, dir: Path, c: Cell)
    requires i < |paths| && Under(paths[i], dir)
    ensures c in Cells(paths, i, dir) <==> c == CellAt(paths, i, dir) || c in Cells(paths, Next(paths, i, dir), dir)
  {
  }

  lemma {:induction false} CellsAreOwn(paths: seq<Path>, i: nat, dir: Path, p: Path)
    requires i <= |paths| && FileCell(p) in Cells(paths, i, dir)
    ensures IsFileOf(p, dir)
    decreases |paths| - i
  {
    CellsStep(paths, i, dir, FileCell(p));
    if FileCell(p) != CellAt(paths, i, dir) {
      CellsAreOwn(paths, Next(paths, i, dir), dir, p);
    }
  }

  lemma {:induction false} CellsHaveOwn(paths: seq<Path>, i: nat, dir: Path, k: nat)
    requires i <= |paths| && i <= k < BlockEnd(paths, i, dir) && IsFileOf(paths[k], dir)
    ensures FileCell(paths[k]) in Cells(paths, i, dir)
    decreases |paths| - i
  {
    CellsStep(paths, i, dir, FileCell(paths[k]));
    NextWithin(paths, i, dir);
    if k >= Next(paths, i, dir) {
      CellsHaveOwn(paths, Next(paths, i, dir), dir, k);
    } else if Deeper(paths[i], dir) {
      BlockIsUnder(paths, i, Sub(paths[i], dir), k);
      NotOfSub(paths[k], paths[i], dir);
    }
  }

  /** All that a call prints: the pages of the directories, and that of dir. */
  function AllPages(paths: seq<Path>, i: nat, dir: Path): seq<Page>
    requires i <= |paths|
  {
    SubPages(paths, i, dir) + [Page(dir, Cells(paths, i, dir))]
  }

  predicate Lists(page: Page, p: Path) {
    FileCell(p) in page.cells
  }

  ghost predicate Listed(pages: seq<Page>, p: Path, d: Path) {
    exists x :: 0 <= x < |pages| && pages[x].dir == d && Lists(pages[x], p)
  }

  lemma ListedIn(a: seq<Page>, b: seq<Page>, p: Path, d: Path)
    requires Listed(a, p, d) || Listed(b, p, d)
    ensures Listed(a + b, p, d)
  {
    if Listed(a, p, d) {
      var x :| 0 <= x < |a| && a[x].dir == d && Lists(a[x], p);
      assert (a + b)[x] == a[x];
    } else {
      var x :| 0 <= x < |b| && b[x].dir == d && Lists(b[x], p);
      assert (a + b)[|a| + x] == b[x];
    }
  }

  lemma OwnPage(paths: seq<Path>, i: nat, dir: Path, k: nat)
    requires i <= |paths| && i <= k < BlockEnd(paths, i, dir) && IsFileOf(paths[k], dir)
    ensures Listed([Page(dir, Cells(paths, i, dir))], paths[k], dir)
  {
    CellsHaveOwn(paths, i, dir, k);
    assert Lists([Page(dir, Cells(paths, i, dir))][0], paths[k]);
  }

  /** A path that lies deeper than dir is on the page of its directory. */
  lemma {:induction false} DeepIsListed(paths: seq<Path>, i: nat, dir: Path, k: nat, d: Path)
    requires i <= |paths| && i <= k < BlockEnd(paths, i, dir) && IsFileOf(paths[k], d) && Under(d, dir)
    ensures Listed(SubPages(paths, i, dir), paths[k], d)
    decreases BlockEnd(paths, i, dir) - i, Depth(paths, i, dir)
  {
    NextWithin(paths, i, dir);
    var next := Next(paths, i, dir);
    if k >= next {
      DeepIsListed(paths, next, dir, k, d);
    } else {
      EntryIsListed(paths, i, dir, k, d);
    }
    ListedIn(EntryPages(paths, i, dir), SubPages(paths, next, dir), paths[k], d);
  }

  lemma {:induction false} EntryIsListed(paths: seq<Path>, i: nat, dir: Path, k: nat, d: Path)
    requires i < |paths| && Under(paths[i], dir) && i <= k < Next(paths, i, dir)
    requires IsFileOf(paths[k], d) && Under(d, dir)
    ensures Listed(EntryPages(paths, i, dir), paths[k], d)
    decreases BlockEnd(paths, i, dir) - i, Depth(paths, i, dir), 0
  {
    if Deeper(paths[i], dir) {
      BlockIsUnder(paths, i, Sub(paths[i], dir), k);
    }
    DirectoryOf(paths[k], paths[i], dir, d);
    var sub := Sub(paths[i], dir);
    BlockWithin(paths, i, sub, dir);
    if d == sub {
      OwnPage(paths, i, sub, k);
    } else {
      DeepIsListed(paths, i, sub, k, d);
    }
    ListedIn(SubPages(paths, i, sub), [Page(sub, Cells(paths, i, sub))], paths[k], d);
  }

  /** The cells of every page are those of a part of the stream under its directory. */
  lemma {:induction false} PageIs(paths: seq<Path>, i: nat, dir: Path, x: nat) returns (j: nat)
    requires i <= |paths| && x < |SubPages(paths, i, dir)|
    ensures j <= |paths| && var page := SubPages(paths, i, dir)[x]; page == Page(page.dir, Cells(paths, j, page.dir))
    decreases BlockEnd(paths, i, dir) - i, Depth(paths, i, dir)
  {
    NextWithin(paths, i, dir);
    var first := EntryPages(paths, i, dir);
    if x >= |first| {
      j := PageIs(paths, Next(paths, i, dir), dir, x - |first|);
    } else {
      var sub := Sub(paths[i], dir);
      BlockWithin(paths, i, sub, dir);
      j := i;
      if x < |first| - 1 {
        j := PageIs(paths, i, sub, x);
      }
    }
  }

  lemma ListsOwn(paths: seq<Path>, i: nat, dir: Path, x: nat, p: Path)
    requires i <= |paths| && x < |AllPages(paths, i, dir)| && Lists(AllPages(paths, i, dir)[x], p)
    ensures IsFileOf(p, AllPages(paths, i, dir)[x].dir)
  {
    if x < |SubPages(paths, i, dir)| {
      var j := PageIs(paths, i, dir, x);
      CellsAreOwn(paths, j, AllPages(paths, i, dir)[x].dir, p);
    } else {
      CellsAreOwn(paths, i, dir, p);
    }
  }

  /** Each path of the block is a cell of a page of its own directory, and of no other page. */
  lemma FileIsListed(paths: seq<Path>, i: nat, dir: Path, k: nat)
    requires i <= |paths| && i <= k < BlockEnd(paths, i, dir)
    ensures Listed(AllPages(paths, i, dir), paths[k], DirName(paths[k]))
    ensures forall x :: 0 <= x < |AllPages(paths, i, dir)| && Lists(AllPages(paths, i, dir)[x], paths[k]) ==>
              AllPages(paths, i, dir)[x].dir == DirName(paths[k])
  {
    var p, d, pages := paths[k], DirName(paths[k]), AllPages(paths, i, dir);
    BlockIsUnder(paths, i, dir, k);
    FileOfItsDirectory(p, dir, d);
    FileOfItsDirectory(p, dir, dir);
    if d == dir {
      OwnPage(paths, i, dir, k);
    } else {
      UnderOrSame(p, dir, d);
      DeepIsListed(paths, i, dir, k, d);
    }
    ListedIn(SubPages(paths, i, dir), [Page(dir, Cells(paths, i, dir))], p, d);
    forall x | 0 <= x < |pages| && Lists(pages[x], p) ensures pages[x].dir == d {
      ListsOwn(paths, i, dir, x, p);
      FileOfItsDirectory(p, dir, pages[x].dir);
    }
  }

  lemma UnderOrSame(p: Path, dir: Path, d: Path)
    requires Under(p, dir) && IsFileOf(p, d) && d != dir
    ensures Under(d, dir)
  {
    assert d == p[..|d|] && dir == p[..|dir|];
    assert p[|dir|] == SLASH && |d| != |dir|;
  }

  lemma PagesDiffer(paths: seq<Path>, i: nat, dir: Path, x: nat, y: nat)
    requires Sorted(paths) && i <= |paths| && x < y < |AllPages(paths, i, dir)|
    ensures AllPages(paths, i, dir)[x].dir != AllPages(paths, i, dir)[y].dir
  {
    if y < |SubPages(paths, i, dir)| {
      OnePage(paths, i, dir, x, y);
    } else {
      var _ := PageHasPath(paths, i, dir, x);
    }
  }

  /** In a sorted stream that is exactly one page. */
  lemma OnItsOnlyPage(paths: seq<Path>, i: nat, dir: Path, k: nat) returns (x: nat)
    requires Sorted(paths) && i <= |paths| && i <= k < BlockEnd(paths, i, dir)
    ensures var pages := AllPages(paths, i, dir);
            && x < |pages| && pages[x].dir == DirName(paths[k])
            && forall y :: 0 <= y < |pages| ==> (Lists(pages[y], paths[k]) <==> y == x)
  {
    FileIsListed(paths, i, dir, k);
    var pages := AllPages(paths, i, dir);
    x :| 0 <= x < |pages| && pages[x].dir == DirName(paths[k]) && Lists(pages[x], paths[k]);
    forall y | 0 <= y < |pages| && Lists(pages[y], paths[k]) ensures y == x {
      if y < x {
        PagesDiffer(paths, i, dir, y, x);
      } else if x < y {
        PagesDiffer(paths, i, dir, x, y);
      }
    }
  }

  // ----- every directory on the page above it -----

  /** The cells for directory e. */
  function DirCells(cells: seq<Cell>, e: Path): seq<Cell> {
    if cells == [] then []
    else (if cells[0].DirCell? && cells[0].dir == e then [cells[0]] else []) + DirCells(cells[1..], e)
  }

  /** How many of the paths from i to j are under e. */
  function CountUnder(paths: seq<Path>, i: nat, j: nat, e: Path): nat
    requires i <= j <= |paths|
    decreases j - i
  {
    if i == j then 0 else (if Under(paths[i], e) then 1 else 0) + CountUnder(paths, i + 1, j, e)
  }

  lemma {:induction false} CountSplit(paths: seq<Path>, i: nat, m: nat, j: nat, e: Path)
    requires i <= m <= j <= |paths|
    ensures CountUnder(paths, i, j, e) == CountUnder(paths, i, m, e) + CountUnder(paths, m, j, e)
    decreases m - i
  {
    if i < m {
      CountSplit(paths, i + 1, m, j, e);
    }
  }

  lemma {:induction false} CountOf(paths: seq<Path>, i: nat, j: nat, e: Path, all: bool)
    requires i <= j <= |paths| && forall k :: i <= k < j ==> Under(paths[k], e) == all
    ensures CountUnder(paths, i, j, e) == if all then j - i else 0
    decreases j - i
  {
    if i < j {
      CountOf(paths, i + 1, j, e, all);
    }
  }

  /** e is dir, a slash and one name. */
  predicate IsDirOf(e: Path, dir: Path) {
    dir + [SLASH] <= e && forall k :: |dir| < k < |e| ==> e[k] != SLASH
  }

  lemma IsDirOfMeans(e: Path, dir: Path)
    ensures IsDirOf(e, dir) <==> Under(e, dir) && !Deeper(e, dir)
  {
    UnderIsPrefix(e, dir);
  }

  /** The directory of dir that holds a path is dir, a slash and a name. */
  lemma SubIsDir(p: Path, dir: Path, e: Path)
    requires Under(p, dir)
    ensures Under(p, e) && IsDirOf(e, dir) <==> Deeper(p, dir) && e == Sub(p, dir)
  {
    IsDirOfMeans(e, dir);
    if Deeper(p, dir) && e == Sub(p, dir) {
      assert forall k :: |dir| < k < |e| ==> e[k] == p[k];
    }
    if Under(p, e) && IsDirOf(e, dir) {
      assert p[|e|] == SLASH && e == p[..|e|];
      assert forall k :: |dir| < k < |e| ==> p[k] == e[k];
      assert SlashFrom(p, |dir| + 1) == |e|;
    }
  }

  /** The cell that shows n paths, if there are any. */
  function CellFor(e: Path, n: nat): seq<Cell> {
    if n > 0 then [DirCell(e, n)] else []
  }

  /** How many paths the cell of the path at i shows, if it is the cell of e. */
  function OwnCount(paths: seq<Path>, i: nat, dir: Path, e: Path): nat
    requires i < |paths| && Under(paths[i], dir)
  {
    if Deeper(paths[i], dir) && Sub(paths[i], dir) == e then Next(paths, i, dir) - i else 0
  }

  lemma DirCellsNext(paths: seq<Path>, i: nat, dir: Path, e: Path)
    requires i < |paths| && Under(paths[i], dir)
    ensures DirCells(Cells(paths, i, dir), e) ==
            CellFor(e, OwnCount(paths, i, dir, e)) + DirCells(Cells(paths, Next(paths, i, dir), dir), e)
  {
    var cells := Cells(paths, i, dir);
    assert cells[1..] == Cells(paths, Next(paths, i, dir), dir);
  }

  /** A page has no cell for what is no directory of its own. */
  lemma {:induction false} NoOtherDir(paths: seq<Path>, i: nat, dir: Path, e: Path)
    requires i <= |paths| && !IsDirOf(e, dir)
    ensures DirCells(Cells(paths, i, dir), e) == []
    decreases |paths| - i
  {
    if i < |paths| && Under(paths[i], dir) {
      DirCellsNext(paths, i, dir, e);
      SubIsDir(paths[i], dir, e);
      NoOtherDir(paths, Next(paths, i, dir), dir, e);
    }
  }

  /** Up to the next cell, all paths are under the directory of dir that holds the first, and
      none is under another. */
  lemma EntryCount(paths: seq<Path>, i: nat, dir: Path, e: Path)
    requires i < |paths| && Under(paths[i], dir) && IsDirOf(e, dir)
    ensures CountUnder(paths, i, Next(paths, i, dir), e) == OwnCount(paths, i, dir, e)
  {
    var next := Next(paths, i, dir);
    NextWithin(paths, i, dir);
    SubIsDir(paths[i], dir, e);
    forall k | i <= k < next ensures Under(paths[k], e) == Under(paths[i], e) {
      BlockIsUnder(paths, i, dir, k);
      if Deeper(paths[i], dir) {
        var sub := Sub(paths[i], dir);
        BlockIsUnder(paths, i, sub, k);
        SubIsDir(paths[i], dir, sub);
        SubIsDir(paths[k], dir, sub);
        SubIsDir(paths[k], dir, e);
      }
    }
    CountOf(paths, i, next, e, Under(paths[i], e));
  }

  /** In sorted paths, no path after the block of e is under e. */
  lemma NoneLater(paths: seq<Path>, i: nat, dir: Path, e: Path, end: nat)
    requires Sorted(paths) && i < |paths| && Under(paths[i], dir) && Next(paths, i, dir) <= end <= |paths|
    ensures OwnCount(paths, i, dir, e) == 0 || CountUnder(paths, Next(paths, i, dir), end, e) == 0
  {
    var next := Next(paths, i, dir);
    if OwnCount(paths, i, dir, e) > 0 {
      forall k | next <= k < end ensures !Under(paths[k], e) {
        NeverAgain(paths, i, e, k);
      }
      CountOf(paths, next, end, e, false);
    }
  }

  lemma JoinCells(e: Path, m: nat, n: nat)
    requires m == 0 || n == 0
    ensures CellFor(e, m) + CellFor(e, n) == CellFor(e, m + n)
  {
  }

  /** The cells of the path at i and of the rest. */
  lemma NextDirCell(paths: seq<Path>, i: nat, dir: Path, e: Path)
    requires Sorted(paths) && i < |paths| && Under(paths[i], dir) && IsDirOf(e, dir)
    requires var next, end := Next(paths, i, dir), BlockEnd(paths, i, dir);
             next <= end && DirCells(Cells(paths, next, dir), e) == CellFor(e, CountUnder(paths, next, end, e))
    ensures DirCells(Cells(paths, i, dir), e) == CellFor(e, CountUnder(paths, i, BlockEnd(paths, i, dir), e))
  {
    var next, end := Next(paths, i, dir), BlockEnd(paths, i, dir);
    DirCellsNext(paths, i, dir, e);
    EntryCount(paths, i, dir, e);
    CountSplit(paths, i, next, end, e);
    NoneLater(paths, i, dir, e, end);
    JoinCells(e, OwnCount(paths, i, dir, e), CountUnder(paths, next, end, e));
  }

  /** A directory of dir with paths under it has one cell, with the number of these paths. */
  lemma {:induction false} OneDirCell(paths: seq<Path>, i: nat, dir: Path, e: Path)
    requires Sorted(paths) && i <= |paths| && IsDirOf(e, dir)
    ensures DirCells(Cells(paths, i, dir), e) == CellFor(e, CountUnder(paths, i, BlockEnd(paths, i, dir), e))
    decreases |paths| - i
  {
    if i < |paths| && Under(paths[i], dir) {
      NextWithin(paths, i, dir);
      OneDirCell(paths, Next(paths, i, dir), dir, e);
      NextDirCell(paths, i, dir, e);
    }
  }

  /** A path that comes before next is not in a directory d of a path that comes later. */
  lemma NotBefore(paths: seq<Path>, i: nat, dir: Path, d: Path, j: nat, k: nat)
    requires Sorted(paths) && i < |paths| && Under(paths[i], dir) && Under(d, dir)
    requires i <= k < Next(paths, i, dir) <= j < |paths| && Under(paths[j], d)
    ensures !Under(paths[k], d)
  {
    if Under(paths[k], d) {
      if Deeper(paths[i], dir) {
        BlockIsUnder(paths, i, Sub(paths[i], dir), k);
      }
      DirectoryOf(paths[k], paths[i], dir, d);
      NeverAgain(paths, i, Sub(paths[i], dir), j);
      NotUnder(paths[j], d, Sub(paths[i], dir));
    }
  }

  /** The page of directory d lists the block that begins at j, where the first path under
      d is. */
  ghost predicate PageFrom(paths: seq<Path>, i: nat, end: nat, page: Page, j: nat)
    requires i <= end <= |paths|
  {
    && i <= j < end && Under(paths[j], page.dir) && BlockEnd(paths, j, page.dir) <= end
    && page.cells == Cells(paths, j, page.dir)
    && forall k :: i <= k < j ==> !Under(paths[k], page.dir)
  }

  lemma {:induction false} PageBlock(paths: seq<Path>, i: nat, dir: Path, x: nat) returns (j: nat)
    requires Sorted(paths) && i <= |paths| && x < |SubPages(paths, i, dir)|
    ensures Under(SubPages(paths, i, dir)[x].dir, dir)
    ensures PageFrom(paths, i, BlockEnd(paths, i, dir), SubPages(paths, i, dir)[x], j)
    decreases BlockEnd(paths, i, dir) - i, Depth(paths, i, dir)
  {
    NextWithin(paths, i, dir);
    var first, next := EntryPages(paths, i, dir), Next(paths, i, dir);
    if x >= |first| {
      j := PageBlock(paths, next, dir, x - |first|);
      var d := SubPages(paths, next, dir)[x - |first|].dir;
      forall k | i <= k < next ensures !Under(paths[k], d) {
        NotBefore(paths, i, dir, d, j, k);
      }
    } else {
      var sub := Sub(paths[i], dir);
      BlockWithin(paths, i, sub, dir);
      j := i;
      if x < |first| - 1 {
        j := PageBlock(paths, i, sub, x);
        UnderUnder(first[x].dir, sub, dir);
      }
    }
  }

  /** What a block has under a directory, all of the stream has. */
  lemma BlockCount(paths: seq<Path>, i: nat, end: nat, page: Page, j: nat, e: Path)
    requires Sorted(paths) && i <= end <= |paths| && PageFrom(paths, i, end, page, j) && IsDirOf(e, page.dir)
    ensures CountUnder(paths, i, end, e) == CountUnder(paths, j, BlockEnd(paths, j, page.dir), e)
  {
    var d, m := page.dir, BlockEnd(paths, j, page.dir);
    IsDirOfMeans(e, d);
    forall k | i <= k < j || m <= k < end ensures !Under(paths[k], e) {
      if k >= m {
        NeverAgain(paths, j, d, k);
      }
      NotUnder(paths[k], e, d);
    }
    CountOf(paths, i, j, e, false);
    CountOf(paths, m, end, e, false);
    CountSplit(paths, i, j, end, e);
    CountSplit(paths, j, m, end, e);
  }

  /** On the page of d, a directory e has a cell exactly if e is d, a slash and one name and
      some path of the block is under e: one cell, that leads to e and shows the number of
      these paths. */
  lemma DirectoryCells(paths: seq<Path>, i: nat, dir: Path, x: nat, e: Path)
    requires Sorted(paths) && i <= |paths| && x < |AllPages(paths, i, dir)|
    ensures var page, n := AllPages(paths, i, dir)[x], CountUnder(paths, i, BlockEnd(paths, i, dir), e);
            DirCells(page.cells, e) == if IsDirOf(e, page.dir) && n > 0 then [DirCell(e, n)] else []
  {
    var page, j := AllPages(paths, i, dir)[x], i;
    if x < |SubPages(paths, i, dir)| {
      j := PageBlock(paths, i, dir, x);
      if IsDirOf(e, page.dir) {
        BlockCount(paths, i, BlockEnd(paths, i, dir), page, j, e);
      }
    }
    if IsDirOf(e, page.dir) {
      OneDirCell(paths, j, page.dir, e);
    } else {
      NoOtherDir(paths, j, page.dir, e);
    }
  }

  /** Some page has a cell for directory e. */
  ghost predicate Linked(pages: seq<Page>, e: Path) {
    exists x :: 0 <= x < |pages| && DirCells(pages[x].cells, e) != []
  }

  lemma LinkedIn(a: seq<Page>, b: seq<Page>, e: Path)
    requires Linked(a, e) || Linked(b, e)
    ensures Linked(a + b, e)
  {
    if Linked(a, e) {
      var x :| 0 <= x < |a| && DirCells(a[x].cells, e) != [];
      assert (a + b)[x] == a[x];
    } else {
      var x :| 0 <= x < |b| && DirCells(b[x].cells, e) != [];
      assert (a + b)[|a| + x] == b[x];
    }
  }

  /** The page of dir, or one of those before it, has a cell for what the rest has one for. */
  lemma LinkedByRest(paths: seq<Path>, i: nat, dir: Path, e: Path)
    requires i < |paths| && Under(paths[i], dir) && Linked(AllPages(paths, Next(paths, i, dir), dir), e)
    ensures Linked(AllPages(paths, i, dir), e)
  {
    var next := Next(paths, i, dir);
    var rest, first, after := SubPages(paths, next, dir), EntryPages(paths, i, dir), Page(dir, Cells(paths, next, dir));
    var own := Page(dir, Cells(paths, i, dir));
    var x :| 0 <= x < |rest + [after]| && DirCells((rest + [after])[x].cells, e) != [];
    DirCellsNext(paths, i, dir, e);
    if x < |rest| {
      assert DirCells(rest[x].cells, e) != [];
      assert Linked(rest, e);
      LinkedIn(first, rest, e);
    } else {
      assert DirCells([own][0].cells, e) != [];
    }
    LinkedIn(first + rest, [own], e);
  }

  lemma LinkedByEntry(paths: seq<Path>, i: nat, dir: Path, e: Path)
    requires i < |paths| && Under(paths[i], dir) && Linked(EntryPages(paths, i, dir), e)
    ensures Linked(AllPages(paths, i, dir), e)
  {
    LinkedIn(EntryPages(paths, i, dir), SubPages(paths, Next(paths, i, dir), dir), e);
    LinkedIn(SubPages(paths, i, dir), [Page(dir, Cells(paths, i, dir))], e);
  }

  /** Every page but the last, which is that of dir, is one that a cell leads to. */
  lemma {:induction false} EveryPageIsLinked(paths: seq<Path>, i: nat, dir: Path, x: nat)
    requires i <= |paths| && x < |SubPages(paths, i, dir)|
    ensures Linked(AllPages(paths, i, dir), SubPages(paths, i, dir)[x].dir)
    decreases BlockEnd(paths, i, dir) - i, Depth(paths, i, dir)
  {
    NextWithin(paths, i, dir);
    var first, next := EntryPages(paths, i, dir), Next(paths, i, dir);
    if x >= |first| {
      EveryPageIsLinked(paths, next, dir, x - |first|);
      LinkedByRest(paths, i, dir, SubPages(paths, next, dir)[x - |first|].dir);
    } else {
      var sub := Sub(paths[i], dir);
      BlockWithin(paths, i, sub, dir);
      if x < |first| - 1 {
        EveryPageIsLinked(paths, i, sub, x);
        LinkedByEntry(paths, i, dir, SubPages(paths, i, sub)[x].dir);
      } else {
        DirCellsNext(paths, i, dir, sub);
        var own := Page(dir, Cells(paths, i, dir));
        assert DirCells([own][0].cells, sub) != [];
        LinkedIn(SubPages(paths, i, dir), [own], sub);
      }
    }
  }

  /** And that cell is on a page of the directory above. */
  lemma ParentLinks(paths: seq<Path>, i: nat, dir: Path, x: nat) returns (y: nat)
    requires i <= |paths| && x < |SubPages(paths, i, dir)|
    ensures var pages := AllPages(paths, i, dir);
            y < |pages| && IsDirOf(pages[x].dir, pages[y].dir) && DirCells(pages[y].cells, pages[x].dir) != []
  {
    EveryPageIsLinked(paths, i, dir, x);
    var pages := AllPages(paths, i, dir);
    y :| 0 <= y < |pages| && DirCells(pages[y].cells, pages[x].dir) != [];
    var j := i;
    if y < |SubPages(paths, i, dir)| {
      j := PageIs(paths, i, dir, y);
    }
    if !IsDirOf(pages[x].dir, pages[y].dir) {
      NoOtherDir(paths, j, pages[y].dir, pages[x].dir);
    }
  }

  // ----- table rows -----

  datatype Item = RowBegin | RowEnd | InRow(cell: Cell)

  /** Reading the rows of a page: whether they begin and end as they should so far. */
  datatype Rows = Rows(ok: bool, open: bool, width: nat, short: bool)

  /** A row has n cells, and only the last row may have fewer. */
  function ReadItem(r: Rows, item: Item, n: nat): Rows {
    match item
    case RowBegin => Rows(r.ok && !r.open && !r.short, true, 0, r.short)
    case InRow(_) => Rows(r.ok && r.open && r.width < n, r.open, r.width + 1, r.short)
    case RowEnd => Rows(r.ok && r.open && 0 < r.width, false, 0, r.width < n)
  }

  function ReadRows(items: seq<Item>, n: nat): Rows {
    if items == [] then Rows(true, false, 0, false)
    else ReadItem(ReadRows(items[..|items| - 1], n), items[|items| - 1], n)
  }

  function CellsOf(items: seq<Item>): seq<Cell> {
    if items == [] then []
    else
      var last := items[|items| - 1];
      CellsOf(items[..|items| - 1]) + if last.InRow? then [last.cell] else []
  }

  lemma ItemsAppend(items: seq<Item>, item: Item, n: nat)
    ensures ReadRows(items + [item], n) == ReadItem(ReadRows(items, n), item, n)
    ensures CellsOf(items + [item]) == CellsOf(items) + if item.InRow? then [item.cell] else []
  {
    assert (items + [item])[..|items|] == items;
  }

  lemma NextWidth(k: nat, n: nat)
    requires n > 0
    ensures (k + 1) % n == if k % n + 1 == n then 0 else k % n + 1
  {
    var q, r := k / n, k % n;
    assert k == n * q + r;
    Distribute(n, q);
    if r + 1 == n {
      Remainder(k + 1, q + 1, 0, n);
    } else {
      Remainder(k + 1, q, r + 1, n);
    }
  }

  lemma Distribute(n: int, q: int)
    ensures n * (q + 1) == n * q + n
  {
  }

  lemma Remainder(k: nat, q: nat, r: nat, n: nat)
    requires k == n * q + r && r < n
    ensures k % n == r
  {
    var q', r' := k / n, k % n;
    assert k == n * q' + r';
    if q < q' {
      Multiples(n, q, q');
    } else if q' < q {
      Multiples(n, q', q);
    }
  }

  lemma Multiples(n: nat, q: nat, q': nat)
    requires q < q'
    ensures n * q + n <= n * q'
    decreases q' - q
  {
    Distribute(n, q' - 1);
    if q < q' - 1 {
      Multiples(n, q, q' - 1);
    }
  }

  /** A page that was written: its items, and for a table every row closed. */
  datatype Written = Written(dir: Path, items: seq<Item>)

  function Contents(out: seq<Written>): seq<Page> {
    if out == [] then []
    else
      var last := out[|out| - 1];
      Contents(out[..|out| - 1]) + [Page(last.dir, CellsOf(last.items))]
  }

  lemma ContentsAppend(out: seq<Written>, w: Written)
    ensures Contents(out + [w]) == Contents(out) + [Page(w.dir, CellsOf(w.items))]
  {
    assert (out + [w])[..|out|] == out;
  }

  lemma Assoc<T>(a: seq<T>, b: seq<T>, c: seq<T>)
    ensures a + b + c == a + (b + c)
  {
  }

  lemma Slices(s: seq<Path>, i: nat, j: nat, k: nat)
    requires i <= j <= k <= |s|
    ensures s[i..j] + s[j..k] == s[i..k]
  {
  }

  // ----- the code -----

  class FileIndex {
    const paths: seq<Path>
    /** table_flist and flist_fields. */
    const table: bool
    const fields: nat

    /** The stream of find, and the path that is pushed back. */
    var next: nat
    var buff: Option<Path>
    var retry: bool
    var basedir: Path
    /** The pages that have been finished, and the lines of FILEMAP. */
    var pages: seq<Written>
    var fileMap: seq<Path>

    constructor (paths: seq<Path>, table: bool, fields: nat)
      requires fields > 0
      ensures this.paths == paths && this.table == table && this.fields == fields
      ensures Valid() && Place() == 0 && basedir == "." && pages == [] && fileMap == []
    {
      this.paths, this.table, this.fields := paths, table, fields;
      next, buff, retry, basedir, pages, fileMap := 0, None, false, ".", [], [];
    }

    ghost predicate Valid()
      reads this
    {
      && fields > 0 && next <= |paths|
      && (retry ==> next > 0 && buff == Some(paths[next - 1]))
      && forall i :: 0 <= i < |pages| ==> RowsClosed(pages[i].items)
    }

    ghost predicate RowsClosed(items: seq<Item>) {
      table ==> ReadRows(items, fields).ok && !ReadRows(items, fields).open
    }

    /** The path that the next getpath returns. */
    ghost function Place(): (k: nat)
      requires Valid()
      reads this
      ensures k <= |paths|
    {
      if retry then next - 1 else next
    }

    /** getpath. */
    method GetPath() returns (path: Option<Path>)
      requires Valid()
      modifies `next, `buff, `retry
      ensures Valid() && !retry
      ensures old(Place()) == |paths| ==> path == None && Place() == |paths|
      ensures old(Place()) < |paths| ==>
                path == Some(paths[old(Place())]) && Place() == old(Place()) + 1 && buff == path
    {
      if !retry {
        if next < |paths| {
          buff := Some(paths[next]);
          next := next + 1;
        } else {
          buff := None;
        }
      }
      retry := false;
      path := buff;
    }

    /** ungetpath: the path that was just read is read again. */
    method UngetPath()
      requires Valid() && !retry && 0 < next && buff == Some(paths[next - 1])
      modifies `retry
      ensures Valid() && retry && Place() == old(Place()) - 1
    {
      retry := true;
    }

    /** What a page has so far, after k cells. */
    ghost predicate RowsAt(items: seq<Item>, k: nat)
      requires fields > 0
    {
      if table then ReadRows(items, fields) == Rows(true, k % fields != 0, k % fields, false) else k == 0
    }

    /** The begin of a row, before a cell. */
    method BeginCell(items: seq<Item>, k: nat) returns (items': seq<Item>, k': nat)
      requires fields > 0 && RowsAt(items, k)
      ensures CellsOf(items') == CellsOf(items)
      ensures if table then k' == k + 1 && ReadRows(items', fields) == Rows(true, true, k % fields, false) else k' == k == 0
    {
      items', k' := items, k;
      if table {
        k' := k + 1;
        if k % fields == 0 {
          ItemsAppend(items, RowBegin, fields);
          items' := items + [RowBegin];
        }
      }
    }

    /** A cell, and the end of a full row. */
    method EndCell(items: seq<Item>, cell: Cell, k: nat) returns (items': seq<Item>)
      requires fields > 0
      requires if table then k > 0 && ReadRows(items, fields) == Rows(true, true, (k - 1) % fields, false) else k == 0
      ensures RowsAt(items', k) && CellsOf(items') == CellsOf(items) + [cell]
    {
      ItemsAppend(items, InRow(cell), fields);
      items' := items + [InRow(cell)];
      if table {
        NextWidth(k - 1, fields);
        if k % fields == 0 {
          ItemsAppend(items', RowEnd, fields);
          items' := items' + [RowEnd];
        }
      }
    }

    /** print_directory: read the paths under basedir, write its page after those of
        its directories, and count its files. */
    method PrintDirectory(level: nat) returns (count: nat)
      requires Valid()
      modifies this
      ensures Valid() && basedir == old(basedir)
      ensures Place() == BlockEnd(paths, old(Place()), basedir) && count == Place() - old(Place())
      ensures retry == (Place() < |paths|)
      ensures fileMap == old(fileMap) + paths[old(Place())..Place()]
      ensures Contents(pages) == old(Contents(pages)) + AllPages(paths, old(Place()), basedir)
      decreases |paths| - Place(), Depth(paths, Place(), basedir), 2
    {
      ghost var start, pages0 := Place(), Contents(pages);
      var items, k;
      items, k, count := PrintEntries(level);
      FinishPage(items, k);
      Assoc(pages0, SubPages(paths, start, basedir), [Page(basedir, Cells(paths, start, basedir))]);
    }

    /** The loop of print_directory: the items of the page, and the pages before it. */
    method PrintEntries(level: nat) returns (items: seq<Item>, k: nat, count: nat)
      requires Valid()
      modifies this
      ensures Valid() && basedir == old(basedir)
      ensures Place() == BlockEnd(paths, old(Place()), basedir) && count == Place() - old(Place())
      ensures retry == (Place() < |paths|)
      ensures fileMap == old(fileMap) + paths[old(Place())..Place()]
      ensures RowsAt(items, k) && CellsOf(items) == Cells(paths, old(Place()), basedir)
      ensures Contents(pages) == old(Contents(pages)) + SubPages(paths, old(Place()), basedir)
      decreases |paths| - Place(), Depth(paths, Place(), basedir), 1
    {
      ghost var start, end := Place(), BlockEnd(paths, Place(), basedir);
      ghost var pages0 := Contents(pages);
      items, k, count := [], 0, 0;
      var more := true;
      while more
        invariant Valid() && basedir == old(basedir) && start <= Place() <= end
        invariant BlockEnd(paths, Place(), basedir) == end && count == Place() - start
        invariant !more ==> Place() == end && retry == (Place() < |paths|)
        invariant fileMap == old(fileMap) + paths[start..Place()]
        invariant RowsAt(items, k) && CellsOf(items) + Cells(paths, Place(), basedir) == Cells(paths, start, basedir)
        invariant Contents(pages) + SubPages(paths, Place(), basedir) == pages0 + SubPages(paths, start, basedir)
        decreases more, |paths| - Place()
      {
        ghost var i, cells, out := Place(), CellsOf(items), Contents(pages);
        var n;
        more, items, k, n := NextEntry(level, items, k);
        count := count + n;
        if more {
          NextWithin(paths, i, basedir);
          Slices(paths, start, i, Place());
          Assoc(old(fileMap), paths[start..i], paths[i..Place()]);
          Assoc(cells, [CellAt(paths, i, basedir)], Cells(paths, Place(), basedir));
          Assoc(out, EntryPages(paths, i, basedir), SubPages(paths, Place(), basedir));
        }
      }
      BlockEnds(paths, start, basedir);
    }

    /** One turn of the loop of print_directory. */
    method NextEntry(level: nat, items: seq<Item>, k: nat) returns (more: bool, items': seq<Item>, k': nat, n: nat)
      requires Valid() && RowsAt(items, k)
      modifies this
      ensures Valid() && basedir == old(basedir) && RowsAt(items', k')
      ensures more == (old(Place()) < |paths| && Under(paths[old(Place())], basedir))
      ensures !more ==> Place() == old(Place()) && retry == (Place() < |paths|) && n == 0 && items' == items
      ensures !more ==> fileMap == old(fileMap) && pages == old(pages)
      ensures more ==> Place() == Next(paths, old(Place()), basedir) && n == Place() - old(Place())
      ensures more ==> CellsOf(items') == CellsOf(items) + [CellAt(paths, old(Place()), basedir)]
      ensures more ==> fileMap == old(fileMap) + paths[old(Place())..Place()]
      ensures more ==> Contents(pages) == old(Contents(pages)) + EntryPages(paths, old(Place()), basedir)
      decreases |paths| - Place(), Depth(paths, Place(), basedir), 0, 3
    {
      more, items', k', n := false, items, k, 0;
      var path := GetPath();
      if path.Some? {
        if !Under(path.value, basedir) {
          UngetPath();
        } else {
          more := true;
          items', k', n := TakeEntry(level, path.value, items, k, Place() - 1);
        }
      }
    }

    /** A path under basedir, with the rows around its cell. */
    method TakeEntry(level: nat, path: Path, items: seq<Item>, k: nat, ghost i: nat)
        returns (items': seq<Item>, k': nat, n: nat)
      requires Valid() && !retry && Place() == i + 1 && path == paths[i] && buff == Some(path)
      requires Under(path, basedir) && RowsAt(items, k)
      modifies this
      ensures Valid() && basedir == old(basedir) && RowsAt(items', k')
      ensures Place() == Next(paths, i, basedir) && n == Place() - i
      ensures CellsOf(items') == CellsOf(items) + [CellAt(paths, i, basedir)]
      ensures fileMap == old(fileMap) + paths[i..Place()]
      ensures Contents(pages) == old(Contents(pages)) + EntryPages(paths, i, basedir)
      decreases |paths| - i, |path| - |basedir|, 0, 2
    {
      items', k' := BeginCell(items, k);
      var cell;
      cell, n := PrintEntry(level, path, i);
      items' := EndCell(items', cell, k');
    }

    /** The end of a row that is not full. */
    method EndPage(items: seq<Item>, k: nat) returns (all: seq<Item>)
      requires fields > 0 && RowsAt(items, k)
      ensures RowsClosed(all) && CellsOf(all) == CellsOf(items)
    {
      all := items;
      if k % fields != 0 {
        ItemsAppend(items, RowEnd, fields);
        all := items + [RowEnd];
        assert CellsOf(all) == CellsOf(items);
      }
    }

    /** The page of a directory is finished. */
    method FinishPage(items: seq<Item>, k: nat)
      requires Valid() && RowsAt(items, k)
      modifies `pages
      ensures Valid() && Contents(pages) == old(Contents(pages)) + [Page(basedir, CellsOf(items))]
    {
      var all := EndPage(items, k);
      ContentsAppend(pages, Written(basedir, all));
      pages := pages + [Written(basedir, all)];
    }

    /** A path under basedir: a file, or a directory with all that is in it. */
    method PrintEntry(level: nat, path: Path, ghost i: nat) returns (cell: Cell, n: nat)
      requires Valid() && !retry && Place() == i + 1 && path == paths[i] && buff == Some(path)
      requires Under(path, basedir)
      modifies this
      ensures Valid() && basedir == old(basedir)
      ensures Place() == Next(paths, i, basedir) && n == Place() - i && cell == CellAt(paths, i, basedir)
      ensures fileMap == old(fileMap) + paths[i..Place()]
      ensures Contents(pages) == old(Contents(pages)) + EntryPages(paths, i, basedir)
      decreases |paths| - i, |path| - |basedir|, 0, 1
    {
      var slash := SlashFrom(path, |basedir| + 1);
      if slash < |path| {
        cell, n := PrintSubdirectory(level, path, slash, i);
      } else {
        fileMap := fileMap + [path];
        cell, n := FileCell(path), 1;
      }
    }

    /** Append a name to basedir, print the tree of the directory, and shrink basedir. */
    method PrintSubdirectory(level: nat, path: Path, slash: nat, ghost i: nat) returns (cell: Cell, n: nat)
      requires Valid() && !retry && Place() == i + 1 && path == paths[i] && buff == Some(path)
      requires Under(path, basedir) && slash == SlashFrom(path, |basedir| + 1) && slash < |path|
      modifies this
      ensures Valid() && basedir == old(basedir)
      ensures var sub := Sub(path, basedir);
              && Place() == BlockEnd(paths, i, sub) && n == Place() - i && cell == DirCell(sub, n)
              && fileMap == old(fileMap) + paths[i..Place()]
              && Contents(pages) == old(Contents(pages)) + (SubPages(paths, i, sub) + [Page(sub, Cells(paths, i, sub))])
      decreases |paths| - i, |path| - |basedir|, 0, 0
    {
      var baselen := |basedir|;
      SubIs(path, basedir, slash);
      basedir := basedir + [SLASH] + path[baselen + 1..slash];
      UngetPath();
      n := PrintDirectory(level + 1);
      cell := DirCell(basedir, n);
      basedir := basedir[..baselen];
    }
  }
}
