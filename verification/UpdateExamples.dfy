/** Trees for which an update does not give what a rebuild or another update gives. */
module UpdateExamples {
  import opened TagIndex
  import opened Incremental
  import opened UpdateRuns

  /** A file with no symbol, and one that defines a function. */
  function Plain(mtime: int): File {
    File([], mtime, false)
  }

  function Defining(mtime: int): File {
    File([Symbol(Definition, "f", 1, "f()")], mtime, false)
  }

  lemma TagsDiffer(compact: bool, t: int, u: int)
    ensures NoTags(compact, Plain(t)) && !NoTags(compact, Defining(u))
    ensures FileInfo(compact, Plain(t)) != FileInfo(compact, Defining(u))
  {
    OneDefinition(compact, Defining(u).symbols[0], u);
  }

  lemma OneDefinition(compact: bool, s: Symbol, t: int)
    requires s.kind == Definition
    ensures !NoTags(compact, File([s], t, false))
  {
    assert [s][..0] == [];
    var tags := [TagLine(s.name, s.line, s.image)];
    assert TagsOf([s], Definition) == tags;
    assert tags[..0] == [] && Distinct(tags) == [tags[0].(image := "")];
    var packed := Packed(compact, tags);
    assert |packed| == 1;
    assert packed[0] in multiset(packed);
  }

  // ----- two sources -----

  function Pair(p: Path, f: File, q: Path, g: File): Tree {
    map[p := f, q := g]
  }

  function Both(p: Path, q: Path): seq<Entry> {
    [Entry(p, false), Entry(q, false)]
  }

  /** The walk lists p and q as sources and nothing else. */
  ghost predicate Lists(fs: Tree, walk: seq<Entry>, p: Path, q: Path) {
    && p != q && Walks(fs, walk) && ByName(iset{p, q}, walk)
    && Entry(p, false) in walk && Entry(q, false) in walk
    && forall e :: e in walk ==> e.path == p || e.path == q
  }

  /** The index of two plain sources. */
  ghost predicate HasPlain(db: Db, p: Path, q: Path) {
    && Sane(db, iset{p, q}) && db.index.fids.Keys == {p, q}
    && InfoAt(db, p) == InfoAt(db, q) == FileInfo(db.compact, Plain(1))
  }

  lemma BothLists(fs: Tree, p: Path, q: Path)
    requires p != q && p in fs && q in fs
    ensures Lists(fs, Both(p, q), p, q)
  {
    var walk := Both(p, q);
    assert walk[0] == Entry(p, false) && walk[1] == Entry(q, false);
  }

  lemma ListedPath(fs: Tree, walk: seq<Entry>, p: Path, q: Path, r: Path)
    requires Lists(fs, walk, p, q)
    ensures InWalk(fs, walk, r) <==> r == p || r == q
  {
    InWalkMeans(fs, walk, r);
  }

  lemma ListedView(compact: bool, fs: Tree, walk: seq<Entry>, p: Path, q: Path)
    requires Lists(fs, walk, p, q)
    ensures var view := TreeView(compact, fs, walk);
            view.Keys == {p, q} && view[p] == FileInfo(compact, fs[p]) && view[q] == FileInfo(compact, fs[q])
  {
    var view := TreeView(compact, fs, walk);
    forall r ensures r in view.Keys <==> r in {p, q} {
      ListedPath(fs, walk, p, q, r);
    }
  }

  lemma CreateHasPlain(compact: bool, fs: Tree, walk: seq<Entry>, p: Path, q: Path)
    requires Lists(fs, walk, p, q) && fs[p] == fs[q] == Plain(1)
    ensures HasPlain(Create(compact, fs, walk), p, q) && Create(compact, fs, walk).compact == compact
  {
    CreateDescribes(compact, fs, walk);
    ListedView(compact, fs, walk, p, q);
    FreshIsSane(compact, fs, iset{p, q}, walk);
  }

  lemma FreshIsSane(compact: bool, fs: Tree, sources: iset<Path>, walk: seq<Entry>)
    requires Walks(fs, walk) && ByName(sources, walk)
    ensures Sane(Create(compact, fs, walk), sources)
  {
    FreshIsSound(compact, fs, sources, walk, 0);
  }

  /** The index of two plain files. */
  function Indexed(compact: bool, p: Path, q: Path): Db {
    Create(compact, Pair(p, Plain(1), q, Plain(1)), Both(p, q))
  }

  lemma IndexedHasPlain(compact: bool, p: Path, q: Path)
    requires p != q
    ensures HasPlain(Indexed(compact, p, q), p, q) && Indexed(compact, p, q).compact == compact
  {
    var fs := Pair(p, Plain(1), q, Plain(1));
    BothLists(fs, p, q);
    CreateHasPlain(compact, fs, Both(p, q), p, q);
  }

  lemma SingleLeavesOther(db: Db, fs: Tree, since: int, walk: seq<Entry>, p: Path, q: Path)
    requires HasPlain(db, p, q) && Lists(fs, walk, p, q) && fs[q] == Defining(since + 1)
    ensures !Equivalent(SingleUpdate(db, fs, since, walk, p).0, Update(db, fs, since, walk).0)
  {
    TagsDiffer(db.compact, 1, since + 1);
    assert !Untouched(db, fs, since, walk, p, q);
    SingleUpdateMatchesUpdate(db, fs, since, walk, p);
  }

  /** Both files are edited after the index was made, and only the first is updated. */
  lemma SingleIsNotWhole(compact: bool)
    ensures var p, q := "./a.c", "./b.c";
            var db, fs, walk := Indexed(compact, p, q), Pair(p, Defining(6), q, Defining(6)), Both(p, q);
            !Equivalent(SingleUpdate(db, fs, 5, walk, p).0, Update(db, fs, 5, walk).0)
  {
    var p, q := "./a.c", "./b.c";
    IndexedHasPlain(compact, p, q);
    var db, fs := Indexed(compact, p, q), Pair(p, Defining(6), q, Defining(6));
    BothLists(fs, p, q);
    SingleLeavesOther(db, fs, 5, Both(p, q), p, q);
  }

  lemma SingleIsNoRebuildOf(db: Db, fs: Tree, since: int, walk: seq<Entry>, p: Path, q: Path)
    requires HasPlain(db, p, q) && Lists(fs, walk, p, q) && fs[q] == Defining(since + 1)
    ensures !Equivalent(SingleUpdate(db, fs, since, walk, p).0, Create(db.compact, fs, walk))
  {
    TagsDiffer(db.compact, 1, since + 1);
    ListedView(db.compact, fs, walk, p, q);
    assert !OnlyDiffers(db, fs, walk, p);
    SingleUpdateMatchesRebuild(db, fs, since, walk, p);
  }

  /** Nor does it give what a rebuild gives. */
  lemma SingleIsNotRebuild(compact: bool)
    ensures var p, q := "./a.c", "./b.c";
            var db, fs, walk := Indexed(compact, p, q), Pair(p, Defining(6), q, Defining(6)), Both(p, q);
            !Equivalent(SingleUpdate(db, fs, 5, walk, p).0, Create(db.compact, fs, walk))
  {
    var p, q := "./a.c", "./b.c";
    IndexedHasPlain(compact, p, q);
    var db, fs := Indexed(compact, p, q), Pair(p, Defining(6), q, Defining(6));
    BothLists(fs, p, q);
    SingleIsNoRebuildOf(db, fs, 5, Both(p, q), p, q);
  }

  /** From then on the edit of the second file is never seen: no later update is a rebuild. */
  lemma HidesOther(db: Db, fs: Tree, since: int, walk: seq<Entry>, p: Path, q: Path, now: int, later: int)
    requires HasPlain(db, p, q) && Lists(fs, walk, p, q) && fs[q] == Defining(since + 1) && since < now
    ensures var v := Step(World(fs, db, since), Single(p, walk, now));
            Missed(v, q) && !Equivalent(Step(v, Sync(walk, later)).db, Create(v.db.compact, v.fs, walk))
  {
    var w := World(fs, db, since);
    TagsDiffer(db.compact, 1, since + 1);
    SingleHides(w, p, q, walk, now);
    StepKeepsSane(w, iset{p, q}, Single(p, walk, now));
    SyncIsRebuild(Step(w, Single(p, walk, now)), iset{p, q}, walk, later);
  }

  lemma SingleHidesOther(compact: bool)
    ensures var p, q := "./a.c", "./b.c";
            var db, fs, walk := Indexed(compact, p, q), Pair(p, Defining(6), q, Defining(6)), Both(p, q);
            var v := Step(World(fs, db, 5), Single(p, walk, 8));
            Missed(v, q) && !Equivalent(Step(v, Sync(walk, 9)).db, Create(v.db.compact, v.fs, walk))
  {
    var p, q := "./a.c", "./b.c";
    IndexedHasPlain(compact, p, q);
    var db, fs := Indexed(compact, p, q), Pair(p, Defining(6), q, Defining(6));
    BothLists(fs, p, q);
    HidesOther(db, fs, 5, Both(p, q), p, q, 8, 9);
  }

  lemma LateEditIsQuiet(db: Db, fs: Tree, since: int, walk: seq<Entry>, p: Path, q: Path)
    requires HasPlain(db, p, q) && Lists(fs, walk, p, q) && fs[p].mtime <= since && fs[q].mtime <= since
    ensures !Update(db, fs, since, walk).1
  {
    forall r
      ensures r in db.index.fids <==> InWalk(fs, walk, r)
      ensures r in db.index.fids ==> (db.index.fids[r].kind == Source <==> Entry(r, false) in walk)
      ensures Entry(r, false) in walk ==> fs[r].mtime <= since
    {
      ListedPath(fs, walk, p, q, r);
    }
    QuietUpdate(db, fs, since, walk);
  }

  lemma LateEdit(db: Db, fs: Tree, since: int, walk: seq<Entry>, p: Path, q: Path, later: int)
    requires HasPlain(db, p, q) && Lists(fs, walk, p, q) && fs[q] == Defining(since)
    ensures !Equivalent(Step(World(fs, db, since), Sync(walk, later)).db, Create(db.compact, fs, walk))
  {
    TagsDiffer(db.compact, 1, since);
    var w := World(fs, db, since);
    assert Missed(w, q);
    SyncIsRebuild(w, iset{p, q}, walk, later);
  }

  /** The second file is edited in the very second in which the index was made: the update
      finds nothing to do. */
  lemma SameSecondEdit(compact: bool)
    ensures var p, q := "./a.c", "./b.c";
            var db, fs, walk := Indexed(compact, p, q), Pair(p, Plain(1), q, Defining(5)), Both(p, q);
            !Update(db, fs, 5, walk).1 &&
            !Equivalent(Step(World(fs, db, 5), Sync(walk, 6)).db, Create(db.compact, fs, walk))
  {
    var p, q := "./a.c", "./b.c";
    IndexedHasPlain(compact, p, q);
    var db, fs := Indexed(compact, p, q), Pair(p, Plain(1), q, Defining(5));
    BothLists(fs, p, q);
    LateEditIsQuiet(db, fs, 5, Both(p, q), p, q);
    LateEdit(db, fs, 5, Both(p, q), p, q, 6);
  }

  // ----- one path that changes between source and other -----

  /** The index of one plain file that is a source, or is none. */
  function IndexedAs(compact: bool, p: Path, other: bool): Db {
    Create(compact, map[p := Plain(1)], [Entry(p, other)])
  }

  ghost predicate ListsOne(fs: Tree, walk: seq<Entry>, p: Path, other: bool) {
    Walks(fs, walk) && Entry(p, other) in walk && p in fs && !fs[p].binary
  }

  lemma OneLists(fs: Tree, p: Path, other: bool)
    requires p in fs && !fs[p].binary
    ensures ListsOne(fs, [Entry(p, other)], p, other)
  {
  }

  /** The path is known, and as what. */
  ghost predicate KnownAs(db: Db, p: Path, other: bool) {
    && Valid(db.index) && NoStray(db)
    && p in db.index.fids && db.index.fids[p].kind == if other then Other else Source
  }

  lemma CreateKnowsAs(compact: bool, fs: Tree, walk: seq<Entry>, p: Path, other: bool)
    requires ListsOne(fs, walk, p, other)
    ensures KnownAs(Create(compact, fs, walk), p, other) && Create(compact, fs, walk).compact == compact
  {
    CreateDescribes(compact, fs, walk);
    InWalkMeans(fs, walk, p);
    assert p in TreeView(compact, fs, walk);
  }

  lemma IndexedAsKnows(compact: bool, p: Path, other: bool)
    ensures KnownAs(IndexedAs(compact, p, other), p, other) && IndexedAs(compact, p, other).compact == compact
  {
    var fs := map[p := Plain(1)];
    OneLists(fs, p, other);
    CreateKnowsAs(compact, fs, [Entry(p, other)], p, other);
  }

  lemma TypeStays(db: Db, fs: Tree, since: int, walk: seq<Entry>, p: Path, other: bool)
    requires KnownAs(db, p, other) && ListsOne(fs, walk, p, !other)
    ensures !Equivalent(Update(db, fs, since, walk).0, Create(db.compact, fs, walk))
  {
    InWalkMeans(fs, walk, p);
    CleanUpdateMatches(db, fs, since, walk);
    assert !NoticedAt(db, fs, since, walk, p);
  }

  /** A path that becomes a source, or ceases to be one, keeps the type that it had. */
  lemma ClassChange(compact: bool, other: bool)
    ensures var p := "./a.inc";
            var db, fs, walk := IndexedAs(compact, p, other), map[p := Plain(1)], [Entry(p, !other)];
            !Equivalent(Update(db, fs, 5, walk).0, Create(db.compact, fs, walk))
  {
    var p := "./a.inc";
    IndexedAsKnows(compact, p, other);
    var fs := map[p := Plain(1)];
    OneLists(fs, p, !other);
    TypeStays(IndexedAs(compact, p, other), fs, 5, [Entry(p, !other)], p, other);
  }

  lemma Strays(db: Db, fs: Tree, since: int, walk: seq<Entry>, p: Path)
    requires KnownAs(db, p, true) && ListsOne(fs, walk, p, false) && fs[p] == Defining(since + 1)
    ensures !NoStray(Update(db, fs, since, walk).0)
  {
    TagsDiffer(db.compact, 1, since + 1);
    UpdateIsExecute(db, fs, since, walk);
    UpdatedNoStray(db, fs, since, walk);
    assert !OwnedAt(db, fs, since, walk, p);
  }

  /** If it becomes a source and is newer, its tags are recorded for a path that is no source. */
  lemma ClassChangeStrays(compact: bool)
    ensures var p := "./a.inc";
            var db, fs, walk := IndexedAs(compact, p, true), map[p := Defining(6)], [Entry(p, false)];
            !NoStray(Update(db, fs, 5, walk).0)
  {
    var p := "./a.inc";
    IndexedAsKnows(compact, p, true);
    var fs := map[p := Defining(6)];
    OneLists(fs, p, false);
    Strays(IndexedAs(compact, p, true), fs, 5, [Entry(p, false)], p);
  }

  lemma TagsOfChanged(db: Db, fs: Tree, since: int, walk: seq<Entry>, p: Path)
    requires KnownAs(db, p, true) && ListsOne(fs, walk, p, false) && fs[p] == Defining(since + 1)
    ensures var d, f := Update(db, fs, since, walk).0, db.index.fids[p].fid;
            && Valid(d.index) && p in d.index.fids && d.index.fids[p] == Id(f, Other)
            && RecordsOf(d, f) == FileInfo(db.compact, Defining(since + 1))
  {
    UpdateIsExecute(db, fs, since, walk);
    OtherTags(db, fs, since, walk, p);
    UpdatedIndex(db, fs, since, walk, p);
    InWalkMeans(fs, walk, p);
  }

  lemma Abandoned(db: Db, fs: Tree, since: int, walk: seq<Entry>, p: Path, rest: Tree, now: int, paths: seq<Entry>)
    requires KnownAs(db, p, true) && ListsOne(fs, walk, p, false) && fs[p] == Defining(since + 1)
    requires Walks(rest, paths) && !InWalk(rest, paths, p)
    ensures var d := Update(Update(db, fs, since, walk).0, rest, now, paths).0;
            var f := db.index.fids[p].fid;
            && p !in d.index.fids && Unnamed(d.index, f)
            && RecordsOf(d, f) == FileInfo(db.compact, Defining(since + 1)) != SourceInfo(multiset{}, multiset{})
  {
    TagsOfChanged(db, fs, since, walk, p);
    AbandonsRecords(Update(db, fs, since, walk).0, rest, now, paths, p);
    TagsDiffer(db.compact, 1, since + 1);
  }

  /** If it is then deleted, its tags stay in the tag files, under an id without a path. */
  lemma ClassChangeAbandons(compact: bool)
    ensures var p := "./a.inc";
            var db, fs, walk := IndexedAs(compact, p, true), map[p := Defining(6)], [Entry(p, false)];
            var d, f := Update(Update(db, fs, 5, walk).0, map[], 7, []).0, db.index.fids[p].fid;
            && p !in d.index.fids && Unnamed(d.index, f)
            && RecordsOf(d, f) == FileInfo(compact, Defining(6)) != SourceInfo(multiset{}, multiset{})
  {
    var p := "./a.inc";
    IndexedAsKnows(compact, p, true);
    var fs := map[p := Defining(6)];
    OneLists(fs, p, false);
    Abandoned(IndexedAs(compact, p, true), fs, 5, [Entry(p, false)], p, map[], 7, []);
  }
}
