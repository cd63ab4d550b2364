/** Incremental update of the tag databases, against the full rebuild. */
module Incremental {
  import opened TagIndex

  /** A regular file: what the parser reports for it, its modification time and
      whether it looks binary. */
  datatype File = File(symbols: seq<Symbol>, mtime: int, binary: bool)
  type Tree = map<Path, File>

  /** One path of the walk; `other` stands for the leading blank that marks a
      path which is not a source file. */
  datatype Entry = Entry(path: Path, other: bool)

  datatype Db = Db(index: Index, gtags: seq<Record>, grtags: seq<Record>, compact: bool)

  /** The walk lists existing regular files. */
  predicate WalkOf(fs: Tree, walk: seq<Entry>) {
    forall e :: e in walk ==> e.path in fs
  }

  predicate Once(walk: seq<Entry>) {
    forall i, j :: 0 <= i < j < |walk| ==> walk[i].path != walk[j].path
  }

  predicate NoRepeat(ps: seq<Path>) {
    forall i, j :: 0 <= i < j < |ps| ==> ps[i] != ps[j]
  }

  predicate Skipped(fs: Tree, e: Entry)
    requires e.path in fs
  {
    e.other && fs[e.path].binary
  }

  // ----- the full rebuild -----

  function AddFile(db: Db, p: Path, f: File): Db {
    var x := Put(db.index, p, Source);
    var fid := x.fids[p].fid;
    Db(x,
       db.gtags + Stamp(fid, Packed(db.compact, TagsOf(f.symbols, Definition))),
       db.grtags + Stamp(fid, Packed(true, TagsOf(f.symbols, Reference))),
       db.compact)
  }

  function CreateStep(db: Db, fs: Tree, e: Entry): Db
    requires e.path in fs
  {
    if Skipped(fs, e) then db
    else if e.other then db.(index := Put(db.index, e.path, Other))
    else AddFile(db, e.path, fs[e.path])
  }

  function Create(compact: bool, fs: Tree, walk: seq<Entry>): Db
    requires WalkOf(fs, walk)
  {
    if |walk| == 0 then Db(Empty, [], [], compact)
    else CreateStep(Create(compact, fs, walk[..|walk| - 1]), fs, walk[|walk| - 1])
  }

  // ----- the incremental update -----

  predicate IsModified(x: Index, fs: Tree, since: int, e: Entry)
    requires e.path in fs
  {
    !e.other && e.path in x.fids && since < fs[e.path].mtime
  }

  /** addlist: new source files and source files modified since. */
  function AddList(x: Index, fs: Tree, since: int, walk: seq<Entry>): seq<Path>
    requires WalkOf(fs, walk)
  {
    if |walk| == 0 then []
    else
      var e := walk[|walk| - 1];
      AddList(x, fs, since, walk[..|walk| - 1])
      + if !e.other && (e.path !in x.fids || since < fs[e.path].mtime) then [e.path] else []
  }

  /** addlist_other: new files that are neither source nor binary. */
  function OtherList(x: Index, fs: Tree, walk: seq<Entry>): seq<Path>
    requires WalkOf(fs, walk)
  {
    if |walk| == 0 then []
    else
      var e := walk[|walk| - 1];
      OtherList(x, fs, walk[..|walk| - 1])
      + if e.other && !fs[e.path].binary && e.path !in x.fids then [e.path] else []
  }

  /** findset: the ids of the known paths that the walk met. */
  function FindSet(x: Index, fs: Tree, walk: seq<Entry>): set<nat>
    requires WalkOf(fs, walk)
  {
    set e | e in walk && !Skipped(fs, e) && e.path in x.fids :: x.fids[e.path].fid
  }

  function ModifiedSet(x: Index, fs: Tree, since: int, walk: seq<Entry>): set<nat>
    requires WalkOf(fs, walk)
  {
    set e | e in walk && IsModified(x, fs, since, e) :: x.fids[e.path].fid
  }

  predicate IsGone(x: Index, fs: Tree, found: set<nat>, id: nat)
    requires id in x.paths
  {
    var p := x.paths[id].path;
    if x.paths[id].kind == Other then id !in found || p !in fs || fs[p].binary
    else id !in found || p !in fs
  }

  /** deletelist: the indexed paths with an id below `limit` that are gone. */
  function DeleteList(x: Index, fs: Tree, found: set<nat>, limit: nat): seq<Path> {
    if limit <= 1 then []
    else
      DeleteList(x, fs, found, limit - 1)
      + if limit - 1 in x.paths && IsGone(x, fs, found, limit - 1) then [x.paths[limit - 1].path] else []
  }

  /** The ids which the second loop adds to deleteset. */
  function GoneSet(x: Index, fs: Tree, found: set<nat>, limit: nat): set<nat> {
    set id | id in x.paths && 1 <= id < limit && x.paths[id].kind == Source && IsGone(x, fs, found, id)
  }

  function AddFiles(db: Db, fs: Tree, ps: seq<Path>): Db
    requires forall p :: p in ps ==> p in fs
  {
    if |ps| == 0 then db else AddFile(AddFiles(db, fs, ps[..|ps| - 1]), ps[|ps| - 1], fs[ps[|ps| - 1]])
  }

  function UpdateTags(db: Db, fs: Tree, dead: set<nat>, add: seq<Path>): Db
    requires forall p :: p in add ==> p in fs
  {
    AddFiles(db.(gtags := Keep(db.gtags, dead), grtags := Keep(db.grtags, dead)), fs, add)
  }

  function UpdateIndex(x: Index, del: seq<Path>, other: seq<Path>): Index {
    PutAll(RemoveAll(x, del), other, Other)
  }

  /** What `incremental` decides before it touches anything. */
  datatype Plan = Plan(add: seq<Path>, other: seq<Path>, dead: set<nat>, del: seq<Path>)

  function Inspect(x: Index, fs: Tree, since: int, walk: seq<Entry>): Plan
    requires WalkOf(fs, walk)
  {
    var found := FindSet(x, fs, walk);
    Plan(AddList(x, fs, since, walk), OtherList(x, fs, walk),
         ModifiedSet(x, fs, since, walk) + GoneSet(x, fs, found, x.next),
         DeleteList(x, fs, found, x.next))
  }

  predicate Idle(plan: Plan) {
    plan.dead == {} && plan.add == [] && plan.del == [] && plan.other == []
  }

  function Execute(db: Db, fs: Tree, plan: Plan): Db
    requires forall p :: p in plan.add ==> p in fs
  {
    var d := UpdateTags(db, fs, plan.dead, plan.add);
    d.(index := UpdateIndex(d.index, plan.del, plan.other))
  }

  lemma {:induction false} AddListMeans(x: Index, fs: Tree, since: int, walk: seq<Entry>)
    requires WalkOf(fs, walk)
    ensures forall p :: p in AddList(x, fs, since, walk) <==>
              Entry(p, false) in walk && (p !in x.fids || since < fs[p].mtime)
    ensures forall p :: p in OtherList(x, fs, walk) <==>
              Entry(p, true) in walk && !fs[p].binary && p !in x.fids
    decreases |walk|
  {
    if |walk| > 0 {
      AddListMeans(x, fs, since, walk[..|walk| - 1]);
      assert walk == walk[..|walk| - 1] + [walk[|walk| - 1]];
    }
  }

  lemma {:induction false} AddListOnce(x: Index, fs: Tree, since: int, walk: seq<Entry>)
    requires WalkOf(fs, walk) && Once(walk)
    ensures NoRepeat(AddList(x, fs, since, walk))
    decreases |walk|
  {
    if |walk| > 0 {
      AddListOnce(x, fs, since, walk[..|walk| - 1]);
      AddListMeans(x, fs, since, walk[..|walk| - 1]);
      var p := walk[|walk| - 1].path;
      assert forall e :: e in walk[..|walk| - 1] ==> e.path != p;
      assert p !in AddList(x, fs, since, walk[..|walk| - 1]);
    }
  }

  lemma {:induction false} DeleteListMeans(x: Index, fs: Tree, found: set<nat>, limit: nat)
    requires Valid(x)
    ensures forall p :: p in DeleteList(x, fs, found, limit) <==>
              p in x.fids && x.fids[p].fid < limit && IsGone(x, fs, found, x.fids[p].fid)
    decreases limit
  {
    if limit > 1 {
      DeleteListMeans(x, fs, found, limit - 1);
    }
  }

  function Update(db: Db, fs: Tree, since: int, walk: seq<Entry>): (Db, bool)
    requires WalkOf(fs, walk)
  {
    AddListMeans(db.index, fs, since, walk);
    var plan := Inspect(db.index, fs, since, walk);
    if Idle(plan) then (db, false) else (Execute(db, fs, plan), true)
  }

  /** The --single-update option. */
  function SingleUpdate(db: Db, fs: Tree, since: int, walk: seq<Entry>, p: Path): (Db, bool)
    requires WalkOf(fs, walk) && p in fs
  {
    if p !in db.index.fids then Update(db, fs, since, walk)
    else if db.index.fids[p].kind == Source then (UpdateTags(db, fs, {db.index.fids[p].fid}, [p]), true)
    else (db, false)
  }

  // ----- what a database says, with file ids forgotten -----

  datatype Info = OtherInfo | SourceInfo(defs: multiset<TagLine>, refs: multiset<TagLine>)
  type View = map<Path, Info>

  function FileInfo(compact: bool, f: File): Info {
    SourceInfo(multiset(Packed(compact, TagsOf(f.symbols, Definition))),
               multiset(Packed(true, TagsOf(f.symbols, Reference))))
  }

  function InfoAt(db: Db, p: Path): Info
    requires p in db.index.fids
  {
    var id := db.index.fids[p];
    if id.kind == Other then OtherInfo else SourceInfo(Of(db.gtags, id.fid), Of(db.grtags, id.fid))
  }

  /** Every tag record carries the id of a live source path. */
  ghost predicate NoStray(db: Db) {
    forall r :: r in db.gtags || r in db.grtags ==>
      r.fid in db.index.paths && db.index.paths[r.fid].kind == Source
  }

  ghost predicate Describes(db: Db, view: View) {
    && Valid(db.index) && NoStray(db)
    && db.index.fids.Keys == view.Keys
    && forall p :: p in view ==> InfoAt(db, p) == view[p]
  }

  /** Same paths, same types and, path by path, the same tag records. */
  ghost predicate Equivalent(a: Db, b: Db) {
    && Valid(a.index) && NoStray(a) && Valid(b.index) && NoStray(b)
    && a.index.fids.Keys == b.index.fids.Keys
    && forall p :: p in a.index.fids ==> InfoAt(a, p) == InfoAt(b, p)
  }

  function TreePaths(fs: Tree, walk: seq<Entry>): set<Path>
    requires WalkOf(fs, walk)
  {
    set e | e in walk && !Skipped(fs, e) :: e.path
  }

  function TreeView(compact: bool, fs: Tree, walk: seq<Entry>): View
    requires WalkOf(fs, walk)
  {
    map p | p in TreePaths(fs, walk) :: if Entry(p, false) in walk then FileInfo(compact, fs[p]) else OtherInfo
  }

  // ----- adding files -----

  /** f is the id under which x knows one of the paths ps. */
  predicate IdAmong(x: Index, ps: seq<Path>, f: nat) {
    f in x.paths && x.paths[f].path in ps
  }

  lemma PutIds(x: Index, ps: seq<Path>, p: Path, f: nat)
    requires Valid(x) && p !in ps
    ensures var y := Put(x, p, Source);
            && Valid(y) && p in y.fids
            && (f != y.fids[p].fid ==>
                  && (IdAmong(y, ps + [p], f) <==> IdAmong(x, ps, f))
                  && (IdAmong(x, ps, f) ==> y.paths[f] == x.paths[f]))
            && (f == y.fids[p].fid ==> IdAmong(y, ps + [p], f) && !IdAmong(x, ps, f) && y.paths[f].path == p)
  {
  }

  lemma {:induction false} AddFilesIndex(db: Db, fs: Tree, ps: seq<Path>)
    requires Valid(db.index)
    requires forall p :: p in ps ==> p in fs
    ensures var d := AddFiles(db, fs, ps);
            d.compact == db.compact && d.index == PutAll(db.index, ps, Source) && Valid(d.index)
    decreases |ps|
  {
    if |ps| > 0 {
      AddFilesIndex(db, fs, ps[..|ps| - 1]);
      PutAllIs(db.index, ps, Source);
    }
  }

  /** What the listed files add to the records of id f. */
  function Added(compact: bool, fs: Tree, z: Index, ps: seq<Path>, f: nat): (info: Info)
    requires forall p :: p in ps ==> p in fs
    ensures info.SourceInfo?
  {
    if IdAmong(z, ps, f) then FileInfo(compact, fs[z.paths[f].path]) else SourceInfo(multiset{}, multiset{})
  }

  lemma LastApart<T>(s: seq<T>)
    requires |s| > 0
    ensures s == s[..|s| - 1] + [s[|s| - 1]]
  {
  }

  lemma {:induction false} AddFilesRecords(db: Db, fs: Tree, ps: seq<Path>, f: nat)
    requires Valid(db.index) && NoRepeat(ps)
    requires forall p :: p in ps ==> p in fs
    ensures var d := AddFiles(db, fs, ps);
            var added := Added(db.compact, fs, d.index, ps, f);
            Of(d.gtags, f) == Of(db.gtags, f) + added.defs && Of(d.grtags, f) == Of(db.grtags, f) + added.refs
    decreases |ps|
  {
    if |ps| > 0 {
      var n := |ps| - 1;
      var d := AddFiles(db, fs, ps[..n]);
      AddFilesRecords(db, fs, ps[..n], f);
      AddFilesIndex(db, fs, ps[..n]);
      LastApart(ps);
      OneFileMore(db, d, fs, ps[..n], ps[n], f);
    }
  }

  lemma OneFileMore(db: Db, d: Db, fs: Tree, ps: seq<Path>, p: Path, f: nat)
    requires Valid(d.index) && d.compact == db.compact && p !in ps && p in fs
    requires forall q :: q in ps ==> q in fs
    requires var added := Added(db.compact, fs, d.index, ps, f);
             Of(d.gtags, f) == Of(db.gtags, f) + added.defs && Of(d.grtags, f) == Of(db.grtags, f) + added.refs
    ensures var e := AddFile(d, p, fs[p]);
            var added := Added(db.compact, fs, e.index, ps + [p], f);
            Of(e.gtags, f) == Of(db.gtags, f) + added.defs && Of(e.grtags, f) == Of(db.grtags, f) + added.refs
  {
    AddFileRecords(d, p, fs[p], f);
    AddedOneMore(db.compact, fs, d.index, ps, p, f);
    var e := AddFile(d, p, fs[p]);
    var added := Added(db.compact, fs, e.index, ps + [p], f);
    if f == e.index.fids[p].fid {
      PlusNothing(Of(db.gtags, f));
      PlusNothing(Of(db.grtags, f));
      assert Of(e.gtags, f) == Of(db.gtags, f) + added.defs && Of(e.grtags, f) == Of(db.grtags, f) + added.refs;
    } else {
      assert added == Added(db.compact, fs, d.index, ps, f);
    }
  }

  lemma PlusNothing(tags: multiset<TagLine>)
    ensures tags + multiset{} == tags
  {
  }

  lemma AddedOneMore(compact: bool, fs: Tree, x: Index, ps: seq<Path>, p: Path, f: nat)
    requires Valid(x) && p !in ps && p in fs
    requires forall q :: q in ps ==> q in fs
    ensures var y := Put(x, p, Source);
            var before, after := Added(compact, fs, x, ps, f), Added(compact, fs, y, ps + [p], f);
            && p in y.fids
            && if f == y.fids[p].fid then before == SourceInfo(multiset{}, multiset{}) && after == FileInfo(compact, fs[p])
               else after == before
  {
    PutIds(x, ps, p, f);
  }

  lemma {:induction false} AddFilesFids(db: Db, fs: Tree, ps: seq<Path>, r: Record)
    requires Valid(db.index) && NoRepeat(ps)
    requires forall p :: p in ps ==> p in fs
    ensures var d := AddFiles(db, fs, ps);
            r in d.gtags || r in d.grtags ==> r in db.gtags || r in db.grtags || IdAmong(d.index, ps, r.fid)
    decreases |ps|
  {
    if |ps| > 0 {
      var n := |ps| - 1;
      var d := AddFiles(db, fs, ps[..n]);
      AddFilesFids(db, fs, ps[..n], r);
      AddFilesIndex(db, fs, ps[..n]);
      assert ps == ps[..n] + [ps[n]];
      AddFileFid(d, ps[n], fs[ps[n]], r);
      PutIds(d.index, ps[..n], ps[n], r.fid);
    }
  }

  lemma AddFileRecords(db: Db, p: Path, file: File, f: nat)
    requires Valid(db.index)
    ensures var d := AddFile(db, p, file);
            var info := FileInfo(db.compact, file);
            if f == d.index.fids[p].fid then
              Of(d.gtags, f) == Of(db.gtags, f) + info.defs && Of(d.grtags, f) == Of(db.grtags, f) + info.refs
            else
              Of(d.gtags, f) == Of(db.gtags, f) && Of(d.grtags, f) == Of(db.grtags, f)
  {
    var fid := Put(db.index, p, Source).fids[p].fid;
    var defs := Packed(db.compact, TagsOf(file.symbols, Definition));
    var refs := Packed(true, TagsOf(file.symbols, Reference));
    OfConcat(db.gtags, Stamp(fid, defs), f);
    OfConcat(db.grtags, Stamp(fid, refs), f);
    OfStamp(defs, f, fid);
    OfStamp(refs, f, fid);
  }

  lemma AddFileFid(db: Db, p: Path, file: File, r: Record)
    ensures var d := AddFile(db, p, file);
            r in d.gtags || r in d.grtags ==> r in db.gtags || r in db.grtags || r.fid == d.index.fids[p].fid
  {
  }

  // ----- what the rebuild says -----

  lemma {:induction false} CreateDescribes(compact: bool, fs: Tree, walk: seq<Entry>)
    requires WalkOf(fs, walk) && Once(walk)
    ensures Create(compact, fs, walk).compact == compact
    ensures Describes(Create(compact, fs, walk), TreeView(compact, fs, walk))
    decreases |walk|
  {
    if |walk| > 0 {
      var n := |walk| - 1;
      CreateDescribes(compact, fs, walk[..n]);
      assert walk == walk[..n] + [walk[n]];
      CreateStepDescribes(Create(compact, fs, walk[..n]), fs, walk[..n], walk[n]);
    }
  }

  lemma CreateStepDescribes(db: Db, fs: Tree, walk: seq<Entry>, e: Entry)
    requires WalkOf(fs, walk + [e]) && Once(walk + [e])
    requires Describes(db, TreeView(db.compact, fs, walk))
    ensures CreateStep(db, fs, e).compact == db.compact
    ensures Describes(CreateStep(db, fs, e), TreeView(db.compact, fs, walk + [e]))
  {
    forall g | g in walk ensures g.path != e.path {
      var i :| 0 <= i < |walk| && walk[i] == g;
      assert (walk + [e])[i] == g && (walk + [e])[|walk|] == e;
    }
    TreeViewStep(db.compact, fs, walk, e);
    var view := TreeView(db.compact, fs, walk);
    if Skipped(fs, e) {
    } else if e.other {
      PutOtherDescribes(db, view, e.path);
    } else {
      AddFileDescribes(db, view, e.path, fs[e.path]);
    }
  }

  lemma PutOtherDescribes(db: Db, view: View, p: Path)
    requires Describes(db, view) && p !in view
    ensures Describes(db.(index := Put(db.index, p, Other)), view[p := OtherInfo])
  {
    PutIsValid(db.index, p, Other);
    var d, next := db.(index := Put(db.index, p, Other)), view[p := OtherInfo];
    assert d.index.fids.Keys == next.Keys;
    forall q | q in next ensures InfoAt(d, q) == next[q] {
      assert q != p ==> InfoAt(db, q) == view[q];
    }
  }

  lemma AddFileDescribes(db: Db, view: View, p: Path, file: File)
    requires Describes(db, view) && p !in view
    ensures Describes(AddFile(db, p, file), view[p := FileInfo(db.compact, file)])
  {
    var d, next := AddFile(db, p, file), view[p := FileInfo(db.compact, file)];
    AddFileOwners(db, p, file);
    forall q | q in next ensures q in d.index.fids && InfoAt(d, q) == next[q] {
      AddFileInfo(db, view, p, file, q);
    }
    assert d.index.fids.Keys == next.Keys;
  }

  lemma AddFileOwners(db: Db, p: Path, file: File)
    requires Valid(db.index) && NoStray(db) && p !in db.index.fids
    ensures Valid(AddFile(db, p, file).index) && NoStray(AddFile(db, p, file))
  {
    var d := AddFile(db, p, file);
    PutIsValid(db.index, p, Source);
    forall r | r in d.gtags || r in d.grtags ensures r.fid in d.index.paths && d.index.paths[r.fid].kind == Source {
      AddFileFid(db, p, file, r);
    }
  }

  lemma AddFileInfo(db: Db, view: View, p: Path, file: File, q: Path)
    requires Describes(db, view) && p !in view
    ensures var d := AddFile(db, p, file);
            (q in view ==> q in d.index.fids && InfoAt(d, q) == view[q]) &&
            (q == p ==> q in d.index.fids && InfoAt(d, q) == FileInfo(db.compact, file))
  {
    if q in view || q == p {
      var f := AddFile(db, p, file).index.fids[q].fid;
      AddFileRecords(db, p, file, f);
      if q == p {
        KeptRecords(db, {}, f);
        var info := FileInfo(db.compact, file);
        assert multiset{} + info.defs == info.defs && multiset{} + info.refs == info.refs;
      }
    }
  }

  lemma TreePathsStep(fs: Tree, walk: seq<Entry>, e: Entry)
    requires WalkOf(fs, walk + [e])
    ensures TreePaths(fs, walk + [e]) == TreePaths(fs, walk) + (if Skipped(fs, e) then {} else {e.path})
  {
    assert forall g :: g in walk + [e] <==> g in walk || g == e;
  }

  lemma TreeViewStep(compact: bool, fs: Tree, walk: seq<Entry>, e: Entry)
    requires WalkOf(fs, walk + [e])
    requires forall g :: g in walk ==> g.path != e.path
    ensures TreeView(compact, fs, walk + [e]) ==
            if Skipped(fs, e) then TreeView(compact, fs, walk)
            else TreeView(compact, fs, walk)[e.path := if e.other then OtherInfo else FileInfo(compact, fs[e.path])]
  {
    TreePathsStep(fs, walk, e);
    forall p | p in TreePaths(fs, walk)
      ensures p != e.path && (Entry(p, false) in walk + [e] <==> Entry(p, false) in walk)
    {
    }
    assert Entry(e.path, false) in walk + [e] <==> !e.other;
  }

  // ----- what the incremental update says -----

  ghost predicate InWalk(fs: Tree, walk: seq<Entry>, p: Path)
    requires WalkOf(fs, walk)
  {
    p in TreePaths(fs, walk)
  }

  lemma InWalkMeans(fs: Tree, walk: seq<Entry>, p: Path)
    requires WalkOf(fs, walk) && Once(walk)
    ensures InWalk(fs, walk, p) <==> Entry(p, false) in walk || (Entry(p, true) in walk && !fs[p].binary)
    ensures !(Entry(p, false) in walk && Entry(p, true) in walk)
    ensures InWalk(fs, walk, p) ==> p in fs
  {
    if InWalk(fs, walk, p) {
      var e :| e in walk && !Skipped(fs, e) && e.path == p;
      assert e == Entry(p, e.other);
    }
    if Entry(p, false) in walk {
      assert !Skipped(fs, Entry(p, false));
    } else if Entry(p, true) in walk && !fs[p].binary {
      assert !Skipped(fs, Entry(p, true));
    }
  }

  /** The plan, seen from one path. */
  lemma PlanAt(x: Index, fs: Tree, since: int, walk: seq<Entry>, p: Path)
    requires Valid(x) && WalkOf(fs, walk)
    ensures var plan := Inspect(x, fs, since, walk);
            && (p in plan.add <==> Entry(p, false) in walk && (p !in x.fids || since < fs[p].mtime))
            && (p in plan.other <==> Entry(p, true) in walk && !fs[p].binary && p !in x.fids)
            && (p in plan.del <==>
                  p in x.fids && (!InWalk(fs, walk, p) || (x.fids[p].kind == Other && fs[p].binary)))
            && (p in x.fids ==>
                  (x.fids[p].fid in plan.dead <==>
                    (Entry(p, false) in walk && since < fs[p].mtime) || (x.fids[p].kind == Source && !InWalk(fs, walk, p))))
  {
    AddListMeans(x, fs, since, walk);
    var found := FindSet(x, fs, walk);
    DeleteListMeans(x, fs, found, x.next);
    assert InWalk(fs, walk, p) ==> p in fs;
    if p in x.fids {
      var f := x.fids[p].fid;
      assert f in found <==> InWalk(fs, walk, p) by {
        if f in found {
          var e :| e in walk && !Skipped(fs, e) && e.path in x.fids && x.fids[e.path].fid == f;
        }
      }
      assert f in ModifiedSet(x, fs, since, walk) <==> Entry(p, false) in walk && since < fs[p].mtime by {
        if f in ModifiedSet(x, fs, since, walk) {
          var e :| e in walk && IsModified(x, fs, since, e) && x.fids[e.path].fid == f;
          assert e == Entry(p, false);
        }
        assert Entry(p, false) in walk && since < fs[p].mtime ==> IsModified(x, fs, since, Entry(p, false));
      }
    }
  }

  /** The updated index, seen from one path. */
  lemma IndexAt(x: Index, add: seq<Path>, del: seq<Path>, other: seq<Path>, p: Path)
    requires Valid(x)
    ensures var z := PutAll(x, add, Source);
            var y := UpdateIndex(z, del, other);
            && Valid(y) && Valid(z)
            && (p in y.fids <==> ((p in x.fids || p in add) && p !in del) || p in other)
            && (p in z.fids <==> p in x.fids || p in add)
            && (p in z.fids && p !in del ==> y.fids[p] == z.fids[p])
            && (p in x.fids ==> z.fids[p] == x.fids[p])
            && (p in add && p !in x.fids ==> z.fids[p].kind == Source && x.next <= z.fids[p].fid)
            && (p in other && (p in del || p !in z.fids) ==> y.fids[p].kind == Other)
  {
    var z := PutAll(x, add, Source);
    PutAllIs(x, add, Source);
    var w := RemoveAll(z, del);
    RemoveAllIs(z, del);
    PutAllIs(w, other, Other);
  }

  /** What the update can notice: no path changes between source and other, and
      every indexed source file whose tags changed has a modification time later
      than the tag file's. */
  ghost predicate Noticed(db: Db, fs: Tree, since: int, walk: seq<Entry>)
    requires WalkOf(fs, walk)
  {
    forall p :: p in db.index.fids && InWalk(fs, walk, p) ==> NoticedAt(db, fs, since, walk, p)
  }

  ghost predicate NoticedAt(db: Db, fs: Tree, since: int, walk: seq<Entry>, p: Path)
    requires WalkOf(fs, walk) && p in db.index.fids && InWalk(fs, walk, p)
  {
    && (db.index.fids[p].kind == Source <==> Entry(p, false) in walk)
    && (Entry(p, false) in walk && fs[p].mtime <= since ==> InfoAt(db, p) == FileInfo(db.compact, fs[p]))
  }

  lemma PlanIsSound(x: Index, fs: Tree, since: int, walk: seq<Entry>)
    requires Valid(x) && WalkOf(fs, walk)
    ensures var plan := Inspect(x, fs, since, walk);
            && (forall p :: p in plan.add ==> p in fs)
            && (Once(walk) ==> NoRepeat(plan.add))
  {
    AddListMeans(x, fs, since, walk);
    if Once(walk) {
      AddListOnce(x, fs, since, walk);
    }
  }

  function Kept(db: Db, dead: set<nat>): Db {
    db.(gtags := Keep(db.gtags, dead), grtags := Keep(db.grtags, dead))
  }

  /** Which paths the updated index knows, and as what. */
  lemma UpdatedIndex(db: Db, fs: Tree, since: int, walk: seq<Entry>, p: Path)
    requires Valid(db.index) && WalkOf(fs, walk) && Once(walk)
    ensures forall q :: q in Inspect(db.index, fs, since, walk).add ==> q in fs
    ensures var plan := Inspect(db.index, fs, since, walk);
            var x, y, z := db.index, Execute(db, fs, plan).index, PutAll(db.index, plan.add, Source);
            && Valid(y) && Valid(z) && z == UpdateTags(db, fs, plan.dead, plan.add).index
            && (p in y.fids && p in x.fids ==> y.fids[p] == x.fids[p])
            && (p in x.fids ==> p in z.fids && z.fids[p] == x.fids[p])
            && (p in y.fids && p !in x.fids ==> (y.fids[p].kind == Source <==> Entry(p, false) in walk))
            && (p in y.fids && Entry(p, false) in walk ==> p in z.fids && y.fids[p] == z.fids[p])
            && (p in y.fids && p !in x.fids && Entry(p, false) in walk ==> x.next <= z.fids[p].fid)
            && (p in y.fids <==> InWalk(fs, walk, p) && !(p in x.fids && x.fids[p].kind == Other && fs[p].binary))
  {
    var plan := Inspect(db.index, fs, since, walk);
    PlanAt(db.index, fs, since, walk, p);
    PlanIsSound(db.index, fs, since, walk);
    IndexAt(db.index, plan.add, plan.del, plan.other, p);
    InWalkMeans(fs, walk, p);
    AddFilesIndex(Kept(db, plan.dead), fs, plan.add);
  }

  /** The records under the id of path p once the tag files are updated. */
  lemma TagsUpdated(db: Db, fs: Tree, dead: set<nat>, add: seq<Path>, p: Path)
    requires Valid(db.index) && NoStray(db) && NoRepeat(add)
    requires forall q :: q in add ==> q in fs
    requires p in add && p in db.index.fids ==> db.index.fids[p].fid in dead
    requires p !in add && p in db.index.fids ==> db.index.fids[p].fid !in dead
    ensures var d := UpdateTags(db, fs, dead, add);
            d.index == PutAll(db.index, add, Source) &&
            (p in d.index.fids ==>
              var f := d.index.fids[p].fid;
              && (p in add ==> SourceInfo(Of(d.gtags, f), Of(d.grtags, f)) == FileInfo(db.compact, fs[p]))
              && (p !in add ==> Of(d.gtags, f) == Of(db.gtags, f) && Of(d.grtags, f) == Of(db.grtags, f)))
  {
    AddFilesIndex(Kept(db, dead), fs, add);
    PutAllIs(db.index, add, Source);
    var z := PutAll(db.index, add, Source);
    if p in z.fids {
      var f := z.fids[p].fid;
      AddFilesRecords(Kept(db, dead), fs, add, f);
      KeptRecords(db, dead, f);
      assert z.paths[f].path == p;
      if p in add {
        var info := FileInfo(db.compact, fs[p]);
        assert multiset{} + info.defs == info.defs && multiset{} + info.refs == info.refs;
      }
    }
  }

  lemma KeptRecords(db: Db, dead: set<nat>, f: nat)
    requires NoStray(db)
    ensures f in dead || f !in db.index.paths ==>
              Of(Kept(db, dead).gtags, f) == multiset{} && Of(Kept(db, dead).grtags, f) == multiset{}
    ensures f !in dead ==>
              Of(Kept(db, dead).gtags, f) == Of(db.gtags, f) && Of(Kept(db, dead).grtags, f) == Of(db.grtags, f)
  {
    OfKeep(db.gtags, dead, f);
    OfKeep(db.grtags, dead, f);
    if f !in db.index.paths {
      OfAbsent(db.gtags, f);
      OfAbsent(db.grtags, f);
    }
  }

  /** The records of an indexed source path after the update: read again when the
      path is new or was modified later than `since`, otherwise as they were. */
  lemma UpdatedRecords(db: Db, fs: Tree, since: int, walk: seq<Entry>, p: Path)
    requires Valid(db.index) && NoStray(db) && WalkOf(fs, walk) && Once(walk)
    ensures forall q :: q in Inspect(db.index, fs, since, walk).add ==> q in fs
    ensures var d := Execute(db, fs, Inspect(db.index, fs, since, walk));
            p in d.index.fids && d.index.fids[p].kind == Source ==>
              if Entry(p, false) in walk && (p !in db.index.fids || since < fs[p].mtime) then InfoAt(d, p) == FileInfo(db.compact, fs[p])
              else p in db.index.fids && InfoAt(d, p) == InfoAt(db, p)
  {
    var plan := Inspect(db.index, fs, since, walk);
    PlanIsSound(db.index, fs, since, walk);
    UpdatedIndex(db, fs, since, walk, p);
    PlanAt(db.index, fs, since, walk, p);
    if p in Execute(db, fs, plan).index.fids && Execute(db, fs, plan).index.fids[p].kind == Source {
      TagsUpdated(db, fs, plan.dead, plan.add, p);
    }
  }

  ghost predicate NoTags(compact: bool, f: File) {
    FileInfo(compact, f) == SourceInfo(multiset{}, multiset{})
  }

  /** A path that is read again and known as no source has no tags to stray. */
  ghost predicate OwnedAt(db: Db, fs: Tree, since: int, walk: seq<Entry>, p: Path)
    requires WalkOf(fs, walk) && p in db.index.fids
  {
    db.index.fids[p].kind == Other && Entry(p, false) in walk && since < fs[p].mtime ==> NoTags(db.compact, fs[p])
  }

  ghost predicate Owned(db: Db, fs: Tree, since: int, walk: seq<Entry>)
    requires WalkOf(fs, walk)
  {
    forall p :: p in db.index.fids ==> OwnedAt(db, fs, since, walk, p)
  }

  /** The update leaves no stray record exactly if every tag it reads has a source for an owner. */
  lemma UpdatedNoStray(db: Db, fs: Tree, since: int, walk: seq<Entry>)
    requires Valid(db.index) && NoStray(db) && WalkOf(fs, walk) && Once(walk)
    ensures forall q :: q in Inspect(db.index, fs, since, walk).add ==> q in fs
    ensures NoStray(Execute(db, fs, Inspect(db.index, fs, since, walk))) <==> Owned(db, fs, since, walk)
  {
    var plan := Inspect(db.index, fs, since, walk);
    PlanIsSound(db.index, fs, since, walk);
    var d := Execute(db, fs, plan);
    if Owned(db, fs, since, walk) {
      forall r | r in d.gtags || r in d.grtags
        ensures r.fid in d.index.paths && d.index.paths[r.fid].kind == Source
      {
        UpdatedOwner(db, fs, since, walk, r);
      }
    }
    if NoStray(d) {
      forall p | p in db.index.fids ensures OwnedAt(db, fs, since, walk, p) {
        StraysWithoutOwner(db, fs, since, walk, p);
      }
    }
  }

  /** A source that the walk lists keeps its id, whether it was known or is new. */
  lemma OwnerLives(db: Db, fs: Tree, since: int, walk: seq<Entry>, p: Path)
    requires Valid(db.index) && WalkOf(fs, walk) && Once(walk) && InWalk(fs, walk, p)
    requires if p in db.index.fids then db.index.fids[p].kind == Source else Entry(p, false) in walk
    ensures forall q :: q in Inspect(db.index, fs, since, walk).add ==> q in fs
    ensures var plan := Inspect(db.index, fs, since, walk);
            var z, y := PutAll(db.index, plan.add, Source), Execute(db, fs, plan).index;
            && p in z.fids && z.fids[p].fid in y.paths && y.paths[z.fids[p].fid].kind == Source
  {
    UpdatedIndex(db, fs, since, walk, p);
  }

  lemma UpdatedOwner(db: Db, fs: Tree, since: int, walk: seq<Entry>, r: Record)
    requires Valid(db.index) && NoStray(db) && WalkOf(fs, walk) && Once(walk) && Owned(db, fs, since, walk)
    ensures forall q :: q in Inspect(db.index, fs, since, walk).add ==> q in fs
    ensures var d := Execute(db, fs, Inspect(db.index, fs, since, walk));
            r in d.gtags || r in d.grtags ==> r.fid in d.index.paths && d.index.paths[r.fid].kind == Source
  {
    var plan := Inspect(db.index, fs, since, walk);
    PlanIsSound(db.index, fs, since, walk);
    var d := UpdateTags(db, fs, plan.dead, plan.add);
    if r in d.gtags || r in d.grtags {
      AddFilesIndex(Kept(db, plan.dead), fs, plan.add);
      AddFilesFids(Kept(db, plan.dead), fs, plan.add, r);
      if IdAmong(d.index, plan.add, r.fid) {
        AddedOwner(db, fs, since, walk, r);
      } else {
        KeptOwner(db, fs, since, walk, r);
      }
    }
  }

  lemma KeptOwner(db: Db, fs: Tree, since: int, walk: seq<Entry>, r: Record)
    requires Valid(db.index) && NoStray(db) && WalkOf(fs, walk) && Once(walk)
    requires forall q :: q in Inspect(db.index, fs, since, walk).add ==> q in fs
    requires var kept := Kept(db, Inspect(db.index, fs, since, walk).dead); r in kept.gtags || r in kept.grtags
    ensures var y := Execute(db, fs, Inspect(db.index, fs, since, walk)).index;
            r.fid in y.paths && y.paths[r.fid].kind == Source
  {
    var dead := Inspect(db.index, fs, since, walk).dead;
    OfKeep(db.gtags, dead, r.fid);
    OfKeep(db.grtags, dead, r.fid);
    var p := db.index.paths[r.fid].path;
    PlanAt(db.index, fs, since, walk, p);
    OwnerLives(db, fs, since, walk, p);
    UpdatedIndex(db, fs, since, walk, p);
  }

  lemma AddedOwner(db: Db, fs: Tree, since: int, walk: seq<Entry>, r: Record)
    requires Valid(db.index) && NoStray(db) && WalkOf(fs, walk) && Once(walk) && Owned(db, fs, since, walk)
    requires var plan := Inspect(db.index, fs, since, walk);
             && (forall q :: q in plan.add ==> q in fs)
             && var d := UpdateTags(db, fs, plan.dead, plan.add);
                (r in d.gtags || r in d.grtags) && IdAmong(d.index, plan.add, r.fid)
    ensures var y := Execute(db, fs, Inspect(db.index, fs, since, walk)).index;
            r.fid in y.paths && y.paths[r.fid].kind == Source
  {
    var plan := Inspect(db.index, fs, since, walk);
    var z := UpdateTags(db, fs, plan.dead, plan.add).index;
    var p := z.paths[r.fid].path;
    UpdatedIndex(db, fs, since, walk, p);
    PlanAt(db.index, fs, since, walk, p);
    InWalkMeans(fs, walk, p);
    if p in db.index.fids {
      OwnerIsSource(db, fs, since, walk, r, p);
    }
    OwnerLives(db, fs, since, walk, p);
  }

  lemma OwnerIsSource(db: Db, fs: Tree, since: int, walk: seq<Entry>, r: Record, p: Path)
    requires Valid(db.index) && NoStray(db) && WalkOf(fs, walk) && Once(walk) && Owned(db, fs, since, walk)
    requires p in db.index.fids && db.index.fids[p].fid == r.fid
    requires var plan := Inspect(db.index, fs, since, walk);
             && (forall q :: q in plan.add ==> q in fs)
             && var d := UpdateTags(db, fs, plan.dead, plan.add); r in d.gtags || r in d.grtags
    ensures db.index.fids[p].kind == Source
  {
    if db.index.fids[p].kind == Other {
      var plan := Inspect(db.index, fs, since, walk);
      var d := UpdateTags(db, fs, plan.dead, plan.add);
      OtherTags(db, fs, since, walk, p);
      if r in d.gtags {
        OfPresent(d.gtags, r);
      } else {
        OfPresent(d.grtags, r);
      }
    }
  }

  /** The tags recorded under the id of a path that is known as no source: those of its
      file if it is read again, and none otherwise. */
  lemma OtherTags(db: Db, fs: Tree, since: int, walk: seq<Entry>, p: Path)
    requires Valid(db.index) && NoStray(db) && WalkOf(fs, walk) && Once(walk)
    requires p in db.index.fids && db.index.fids[p].kind == Other
    ensures var plan := Inspect(db.index, fs, since, walk);
            && (forall q :: q in plan.add ==> q in fs)
            && var d, f := UpdateTags(db, fs, plan.dead, plan.add), db.index.fids[p].fid;
               SourceInfo(Of(d.gtags, f), Of(d.grtags, f)) ==
               if Entry(p, false) in walk && since < fs[p].mtime then FileInfo(db.compact, fs[p])
               else SourceInfo(multiset{}, multiset{})
  {
    var plan, f := Inspect(db.index, fs, since, walk), db.index.fids[p].fid;
    PlanIsSound(db.index, fs, since, walk);
    PlanAt(db.index, fs, since, walk, p);
    UpdatedIndex(db, fs, since, walk, p);
    TagsUpdated(db, fs, plan.dead, plan.add, p);
    OfAbsent(db.gtags, f);
    OfAbsent(db.grtags, f);
  }

  lemma StraysWithoutOwner(db: Db, fs: Tree, since: int, walk: seq<Entry>, p: Path)
    requires Valid(db.index) && NoStray(db) && WalkOf(fs, walk) && Once(walk) && p in db.index.fids
    requires forall q :: q in Inspect(db.index, fs, since, walk).add ==> q in fs
    requires NoStray(Execute(db, fs, Inspect(db.index, fs, since, walk)))
    ensures OwnedAt(db, fs, since, walk, p)
  {
    var d, f := Execute(db, fs, Inspect(db.index, fs, since, walk)), db.index.fids[p].fid;
    if db.index.fids[p].kind == Other {
      OtherTags(db, fs, since, walk, p);
      if f in d.index.paths {
        UpdatedIndex(db, fs, since, walk, d.index.paths[f].path);
      }
      UpdatedIndex(db, fs, since, walk, p);
      OfAbsent(d.gtags, f);
      OfAbsent(d.grtags, f);
    }
  }

  lemma NoticedIsOwned(db: Db, fs: Tree, since: int, walk: seq<Entry>)
    requires WalkOf(fs, walk) && Once(walk) && Noticed(db, fs, since, walk)
    ensures Owned(db, fs, since, walk)
  {
    forall p | p in db.index.fids ensures OwnedAt(db, fs, since, walk, p) {
      InWalkMeans(fs, walk, p);
      assert InWalk(fs, walk, p) ==> NoticedAt(db, fs, since, walk, p);
    }
  }

  lemma NoticedSuffices(db: Db, fs: Tree, since: int, walk: seq<Entry>)
    requires Valid(db.index) && NoStray(db) && WalkOf(fs, walk) && Once(walk)
    requires Noticed(db, fs, since, walk)
    ensures forall q :: q in Inspect(db.index, fs, since, walk).add ==> q in fs
    ensures Describes(Execute(db, fs, Inspect(db.index, fs, since, walk)), TreeView(db.compact, fs, walk))
  {
    UpdatedNoStray(db, fs, since, walk);
    NoticedIsOwned(db, fs, since, walk);
    var d, view := Execute(db, fs, Inspect(db.index, fs, since, walk)), TreeView(db.compact, fs, walk);
    forall p
      ensures p in d.index.fids <==> p in view
      ensures p in view ==> InfoAt(d, p) == view[p]
      ensures Valid(d.index)
    {
      UpdatedIndex(db, fs, since, walk, p);
      if InWalk(fs, walk, p) {
        NoticedIsRight(db, fs, since, walk, p);
      }
    }
  }

  lemma NoticedIsRight(db: Db, fs: Tree, since: int, walk: seq<Entry>, p: Path)
    requires Valid(db.index) && NoStray(db) && WalkOf(fs, walk) && Once(walk) && InWalk(fs, walk, p)
    requires p in db.index.fids ==> NoticedAt(db, fs, since, walk, p)
    ensures forall q :: q in Inspect(db.index, fs, since, walk).add ==> q in fs
    ensures var d := Execute(db, fs, Inspect(db.index, fs, since, walk));
            p in d.index.fids && InfoAt(d, p) == TreeView(db.compact, fs, walk)[p]
  {
    UpdatedIndex(db, fs, since, walk, p);
    UpdatedRecords(db, fs, since, walk, p);
    InWalkMeans(fs, walk, p);
  }

  lemma NoticedIsNeeded(db: Db, fs: Tree, since: int, walk: seq<Entry>)
    requires Valid(db.index) && NoStray(db) && WalkOf(fs, walk) && Once(walk)
    requires forall q :: q in Inspect(db.index, fs, since, walk).add ==> q in fs
    requires Describes(Execute(db, fs, Inspect(db.index, fs, since, walk)), TreeView(db.compact, fs, walk))
    ensures Noticed(db, fs, since, walk)
  {
    var d, view := Execute(db, fs, Inspect(db.index, fs, since, walk)), TreeView(db.compact, fs, walk);
    forall p | p in db.index.fids && InWalk(fs, walk, p) ensures NoticedAt(db, fs, since, walk, p) {
      UpdatedIndex(db, fs, since, walk, p);
      UpdatedRecords(db, fs, since, walk, p);
      InWalkMeans(fs, walk, p);
      assert p in view && InfoAt(d, p) == view[p];
    }
  }

  // ----- incremental equals rebuild -----

  lemma IdleChangesNothing(db: Db, fs: Tree)
    ensures Execute(db, fs, Plan([], [], {}, [])) == db
  {
    KeepNothingDead(db.gtags);
    KeepNothingDead(db.grtags);
  }

  lemma UpdateIsExecute(db: Db, fs: Tree, since: int, walk: seq<Entry>)
    requires Valid(db.index) && WalkOf(fs, walk)
    ensures var plan := Inspect(db.index, fs, since, walk);
            (forall q :: q in plan.add ==> q in fs) && Update(db, fs, since, walk).0 == Execute(db, fs, plan)
  {
    PlanIsSound(db.index, fs, since, walk);
    IdleChangesNothing(db, fs);
  }

  /** Without stray records: exactly when every change is noticed. */
  lemma CleanUpdateMatches(db: Db, fs: Tree, since: int, walk: seq<Entry>)
    requires Valid(db.index) && NoStray(db) && WalkOf(fs, walk) && Once(walk)
    ensures Equivalent(Update(db, fs, since, walk).0, Create(db.compact, fs, walk)) <==> Noticed(db, fs, since, walk)
  {
    UpdateIsExecute(db, fs, since, walk);
    CreateDescribes(db.compact, fs, walk);
    if Noticed(db, fs, since, walk) {
      NoticedSuffices(db, fs, since, walk);
    }
    if Equivalent(Update(db, fs, since, walk).0, Create(db.compact, fs, walk)) {
      NoticedIsNeeded(db, fs, since, walk);
    }
  }

  // ----- the ids of an update -----

  /** An id names one path for ever: what it names now it named before, or it was
      never handed out before. */
  ghost predicate IdsKept(x: Index, y: Index) {
    x.next <= y.next && forall i :: i in y.paths && i < x.next ==> i in x.paths && y.paths[i] == x.paths[i]
  }

  lemma PutAllKeepsIds(x: Index, ps: seq<Path>, k: Kind)
    requires Valid(x)
    ensures Valid(PutAll(x, ps, k)) && IdsKept(x, PutAll(x, ps, k))
  {
    PutAllIs(x, ps, k);
  }

  lemma RemoveAllKeepsIds(x: Index, ps: seq<Path>)
    requires Valid(x)
    ensures Valid(RemoveAll(x, ps)) && IdsKept(x, RemoveAll(x, ps))
  {
    RemoveAllIs(x, ps);
  }

  lemma UpdateKeepsIds(db: Db, fs: Tree, since: int, walk: seq<Entry>)
    requires Valid(db.index) && WalkOf(fs, walk)
    ensures var y := Update(db, fs, since, walk).0.index; Valid(y) && IdsKept(db.index, y)
  {
    UpdateIsExecute(db, fs, since, walk);
    var x, plan := db.index, Inspect(db.index, fs, since, walk);
    AddFilesIndex(Kept(db, plan.dead), fs, plan.add);
    IndexKeepsIds(x, plan.add, plan.del, plan.other);
  }

  lemma IndexKeepsIds(x: Index, add: seq<Path>, del: seq<Path>, other: seq<Path>)
    requires Valid(x)
    ensures var y := UpdateIndex(PutAll(x, add, Source), del, other); Valid(y) && IdsKept(x, y)
  {
    var z := PutAll(x, add, Source);
    PutAllKeepsIds(x, add, Source);
    RemoveAllKeepsIds(z, del);
    PutAllKeepsIds(RemoveAll(z, del), other, Other);
  }

  // ----- stray records -----

  /** Every record carries an id that has been handed out. */
  ghost predicate Handed(db: Db) {
    forall r :: r in db.gtags || r in db.grtags ==> r.fid < db.index.next
  }

  /** The record has no live source path. */
  predicate Strays(x: Index, r: Record) {
    !(r.fid in x.paths && x.paths[r.fid].kind == Source)
  }

  lemma {:induction false} AddFilesKeep(db: Db, fs: Tree, ps: seq<Path>, r: Record)
    requires forall p :: p in ps ==> p in fs
    ensures var d := AddFiles(db, fs, ps); (r in db.gtags ==> r in d.gtags) && (r in db.grtags ==> r in d.grtags)
    decreases |ps|
  {
    if |ps| > 0 {
      AddFilesKeep(db, fs, ps[..|ps| - 1], r);
    }
  }

  lemma RecordStays(db: Db, fs: Tree, dead: set<nat>, add: seq<Path>, r: Record)
    requires (r in db.gtags || r in db.grtags) && r.fid !in dead && forall p :: p in add ==> p in fs
    ensures var d := UpdateTags(db, fs, dead, add); r in d.gtags || r in d.grtags
  {
    OfKeep(db.gtags, dead, r.fid);
    OfKeep(db.grtags, dead, r.fid);
    AddFilesKeep(Kept(db, dead), fs, add, r);
  }

  /** Records are deleted for known paths only, and for one that is no source only if
      it is read again. */
  lemma DeadIsKnown(x: Index, fs: Tree, since: int, walk: seq<Entry>, f: nat)
    requires Valid(x) && WalkOf(fs, walk) && f in Inspect(x, fs, since, walk).dead
    ensures f in x.paths
    ensures x.paths[f].kind == Other ==> Entry(x.paths[f].path, false) in walk && since < fs[x.paths[f].path].mtime
  {
    assert f in x.paths;
    PlanAt(x, fs, since, walk, x.paths[f].path);
  }

  lemma KnownAsOther(db: Db, fs: Tree, since: int, walk: seq<Entry>, p: Path)
    requires Valid(db.index) && WalkOf(fs, walk) && Once(walk)
    requires p in db.index.fids && db.index.fids[p].kind == Other && Entry(p, false) in walk
    ensures forall q :: q in Inspect(db.index, fs, since, walk).add ==> q in fs
    ensures !Describes(Execute(db, fs, Inspect(db.index, fs, since, walk)), TreeView(db.compact, fs, walk))
  {
    UpdatedIndex(db, fs, since, walk, p);
    InWalkMeans(fs, walk, p);
    assert p in TreeView(db.compact, fs, walk);
  }

  /** A stray record is there after an update, or the update has read as a source what
      the index takes for none. */
  lemma StrayShows(db: Db, fs: Tree, since: int, walk: seq<Entry>, r: Record)
    requires Valid(db.index) && WalkOf(fs, walk) && Once(walk)
    requires (r in db.gtags || r in db.grtags) && r.fid < db.index.next && Strays(db.index, r)
    ensures forall q :: q in Inspect(db.index, fs, since, walk).add ==> q in fs
    ensures !Describes(Execute(db, fs, Inspect(db.index, fs, since, walk)), TreeView(db.compact, fs, walk))
  {
    var plan := Inspect(db.index, fs, since, walk);
    UpdateIsExecute(db, fs, since, walk);
    if r.fid in plan.dead {
      DeadIsKnown(db.index, fs, since, walk, r.fid);
      KnownAsOther(db, fs, since, walk, db.index.paths[r.fid].path);
    } else {
      RecordStays(db, fs, plan.dead, plan.add, r);
      UpdateKeepsIds(db, fs, since, walk);
      assert Strays(Execute(db, fs, plan).index, r);
    }
  }

  lemma StraysShow(db: Db, fs: Tree, since: int, walk: seq<Entry>)
    requires Valid(db.index) && Handed(db) && !NoStray(db) && WalkOf(fs, walk) && Once(walk)
    ensures !Equivalent(Update(db, fs, since, walk).0, Create(db.compact, fs, walk))
  {
    UpdateIsExecute(db, fs, since, walk);
    CreateDescribes(db.compact, fs, walk);
    var r :| (r in db.gtags || r in db.grtags) && !(r.fid in db.index.paths && db.index.paths[r.fid].kind == Source);
    StrayShows(db, fs, since, walk, r);
  }

  /** The update leaves the database a rebuild would make, up to the choice of file ids,
      exactly when no record strays and every change is one that it can notice. */
  lemma UpdateMatchesRebuild(db: Db, fs: Tree, since: int, walk: seq<Entry>)
    requires Valid(db.index) && Handed(db) && WalkOf(fs, walk) && Once(walk)
    ensures Equivalent(Update(db, fs, since, walk).0, Create(db.compact, fs, walk))
       <==> NoStray(db) && Noticed(db, fs, since, walk)
  {
    if NoStray(db) {
      CleanUpdateMatches(db, fs, since, walk);
    } else {
      StraysShow(db, fs, since, walk);
    }
  }

  /** The tags recorded under an id. */
  function RecordsOf(db: Db, f: nat): Info {
    SourceInfo(Of(db.gtags, f), Of(db.grtags, f))
  }

  lemma RecordsStay(db: Db, fs: Tree, dead: set<nat>, add: seq<Path>, f: nat)
    requires Valid(db.index) && NoRepeat(add) && forall p :: p in add ==> p in fs
    requires f !in dead && !IdAmong(PutAll(db.index, add, Source), add, f)
    ensures RecordsOf(UpdateTags(db, fs, dead, add), f) == RecordsOf(db, f)
  {
    AddFilesIndex(Kept(db, dead), fs, add);
    AddFilesRecords(Kept(db, dead), fs, add, f);
    OfKeep(db.gtags, dead, f);
    OfKeep(db.grtags, dead, f);
    PlusNothing(Of(db.gtags, f));
    PlusNothing(Of(db.grtags, f));
  }

  /** An id that was handed out and names no path. */
  ghost predicate Unnamed(x: Index, f: nat) {
    f < x.next && f !in x.paths
  }

  /** A path that is known as no source and leaves the walk goes from the index; the
      records under its id stay, and the id names no path. */
  lemma AbandonsRecords(db: Db, fs: Tree, since: int, walk: seq<Entry>, p: Path)
    requires Valid(db.index) && WalkOf(fs, walk) && Once(walk)
    requires p in db.index.fids && db.index.fids[p].kind == Other && !InWalk(fs, walk, p)
    ensures var d, f := Update(db, fs, since, walk).0, db.index.fids[p].fid;
            && p !in d.index.fids && Unnamed(d.index, f) && RecordsOf(d, f) == RecordsOf(db, f)
  {
    var plan, f := Inspect(db.index, fs, since, walk), db.index.fids[p].fid;
    UpdateIsExecute(db, fs, since, walk);
    UpdateKeepsIds(db, fs, since, walk);
    UpdatedIndex(db, fs, since, walk, p);
    PlanIsSound(db.index, fs, since, walk);
    PlanAt(db.index, fs, since, walk, p);
    InWalkMeans(fs, walk, p);
    RecordsStay(db, fs, plan.dead, plan.add, f);
  }

  /** The records under such an id stay, whatever the update does. */
  lemma UnnamedStays(db: Db, fs: Tree, since: int, walk: seq<Entry>, f: nat)
    requires Valid(db.index) && WalkOf(fs, walk) && Once(walk) && Unnamed(db.index, f)
    ensures var d := Update(db, fs, since, walk).0;
            Unnamed(d.index, f) && RecordsOf(d, f) == RecordsOf(db, f)
  {
    var plan := Inspect(db.index, fs, since, walk);
    UpdateIsExecute(db, fs, since, walk);
    UpdateKeepsIds(db, fs, since, walk);
    PlanIsSound(db.index, fs, since, walk);
    if f in plan.dead {
      DeadIsKnown(db.index, fs, since, walk, f);
    }
    PutAllKeepsIds(db.index, plan.add, Source);
    RecordsStay(db, fs, plan.dead, plan.add, f);
  }

  lemma TagsKeepHanded(db: Db, fs: Tree, dead: set<nat>, add: seq<Path>)
    requires Valid(db.index) && Handed(db) && NoRepeat(add) && forall p :: p in add ==> p in fs
    ensures Handed(UpdateTags(db, fs, dead, add))
  {
    var d := UpdateTags(db, fs, dead, add);
    AddFilesIndex(Kept(db, dead), fs, add);
    PutAllIs(db.index, add, Source);
    forall r | r in d.gtags || r in d.grtags ensures r.fid < d.index.next {
      AddFilesFids(Kept(db, dead), fs, add, r);
      OfKeep(db.gtags, dead, r.fid);
      OfKeep(db.grtags, dead, r.fid);
    }
  }

  lemma UpdateKeepsHanded(db: Db, fs: Tree, since: int, walk: seq<Entry>)
    requires Valid(db.index) && Handed(db) && WalkOf(fs, walk) && Once(walk)
    ensures Handed(Update(db, fs, since, walk).0)
  {
    var plan := Inspect(db.index, fs, since, walk);
    UpdateIsExecute(db, fs, since, walk);
    PlanIsSound(db.index, fs, since, walk);
    TagsKeepHanded(db, fs, plan.dead, plan.add);
    AddFilesIndex(Kept(db, plan.dead), fs, plan.add);
    var z := PutAll(db.index, plan.add, Source);
    RemoveAllIs(z, plan.del);
    PutAllIs(RemoveAll(z, plan.del), plan.other, Other);
  }

  /** An update with nothing to notice returns false and leaves the database as it is. */
  lemma QuietUpdate(db: Db, fs: Tree, since: int, walk: seq<Entry>)
    requires Valid(db.index) && WalkOf(fs, walk) && Once(walk)
    requires forall p :: p in db.index.fids <==> InWalk(fs, walk, p)
    requires forall p :: p in db.index.fids ==> (db.index.fids[p].kind == Source <==> Entry(p, false) in walk)
    ensures (forall p :: Entry(p, false) in walk ==> fs[p].mtime <= since) <==> !Update(db, fs, since, walk).1
    ensures !Update(db, fs, since, walk).1 ==> Update(db, fs, since, walk).0 == db
  {
    var plan := Inspect(db.index, fs, since, walk);
    forall p
      ensures p !in plan.other && p !in plan.del
      ensures p in plan.add <==> Entry(p, false) in walk && since < fs[p].mtime
      ensures p in db.index.fids ==> (db.index.fids[p].fid in plan.dead <==> p in plan.add)
    {
      PlanAt(db.index, fs, since, walk, p);
      InWalkMeans(fs, walk, p);
    }
    if plan.add != [] { assert plan.add[0] in plan.add; }
    if f :| f in plan.dead { assert f in db.index.paths; }
  }

  /** Only path p may differ from what is indexed. */
  ghost predicate OnlyDiffers(db: Db, fs: Tree, walk: seq<Entry>, p: Path)
    requires WalkOf(fs, walk)
  {
    var view := TreeView(db.compact, fs, walk);
    && Entry(p, false) in walk && db.index.fids.Keys == view.Keys
    && forall q :: q in view && q != p ==> InfoAt(db, q) == view[q]
  }

  /** Without stray records: exactly when nothing else differs. */
  lemma CleanSingleMatches(db: Db, fs: Tree, since: int, walk: seq<Entry>, p: Path)
    requires Valid(db.index) && NoStray(db) && WalkOf(fs, walk) && Once(walk)
    requires p in fs && p in db.index.fids && db.index.fids[p].kind == Source
    ensures Equivalent(SingleUpdate(db, fs, since, walk, p).0, Create(db.compact, fs, walk)) <==> OnlyDiffers(db, fs, walk, p)
    ensures OnlyDiffers(db, fs, walk, p) && Noticed(db, fs, since, walk) ==>
              Equivalent(SingleUpdate(db, fs, since, walk, p).0, Update(db, fs, since, walk).0)
  {
    var d := SingleUpdate(db, fs, since, walk, p).0;
    var view := TreeView(db.compact, fs, walk);
    CreateDescribes(db.compact, fs, walk);
    CleanUpdateMatches(db, fs, since, walk);
    SingleUpdateIs(db, fs, since, walk, p);
    InWalkMeans(fs, walk, p);
    assert Equivalent(d, Create(db.compact, fs, walk)) <==> Describes(d, view);
    SingleDescribes(db, d, fs, walk, p);
  }

  /** The databases after the update of the known source p alone. */
  function Renewed(db: Db, fs: Tree, p: Path): Db
    requires p in fs && p in db.index.fids
  {
    UpdateTags(db, fs, {db.index.fids[p].fid}, [p])
  }

  lemma RenewedIndex(db: Db, fs: Tree, p: Path)
    requires Valid(db.index) && p in fs && p in db.index.fids
    ensures Renewed(db, fs, p).index == PutAll(db.index, [p], Source) == db.index
    ensures Renewed(db, fs, p).compact == db.compact
  {
    assert [p][..0] == [];
    AddFilesIndex(Kept(db, {db.index.fids[p].fid}), fs, [p]);
  }

  /** A stray record is there after the update of a single source. */
  lemma SingleLeavesStrays(db: Db, fs: Tree, p: Path)
    requires Valid(db.index) && p in fs && p in db.index.fids && db.index.fids[p].kind == Source && !NoStray(db)
    ensures !NoStray(Renewed(db, fs, p))
  {
    var r :| (r in db.gtags || r in db.grtags) && !(r.fid in db.index.paths && db.index.paths[r.fid].kind == Source);
    RecordStays(db, fs, {db.index.fids[p].fid}, [p], r);
    RenewedIndex(db, fs, p);
  }

  /** --single-update of a known source file matches the rebuild exactly when no record
      strays and that file is the only one that differs. */
  lemma SingleUpdateMatchesRebuild(db: Db, fs: Tree, since: int, walk: seq<Entry>, p: Path)
    requires Valid(db.index) && WalkOf(fs, walk) && Once(walk)
    requires p in fs && p in db.index.fids && db.index.fids[p].kind == Source
    ensures Equivalent(SingleUpdate(db, fs, since, walk, p).0, Create(db.compact, fs, walk))
       <==> NoStray(db) && OnlyDiffers(db, fs, walk, p)
    ensures NoStray(db) && OnlyDiffers(db, fs, walk, p) && Noticed(db, fs, since, walk) ==>
              Equivalent(SingleUpdate(db, fs, since, walk, p).0, Update(db, fs, since, walk).0)
  {
    if NoStray(db) {
      CleanSingleMatches(db, fs, since, walk, p);
    } else {
      SingleLeavesStrays(db, fs, p);
    }
  }

  /** --single-update of a path that is not known looks at the whole walk: it matches the
      rebuild exactly when a whole update does, and a source of the walk is known afterwards. */
  lemma SingleOfUnknown(db: Db, fs: Tree, since: int, walk: seq<Entry>, p: Path)
    requires Valid(db.index) && Handed(db) && WalkOf(fs, walk) && Once(walk) && p in fs && p !in db.index.fids
    ensures Equivalent(SingleUpdate(db, fs, since, walk, p).0, Create(db.compact, fs, walk))
       <==> NoStray(db) && Noticed(db, fs, since, walk)
    ensures Entry(p, false) in walk ==>
              SingleUpdate(db, fs, since, walk, p).1 && p in SingleUpdate(db, fs, since, walk, p).0.index.fids
  {
    UpdateMatchesRebuild(db, fs, since, walk);
    UpdateIsExecute(db, fs, since, walk);
    PlanAt(db.index, fs, since, walk, p);
    UpdatedIndex(db, fs, since, walk, p);
    InWalkMeans(fs, walk, p);
  }

  /** After the update of p, the database describes the tree exactly if nothing but p differed. */
  lemma SingleDescribes(db: Db, d: Db, fs: Tree, walk: seq<Entry>, p: Path)
    requires WalkOf(fs, walk) && Once(walk) && p in fs && d.index == db.index && NoStray(d)
    requires Valid(db.index) && p in db.index.fids && db.index.fids[p].kind == Source
    requires InfoAt(d, p) == FileInfo(db.compact, fs[p])
    requires forall q :: q in db.index.fids && q != p ==> InfoAt(d, q) == InfoAt(db, q)
    ensures Describes(d, TreeView(db.compact, fs, walk)) <==> OnlyDiffers(db, fs, walk, p)
  {
    InWalkMeans(fs, walk, p);
  }

  lemma RenewedInfo(db: Db, fs: Tree, p: Path, q: Path)
    requires Valid(db.index) && NoStray(db) && p in fs && p in db.index.fids && db.index.fids[p].kind == Source
    requires Renewed(db, fs, p).index == db.index && q in db.index.fids
    ensures InfoAt(Renewed(db, fs, p), q) == if q == p then FileInfo(db.compact, fs[p]) else InfoAt(db, q)
  {
    TagsUpdated(db, fs, {db.index.fids[p].fid}, [p], q);
  }

  lemma RenewedOwner(db: Db, fs: Tree, p: Path, r: Record)
    requires Valid(db.index) && NoStray(db) && p in fs && p in db.index.fids && db.index.fids[p].kind == Source
    requires var d := Renewed(db, fs, p); d.index == db.index && (r in d.gtags || r in d.grtags)
    ensures r.fid in db.index.paths && db.index.paths[r.fid].kind == Source
  {
    var dead := {db.index.fids[p].fid};
    AddFilesFids(Kept(db, dead), fs, [p], r);
    OfKeep(db.gtags, dead, r.fid);
    OfKeep(db.grtags, dead, r.fid);
  }

  lemma SingleUpdateIs(db: Db, fs: Tree, since: int, walk: seq<Entry>, p: Path)
    requires Valid(db.index) && NoStray(db) && WalkOf(fs, walk)
    requires p in fs && p in db.index.fids && db.index.fids[p].kind == Source
    ensures var d := SingleUpdate(db, fs, since, walk, p).0;
            && d.index == db.index && d.compact == db.compact && NoStray(d)
            && InfoAt(d, p) == FileInfo(db.compact, fs[p])
            && forall q :: q in db.index.fids && q != p ==> InfoAt(d, q) == InfoAt(db, q)
  {
    RenewedIndex(db, fs, p);
    var d := Renewed(db, fs, p);
    forall q | q in db.index.fids
      ensures InfoAt(d, q) == if q == p then FileInfo(db.compact, fs[p]) else InfoAt(db, q)
    {
      RenewedInfo(db, fs, p, q);
    }
    forall r | r in d.gtags || r in d.grtags ensures r.fid in d.index.paths && d.index.paths[r.fid].kind == Source {
      RenewedOwner(db, fs, p, r);
    }
  }

  // ----- the single update against the whole one -----

  /** The walk finds neither more nor fewer paths than the index will keep. */
  ghost predicate Unmoved(db: Db, fs: Tree, walk: seq<Entry>)
    requires WalkOf(fs, walk)
  {
    forall q :: q in db.index.fids <==>
      InWalk(fs, walk, q) && !(q in db.index.fids && db.index.fids[q].kind == Other && fs[q].binary)
  }

  /** A walk reads the known source q again. */
  ghost predicate Reread(db: Db, fs: Tree, since: int, walk: seq<Entry>, q: Path)
    requires WalkOf(fs, walk) && q in db.index.fids
  {
    db.index.fids[q].kind == Source && Entry(q, false) in walk && since < fs[q].mtime
  }

  ghost predicate Current(db: Db, fs: Tree, q: Path)
    requires q in db.index.fids && q in fs
  {
    InfoAt(db, q) == FileInfo(db.compact, fs[q])
  }

  /** The whole update leaves the tags of q as they are; but it does not leave p behind. */
  ghost predicate Untouched(db: Db, fs: Tree, since: int, walk: seq<Entry>, p: Path, q: Path)
    requires WalkOf(fs, walk) && p in fs && q in db.index.fids
  {
    if q == p then Reread(db, fs, since, walk, q) || Current(db, fs, q)
    else Reread(db, fs, since, walk, q) ==> Current(db, fs, q)
  }

  /** The whole update adds, drops and changes nothing but p. */
  ghost predicate OnlyTouches(db: Db, fs: Tree, since: int, walk: seq<Entry>, p: Path)
    requires WalkOf(fs, walk) && p in fs
  {
    && Owned(db, fs, since, walk) && Unmoved(db, fs, walk)
    && forall q :: q in db.index.fids ==> Untouched(db, fs, since, walk, p, q)
  }

  lemma WholeAt(db: Db, fs: Tree, since: int, walk: seq<Entry>, q: Path)
    requires Valid(db.index) && NoStray(db) && WalkOf(fs, walk) && Once(walk) && q in db.index.fids
    ensures forall r :: r in Inspect(db.index, fs, since, walk).add ==> r in fs
    ensures var d := Execute(db, fs, Inspect(db.index, fs, since, walk));
            && Valid(d.index)
            && (q in d.index.fids ==>
                  InfoAt(d, q) == if Reread(db, fs, since, walk, q) then FileInfo(db.compact, fs[q]) else InfoAt(db, q))
  {
    UpdatedIndex(db, fs, since, walk, q);
    UpdatedRecords(db, fs, since, walk, q);
  }

  /** Without stray records: exactly when the whole update would touch nothing else. */
  lemma CleanSingleMatchesUpdate(db: Db, fs: Tree, since: int, walk: seq<Entry>, p: Path)
    requires Valid(db.index) && NoStray(db) && WalkOf(fs, walk) && Once(walk)
    requires p in fs && p in db.index.fids && db.index.fids[p].kind == Source
    ensures Equivalent(SingleUpdate(db, fs, since, walk, p).0, Update(db, fs, since, walk).0)
       <==> OnlyTouches(db, fs, since, walk, p)
  {
    UpdateIsExecute(db, fs, since, walk);
    var s, d := SingleUpdate(db, fs, since, walk, p).0, Execute(db, fs, Inspect(db.index, fs, since, walk));
    SingleUpdateIs(db, fs, since, walk, p);
    UpdatedNoStray(db, fs, since, walk);
    UpdatedKeys(db, fs, since, walk);
    WholeAt(db, fs, since, walk, p);
    forall q | q in db.index.fids && q in d.index.fids
      ensures InfoAt(s, q) == InfoAt(d, q) <==> Untouched(db, fs, since, walk, p, q)
    {
      UntouchedAt(db, s, d, fs, since, walk, p, q);
    }
    SameAsWhole(db, s, d, fs, since, walk, p);
  }

  /** --single-update of a known source gives what the whole update gives exactly when no
      record strays and the whole update would touch nothing else. */
  lemma SingleUpdateMatchesUpdate(db: Db, fs: Tree, since: int, walk: seq<Entry>, p: Path)
    requires Valid(db.index) && WalkOf(fs, walk) && Once(walk)
    requires p in fs && p in db.index.fids && db.index.fids[p].kind == Source
    ensures Equivalent(SingleUpdate(db, fs, since, walk, p).0, Update(db, fs, since, walk).0)
       <==> NoStray(db) && OnlyTouches(db, fs, since, walk, p)
  {
    if NoStray(db) {
      CleanSingleMatchesUpdate(db, fs, since, walk, p);
    } else {
      SingleLeavesStrays(db, fs, p);
    }
  }

  lemma UntouchedAt(db: Db, s: Db, d: Db, fs: Tree, since: int, walk: seq<Entry>, p: Path, q: Path)
    requires Valid(db.index) && NoStray(db) && WalkOf(fs, walk) && Once(walk) && p in fs
    requires p in db.index.fids && db.index.fids[p].kind == Source && q in db.index.fids
    requires forall r :: r in Inspect(db.index, fs, since, walk).add ==> r in fs
    requires s == SingleUpdate(db, fs, since, walk, p).0 && d == Execute(db, fs, Inspect(db.index, fs, since, walk))
    requires q in d.index.fids
    ensures q in s.index.fids && (InfoAt(s, q) == InfoAt(d, q) <==> Untouched(db, fs, since, walk, p, q))
  {
    WholeAt(db, fs, since, walk, q);
    SingleUpdateIs(db, fs, since, walk, p);
  }

  lemma SameAsWhole(db: Db, s: Db, d: Db, fs: Tree, since: int, walk: seq<Entry>, p: Path)
    requires Valid(db.index) && s.index == db.index && NoStray(s) && Valid(d.index) && WalkOf(fs, walk) && p in fs
    requires NoStray(d) <==> Owned(db, fs, since, walk)
    requires d.index.fids.Keys == db.index.fids.Keys <==> Unmoved(db, fs, walk)
    requires forall q :: q in db.index.fids && q in d.index.fids ==>
               (InfoAt(s, q) == InfoAt(d, q) <==> Untouched(db, fs, since, walk, p, q))
    ensures Equivalent(s, d) <==> OnlyTouches(db, fs, since, walk, p)
  {
  }

  lemma UpdatedKeys(db: Db, fs: Tree, since: int, walk: seq<Entry>)
    requires Valid(db.index) && WalkOf(fs, walk) && Once(walk)
    ensures forall q :: q in Inspect(db.index, fs, since, walk).add ==> q in fs
    ensures Execute(db, fs, Inspect(db.index, fs, since, walk)).index.fids.Keys == db.index.fids.Keys
       <==> Unmoved(db, fs, walk)
  {
    PlanIsSound(db.index, fs, since, walk);
    var y := Execute(db, fs, Inspect(db.index, fs, since, walk)).index;
    forall q
      ensures q in y.fids <==>
                InWalk(fs, walk, q) && !(q in db.index.fids && db.index.fids[q].kind == Other && fs[q].binary)
    {
      UpdatedIndex(db, fs, since, walk, q);
    }
    if y.fids.Keys == db.index.fids.Keys {
      assert forall q :: q in y.fids.Keys <==> q in db.index.fids.Keys;
    }
  }
}
