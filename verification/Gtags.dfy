/** The databases as gtags changes them in place: GPATH, GTAGS and GRTAGS, and the
    two ways of bringing them up to date. */
module Gtags {
  import opened TagIndex
  import opened Inc = Incremental
  import TagRecords

  datatype Option<T> = None | Some(value: T)

  /** GPATH opened for writing. */
  class PathIndex {
    var fids: map<Path, Id>
    var paths: map<nat, Name>
    var nextKey: nat

    function Value(): Index
      reads this
    {
      Index(fids, paths, nextKey)
    }

    constructor ()
      ensures Value() == Empty
    {
      fids, paths, nextKey := map[], map[], 1;
    }

    method Put(p: Path, k: Kind)
      modifies this
      ensures Value() == TagIndex.Put(old(Value()), p, k)
    {
      if p in fids {
        return;
      }
      var fid := nextKey;
      nextKey := nextKey + 1;
      fids := fids[p := Id(fid, k)];
      paths := paths[fid := Name(p, k)];
    }

    method Delete(p: Path)
      modifies this
      ensures Value() == TagIndex.Remove(old(Value()), p)
    {
      if p !in fids {
        return;
      }
      paths := paths - {fids[p].fid};
      fids := fids - {p};
    }
  }

  /** GTAGS or GRTAGS opened for writing; the pool serves the compact format. */
  class TagFile {
    const compact: bool
    var records: seq<Record>
    var pool: seq<TagLine>

    constructor (compact: bool)
      ensures this.compact == compact && records == [] && pool == []
    {
      this.compact := compact;
      records, pool := [], [];
    }

    method PutUsing(tag: TagLine, fid: nat)
      modifies this
      ensures compact ==> records == old(records) && pool == old(pool) + [tag]
      ensures !compact ==> records == old(records) + [Record(fid, tag)] && pool == old(pool)
    {
      if compact {
        pool := pool + [tag];
      } else {
        records := records + [Record(fid, tag)];
      }
    }

    method Flush(fid: nat)
      modifies this
      ensures pool == if compact then [] else old(pool)
      ensures records == old(records) + if compact then Stamp(fid, Distinct(old(pool))) else []
    {
      if compact {
        records := records + Stamp(fid, Distinct(pool));
        pool := [];
      }
    }

    method Delete(dead: set<nat>)
      modifies this
      ensures records == Keep(old(records), dead) && pool == old(pool)
    {
      var kept, i := [], 0;
      while i < |records|
        invariant 0 <= i <= |records| && kept == Keep(records[..i], dead)
        invariant records == old(records) && pool == old(pool)
      {
        assert records[..i + 1][..i] == records[..i];
        if records[i].fid !in dead {
          kept := kept + [records[i]];
        }
        i := i + 1;
      }
      assert records[..i] == records;
      records := kept;
    }
  }

  function TagOf(s: Symbol, kind: SymbolKind): seq<TagLine> {
    if s.kind == kind then [TagLine(s.name, s.line, s.image)] else []
  }

  lemma TagsOneMore(symbols: seq<Symbol>, i: nat, kind: SymbolKind)
    requires i < |symbols|
    ensures TagsOf(symbols[..i + 1], kind) == TagsOf(symbols[..i], kind) + TagOf(symbols[i], kind)
  {
    assert symbols[..i + 1][..i] == symbols[..i];
  }

  lemma StampMore(fid: nat, a: seq<TagLine>, b: seq<TagLine>)
    ensures Stamp(fid, a + b) == Stamp(fid, a) + Stamp(fid, b)
  {
  }

  lemma Assoc(a: seq<Record>, b: seq<Record>, c: seq<Record>)
    ensures a + b + c == a + (b + c)
  {
  }

  /** A run of the update reads a known source that it is given alone, or else the sources
      of the walk that are new or modified. */
  predicate Reads(x: Index, fs: Tree, since: int, walk: seq<Entry>, single: Option<Path>, p: Path)
    requires WalkOf(fs, walk)
  {
    && (p in x.fids ==> x.fids[p].kind == Source)
    && if single.Some? && single.value in x.fids then p == single.value
       else TagRecords.IsRead(x, fs, since, walk, p)
  }

  /** The files that are read have the records of their symbols afterwards. */
  ghost predicate Renews(db: Db, d: Db, fs: Tree, since: int, walk: seq<Entry>, single: Option<Path>)
    requires WalkOf(fs, walk)
  {
    forall p {:trigger Reads(db.index, fs, since, walk, single, p)} ::
      p in fs && Reads(db.index, fs, since, walk, single, p) ==> TagRecords.IndexedAs(d, p, fs[p].symbols)
  }

  lemma RenewsFiles(db: Db, fs: Tree, since: int, walk: seq<Entry>, single: Option<Path>)
    requires Valid(db.index) && Handed(db) && WalkOf(fs, walk) && Once(walk) && (single.Some? ==> single.value in fs)
    ensures var d := if single.Some? then SingleUpdate(db, fs, since, walk, single.value).0
                     else Inc.Update(db, fs, since, walk).0;
            Renews(db, d, fs, since, walk, single)
  {
    var d := if single.Some? then SingleUpdate(db, fs, since, walk, single.value).0
             else Inc.Update(db, fs, since, walk).0;
    forall p | p in fs && Reads(db.index, fs, since, walk, single, p) ensures TagRecords.IndexedAs(d, p, fs[p].symbols) {
      if single.Some? && single.value in db.index.fids {
        TagRecords.SingleRecords(db, fs, since, walk, p);
      } else {
        TagRecords.ReadRecords(db, fs, since, walk, p);
      }
    }
  }

  class Project {
    const gpath: PathIndex
    const gtags: TagFile
    const grtags: TagFile
    var stamp: int

    predicate Opened()
      reads this, gtags, grtags
    {
      gtags != grtags && grtags.compact && gtags.pool == [] && grtags.pool == []
    }

    function Value(): Db
      reads this, gpath, gtags, grtags
    {
      Db(gpath.Value(), gtags.records, grtags.records, gtags.compact)
    }

    constructor (compact: bool)
      ensures Opened() && Value() == Db(Empty, [], [], compact)
      ensures fresh(gpath) && fresh(gtags) && fresh(grtags)
    {
      gpath := new PathIndex();
      gtags := new TagFile(compact);
      grtags := new TagFile(true);
      stamp := 0;
    }

    /** parse_file with put_syms as the callback, then the two flushes. */
    method ParseFile(symbols: seq<Symbol>, fid: nat)
      requires Opened()
      modifies gtags, grtags
      ensures Opened()
      ensures gtags.records == old(gtags.records) + Stamp(fid, Packed(gtags.compact, TagsOf(symbols, Definition)))
      ensures grtags.records == old(grtags.records) + Stamp(fid, Packed(true, TagsOf(symbols, Reference)))
    {
      ParseSymbols(symbols, fid);
      gtags.Flush(fid);
      assert gtags.records == old(gtags.records) + Stamp(fid, Packed(gtags.compact, TagsOf(symbols, Definition)));
      grtags.Flush(fid);
    }

    /** The calls of put_syms while a file is parsed. */
    method ParseSymbols(symbols: seq<Symbol>, fid: nat)
      requires Opened()
      modifies gtags, grtags
      ensures gtags.compact ==> gtags.pool == TagsOf(symbols, Definition) && gtags.records == old(gtags.records)
      ensures !gtags.compact ==>
                gtags.pool == [] && gtags.records == old(gtags.records) + Stamp(fid, TagsOf(symbols, Definition))
      ensures grtags.pool == TagsOf(symbols, Reference) && grtags.records == old(grtags.records)
    {
      var i := 0;
      while i < |symbols|
        invariant 0 <= i <= |symbols| && gtags != grtags && grtags.compact
        invariant gtags.compact ==> gtags.pool == TagsOf(symbols[..i], Definition) && gtags.records == old(gtags.records)
        invariant !gtags.compact ==>
                    gtags.pool == [] && gtags.records == old(gtags.records) + Stamp(fid, TagsOf(symbols[..i], Definition))
        invariant grtags.pool == TagsOf(symbols[..i], Reference)
        invariant grtags.records == old(grtags.records)
      {
        TagsOneMore(symbols, i, Definition);
        TagsOneMore(symbols, i, Reference);
        StampMore(fid, TagsOf(symbols[..i], Definition), TagOf(symbols[i], Definition));
        Assoc(old(gtags.records), Stamp(fid, TagsOf(symbols[..i], Definition)), Stamp(fid, TagOf(symbols[i], Definition)));
        PutSym(symbols[i], fid);
        i := i + 1;
      }
      assert symbols[..i] == symbols;
    }

    /** put_syms. */
    method PutSym(s: Symbol, fid: nat)
      requires gtags != grtags && grtags.compact
      modifies gtags, grtags
      ensures s.kind == Definition && gtags.compact ==>
                gtags.pool == old(gtags.pool) + [TagLine(s.name, s.line, s.image)] && gtags.records == old(gtags.records)
      ensures s.kind == Definition && !gtags.compact ==>
                && gtags.pool == old(gtags.pool)
                && gtags.records == old(gtags.records) + [Record(fid, TagLine(s.name, s.line, s.image))]
      ensures s.kind != Definition ==> gtags.pool == old(gtags.pool) && gtags.records == old(gtags.records)
      ensures grtags.records == old(grtags.records)
      ensures grtags.pool == old(grtags.pool) + if s.kind == Reference then [TagLine(s.name, s.line, s.image)] else []
    {
      match s.kind {
        case Definition => gtags.PutUsing(TagLine(s.name, s.line, s.image), fid);
        case Reference => grtags.PutUsing(TagLine(s.name, s.line, s.image), fid);
        case Ignored =>
      }
    }

    method ReadFile(p: Path, f: File)
      requires Opened()
      modifies gpath, gtags, grtags
      ensures Opened() && Value() == AddFile(old(Value()), p, f)
    {
      gpath.Put(p, Source);
      var fid := gpath.fids[p].fid;
      ParseFile(f.symbols, fid);
    }

    method UpdateTags(fs: Tree, dead: set<nat>, add: seq<Path>)
      requires Opened() && forall p :: p in add ==> p in fs
      modifies gpath, gtags, grtags
      ensures Opened() && Value() == Inc.UpdateTags(old(Value()), fs, dead, add)
    {
      ghost var db := Kept(Value(), dead);
      DeleteTags(dead);
      var i := 0;
      while i < |add|
        invariant 0 <= i <= |add| && Opened()
        invariant Value() == AddFiles(db, fs, add[..i])
      {
        assert add[..i + 1][..i] == add[..i];
        ReadFile(add[i], fs[add[i]]);
        i := i + 1;
      }
      assert add[..i] == add;
    }

    /** The records of the files in the delete set go first. */
    method DeleteTags(dead: set<nat>)
      requires Opened()
      modifies gtags, grtags
      ensures Opened() && Value() == Kept(old(Value()), dead)
    {
      KeepNothingDead(gtags.records);
      KeepNothingDead(grtags.records);
      if dead != {} {
        gtags.Delete(dead);
        grtags.Delete(dead);
      }
    }

    /** createtags, ended at time now, which the tag files then have. */
    method CreateTags(fs: Tree, walk: seq<Entry>, now: int)
      requires Opened() && WalkOf(fs, walk)
      requires Value() == Db(Empty, [], [], gtags.compact)
      modifies gpath, gtags, grtags, `stamp
      ensures Opened() && Value() == Create(gtags.compact, fs, walk) && stamp == now
      ensures Once(walk) ==> TagRecords.Rebuilt(Value(), fs, walk)
    {
      if Once(walk) {
        TagRecords.RebuiltRecords(gtags.compact, fs, walk);
      }
      CreateLoop(fs, walk);
      stamp := now;
    }

    method CreateLoop(fs: Tree, walk: seq<Entry>)
      requires Opened() && WalkOf(fs, walk)
      requires Value() == Db(Empty, [], [], gtags.compact)
      modifies gpath, gtags, grtags
      ensures Opened() && Value() == Create(gtags.compact, fs, walk)
    {
      var i := 0;
      while i < |walk|
        invariant 0 <= i <= |walk| && Opened()
        invariant Value() == Create(gtags.compact, fs, walk[..i])
      {
        var e := walk[i];
        assert walk[..i + 1][..i] == walk[..i];
        if e.other {
          if !fs[e.path].binary {
            gpath.Put(e.path, Other);
          }
        } else {
          ReadFile(e.path, fs[e.path]);
        }
        i := i + 1;
      }
      assert walk[..i] == walk;
    }

    /** The loop over the walk, and then the loop over the ids. */
    method MakeLists(fs: Tree, walk: seq<Entry>) returns (plan: Plan)
      requires WalkOf(fs, walk)
      ensures plan == Inspect(gpath.Value(), fs, stamp, walk)
    {
      ghost var x := gpath.Value();
      var addlist, addlistOther, deleteset, findset, i := [], [], {}, {}, 0;
      while i < |walk|
        invariant 0 <= i <= |walk|
        invariant addlist == AddList(x, fs, stamp, walk[..i]) && addlistOther == OtherList(x, fs, walk[..i])
        invariant findset == FindSet(x, fs, walk[..i]) && deleteset == ModifiedSet(x, fs, stamp, walk[..i])
      {
        var e := walk[i];
        assert walk[..i + 1] == walk[..i] + [e] && walk[..i + 1][..i] == walk[..i];
        SetsGrow(x, fs, stamp, walk[..i], e);
        if !(e.other && fs[e.path].binary) {
          var known := e.path in gpath.fids;
          if known {
            findset := findset + {gpath.fids[e.path].fid};
          }
          if e.other {
            if !known {
              addlistOther := addlistOther + [e.path];
            }
          } else if !known {
            addlist := addlist + [e.path];
          } else if stamp < fs[e.path].mtime {
            addlist := addlist + [e.path];
            deleteset := deleteset + {gpath.fids[e.path].fid};
          }
        }
        i := i + 1;
      }
      assert walk[..i] == walk;
      var deletelist, gone := MakeDeleteList(fs, findset);
      plan := Plan(addlist, addlistOther, deleteset + gone, deletelist);
    }

    /** The loop over the ids: what the walk has not found is deleted. */
    method MakeDeleteList(fs: Tree, findset: set<nat>) returns (deletelist: seq<Path>, gone: set<nat>)
      ensures var x := gpath.Value();
              deletelist == DeleteList(x, fs, findset, x.next) && gone == GoneSet(x, fs, findset, x.next)
    {
      ghost var x := gpath.Value();
      deletelist, gone := [], {};
      var id := 1;
      while id < gpath.nextKey
        invariant 1 <= id && (id <= gpath.nextKey || id == 1)
        invariant deletelist == DeleteList(x, fs, findset, id)
        invariant gone == GoneSet(x, fs, findset, id)
      {
        if id in gpath.paths {
          var name := gpath.paths[id];
          if name.kind == Other {
            if id !in findset || name.path !in fs || fs[name.path].binary {
              deletelist := deletelist + [name.path];
            }
          } else if id !in findset || name.path !in fs {
            deletelist := deletelist + [name.path];
            gone := gone + {id};
          }
        }
        GoneGrows(x, fs, findset, id);
        id := id + 1;
      }
      assert DeleteList(x, fs, findset, id) == DeleteList(x, fs, findset, x.next);
      assert GoneSet(x, fs, findset, id) == GoneSet(x, fs, findset, x.next);
    }

    static lemma SetsGrow(x: Index, fs: Tree, since: int, walk: seq<Entry>, e: Entry)
      requires WalkOf(fs, walk + [e])
      ensures FindSet(x, fs, walk + [e]) ==
              FindSet(x, fs, walk) + if !Skipped(fs, e) && e.path in x.fids then {x.fids[e.path].fid} else {}
      ensures ModifiedSet(x, fs, since, walk + [e]) ==
              ModifiedSet(x, fs, since, walk) + if IsModified(x, fs, since, e) then {x.fids[e.path].fid} else {}
    {
      assert forall g :: g in walk + [e] <==> g in walk || g == e;
    }

    static lemma GoneGrows(x: Index, fs: Tree, found: set<nat>, id: nat)
      requires 1 <= id
      ensures GoneSet(x, fs, found, id + 1) ==
              GoneSet(x, fs, found, id)
              + if id in x.paths && x.paths[id].kind == Source && IsGone(x, fs, found, id) then {id} else {}
    {
    }

    method UpdateGpath(deletelist: seq<Path>, addlistOther: seq<Path>)
      modifies gpath
      ensures gpath.Value() == UpdateIndex(old(gpath.Value()), deletelist, addlistOther)
    {
      ghost var x := gpath.Value();
      var i := 0;
      while i < |deletelist|
        invariant 0 <= i <= |deletelist| && gpath.Value() == RemoveAll(x, deletelist[..i])
      {
        assert deletelist[..i + 1][..i] == deletelist[..i];
        gpath.Delete(deletelist[i]);
        i := i + 1;
      }
      assert deletelist[..i] == deletelist;
      ghost var y := gpath.Value();
      i := 0;
      while i < |addlistOther|
        invariant 0 <= i <= |addlistOther| && gpath.Value() == PutAll(y, addlistOther[..i], Other)
      {
        assert addlistOther[..i + 1][..i] == addlistOther[..i];
        gpath.Put(addlistOther[i], Other);
        i := i + 1;
      }
      assert addlistOther[..i] == addlistOther;
    }

    /** What to do, with or without --single-update. */
    method Decide(fs: Tree, walk: seq<Entry>, single: Option<Path>) returns (plan: Plan)
      requires WalkOf(fs, walk)
      ensures plan == Decision(gpath.Value(), fs, stamp, walk, single)
    {
      if single.Some? && single.value in gpath.fids {
        var id := gpath.fids[single.value];
        if id.kind == Source {
          plan := Plan([single.value], [], {id.fid}, []);
        } else {
          plan := Plan([], [], {}, []);
        }
      } else {
        plan := MakeLists(fs, walk);
      }
    }

    static function Decision(x: Index, fs: Tree, since: int, walk: seq<Entry>, single: Option<Path>): Plan
      requires WalkOf(fs, walk)
    {
      if single.Some? && single.value in x.fids then
        if x.fids[single.value].kind == Source then Plan([single.value], [], {x.fids[single.value].fid}, [])
        else Plan([], [], {}, [])
      else Inspect(x, fs, since, walk)
    }

    method Apply(fs: Tree, plan: Plan)
      requires Opened() && forall p :: p in plan.add ==> p in fs
      modifies gpath, gtags, grtags
      ensures Opened() && Value() == Execute(old(Value()), fs, plan)
    {
      KeepNothingDead(gtags.records);
      KeepNothingDead(grtags.records);
      if plan.dead != {} || |plan.add| > 0 {
        UpdateTags(fs, plan.dead, plan.add);
      }
      if |plan.del| + |plan.other| > 0 {
        UpdateGpath(plan.del, plan.other);
      }
    }

    /** `gtags -i`, with or without --single-update. */
    method Incremental(fs: Tree, walk: seq<Entry>, single: Option<Path>, now: int) returns (updated: bool)
      requires Opened() && WalkOf(fs, walk) && (single.Some? ==> single.value in fs)
      modifies this, gpath, gtags, grtags
      ensures Opened()
      ensures (Value(), updated) ==
              if single.Some? then SingleUpdate(old(Value()), fs, old(stamp), walk, single.value)
              else Update(old(Value()), fs, old(stamp), walk)
      ensures stamp == if updated then now else old(stamp)
      ensures old(Valid(Value().index) && Handed(Value())) && Once(walk) ==>
                Renews(old(Value()), Value(), fs, old(stamp), walk, single)
    {
      if Valid(Value().index) && Handed(Value()) && Once(walk) {
        RenewsFiles(Value(), fs, stamp, walk, single);
      }
      DecisionIsKnown(Value(), fs, stamp, walk, single);
      var plan := Decide(fs, walk, single);
      updated := false;
      if plan.dead != {} || |plan.add| > 0 || |plan.del| + |plan.other| > 0 {
        updated := true;
        Apply(fs, plan);
        stamp := now;
      }
    }

    static lemma DecisionIsKnown(db: Db, fs: Tree, since: int, walk: seq<Entry>, single: Option<Path>)
      requires WalkOf(fs, walk) && (single.Some? ==> single.value in fs)
      ensures var plan := Decision(db.index, fs, since, walk, single);
              (forall p :: p in plan.add ==> p in fs) &&
              (if Idle(plan) then (db, false) else (Execute(db, fs, plan), true)) ==
              (if single.Some? then SingleUpdate(db, fs, since, walk, single.value) else Update(db, fs, since, walk))
    {
      AddListMeans(db.index, fs, since, walk);
    }
  }
}
