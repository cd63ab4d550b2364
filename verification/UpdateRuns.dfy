/** Whole runs: files come, change and go, and now and then the index is updated. */
module UpdateRuns {
  import opened TagIndex
  import opened Incremental

  /** The tree, the databases and the modification time of the tag files. */
  datatype World = World(fs: Tree, db: Db, stamp: int)

  /** A write may give a file any time, as a move, a copy or an archive does. */
  datatype Event =
    | Write(path: Path, file: File)
    | Unlink(path: Path)
    | Sync(walk: seq<Entry>, now: int)
    | Single(path: Path, walk: seq<Entry>, now: int)

  /** A walk is made of existing files, each listed once. */
  ghost predicate Walks(fs: Tree, walk: seq<Entry>) {
    WalkOf(fs, walk) && Once(walk)
  }

  /** Sources and others are told apart by their names alone. */
  ghost predicate ByName(sources: iset<Path>, walk: seq<Entry>) {
    forall e :: e in walk ==> (e.other <==> e.path !in sources)
  }

  ghost predicate Stable(sources: iset<Path>, e: Event) {
    match e
    case Sync(walk, _) => ByName(sources, walk)
    case Single(_, walk, _) => ByName(sources, walk)
    case _ => true
  }

  ghost predicate StableRun(sources: iset<Path>, events: seq<Event>) {
    forall e :: e in events ==> Stable(sources, e)
  }

  ghost predicate Allowed(w: World, e: Event) {
    match e
    case Write(_, _) => true
    case Unlink(_) => true
    case Sync(walk, _) => Walks(w.fs, walk)
    case Single(p, walk, _) => p in w.fs && Walks(w.fs, walk)
  }

  ghost function Step(w: World, e: Event): World
    requires Allowed(w, e)
  {
    match e
    case Write(p, file) => w.(fs := w.fs[p := file])
    case Unlink(p) => w.(fs := w.fs - {p})
    case Sync(walk, now) => Updated(w, Update(w.db, w.fs, w.stamp, walk), now)
    case Single(p, walk, now) => Updated(w, SingleUpdate(w.db, w.fs, w.stamp, walk, p), now)
  }

  /** Both kinds of update end with a new time for the tag files, if they did anything. */
  function Updated(w: World, result: (Db, bool), now: int): World {
    World(w.fs, result.0, if result.1 then now else w.stamp)
  }

  ghost predicate AllowedRun(w: World, events: seq<Event>)
    decreases |events|
  {
    |events| > 0 ==> Allowed(w, events[0]) && AllowedRun(Step(w, events[0]), events[1..])
  }

  ghost function Run(w: World, events: seq<Event>): World
    requires AllowedRun(w, events)
    decreases |events|
  {
    if |events| == 0 then w else Run(Step(w, events[0]), events[1..])
  }

  // ----- what every run keeps -----

  /** Ids and paths in bijection, no stray record, and every path of the type of its name. */
  ghost predicate Sane(db: Db, sources: iset<Path>) {
    && Valid(db.index) && NoStray(db)
    && forall p :: p in db.index.fids ==> (db.index.fids[p].kind == Source <==> p in sources)
  }

  lemma StepKeepsIds(w: World, e: Event)
    requires Valid(w.db.index) && Allowed(w, e)
    ensures var y := Step(w, e).db.index; Valid(y) && IdsKept(w.db.index, y)
  {
    match e {
      case Sync(walk, _) =>
        UpdateKeepsIds(w.db, w.fs, w.stamp, walk);
      case Single(p, walk, _) =>
        UpdateKeepsIds(w.db, w.fs, w.stamp, walk);
        if p in w.db.index.fids {
          RenewedIndex(w.db, w.fs, p);
        }
      case _ =>
    }
  }

  /** Over every run, whatever the walks take for sources: no id is ever shared by two
      paths, although holes grow. */
  lemma {:induction false} EveryRunKeepsIds(w: World, events: seq<Event>)
    requires Valid(w.db.index) && AllowedRun(w, events)
    ensures var y := Run(w, events).db.index; Valid(y) && IdsKept(w.db.index, y)
    decreases |events|
  {
    if |events| > 0 {
      StepKeepsIds(w, events[0]);
      EveryRunKeepsIds(Step(w, events[0]), events[1..]);
    }
  }

  lemma UpdateKeepsSane(db: Db, fs: Tree, since: int, sources: iset<Path>, walk: seq<Entry>)
    requires Sane(db, sources) && Walks(fs, walk) && ByName(sources, walk)
    ensures Sane(Update(db, fs, since, walk).0, sources)
  {
    UpdateIsExecute(db, fs, since, walk);
    UpdateKeepsIds(db, fs, since, walk);
    UpdatedNoStray(db, fs, since, walk);
    var d := Execute(db, fs, Inspect(db.index, fs, since, walk));
    forall p | p in d.index.fids ensures d.index.fids[p].kind == Source <==> p in sources {
      UpdatedIndex(db, fs, since, walk, p);
      InWalkMeans(fs, walk, p);
    }
  }

  lemma StepKeepsSane(w: World, sources: iset<Path>, e: Event)
    requires Sane(w.db, sources) && Allowed(w, e) && Stable(sources, e)
    ensures Sane(Step(w, e).db, sources)
  {
    match e {
      case Sync(walk, _) =>
        UpdateKeepsSane(w.db, w.fs, w.stamp, sources, walk);
      case Single(p, walk, _) =>
        UpdateKeepsSane(w.db, w.fs, w.stamp, sources, walk);
        if p in w.db.index.fids && w.db.index.fids[p].kind == Source {
          SingleUpdateIs(w.db, w.fs, w.stamp, walk, p);
        }
      case _ =>
    }
  }

  /** Over every run: no record strays and every path keeps its type. */
  lemma {:induction false} EveryRunIsSane(w: World, sources: iset<Path>, events: seq<Event>)
    requires Sane(w.db, sources) && AllowedRun(w, events) && StableRun(sources, events)
    ensures Sane(Run(w, events).db, sources)
    decreases |events|
  {
    if |events| > 0 {
      StepKeepsSane(w, sources, events[0]);
      EveryRunIsSane(Step(w, events[0]), sources, events[1..]);
    }
  }

  // ----- when an update gives what a rebuild gives -----

  /** The tags of a known source are out of date, and its time does not show it. */
  ghost predicate Missed(w: World, p: Path) {
    && p in w.db.index.fids && w.db.index.fids[p].kind == Source && p in w.fs
    && w.fs[p].mtime <= w.stamp && !Current(w.db, w.fs, p)
  }

  ghost predicate NoneMissed(w: World, walk: seq<Entry>) {
    forall p :: Entry(p, false) in walk ==> !Missed(w, p)
  }

  lemma SyncIsRebuild(w: World, sources: iset<Path>, walk: seq<Entry>, now: int)
    requires Sane(w.db, sources) && Walks(w.fs, walk) && ByName(sources, walk)
    ensures Equivalent(Step(w, Sync(walk, now)).db, Create(w.db.compact, w.fs, walk)) <==> NoneMissed(w, walk)
  {
    CleanUpdateMatches(w.db, w.fs, w.stamp, walk);
    forall p | p in w.db.index.fids && InWalk(w.fs, walk, p)
      ensures NoticedAt(w.db, w.fs, w.stamp, walk, p) <==> !(Entry(p, false) in walk && Missed(w, p))
    {
      InWalkMeans(w.fs, walk, p);
    }
    if Noticed(w.db, w.fs, w.stamp, walk) {
      forall p | Entry(p, false) in walk ensures !Missed(w, p) {
        InWalkMeans(w.fs, walk, p);
        assert p in w.db.index.fids ==> NoticedAt(w.db, w.fs, w.stamp, walk, p);
      }
    }
  }

  /** After any run of writes, deletions and updates of both kinds: an update leaves what a
      rebuild of the tree of that moment would make, exactly if no source in the walk is missed. */
  lemma EveryRun(w: World, sources: iset<Path>, events: seq<Event>, walk: seq<Entry>, now: int)
    requires Sane(w.db, sources) && AllowedRun(w, events) && StableRun(sources, events)
    requires Walks(Run(w, events).fs, walk) && ByName(sources, walk)
    ensures var v := Run(w, events);
            Equivalent(Step(v, Sync(walk, now)).db, Create(v.db.compact, v.fs, walk)) <==> NoneMissed(v, walk)
  {
    EveryRunIsSane(w, sources, events);
    SyncIsRebuild(Run(w, events), sources, walk, now);
  }

  // ----- runs with any walks -----

  lemma SingleKeepsHanded(w: World, p: Path)
    requires Valid(w.db.index) && Handed(w.db) && p in w.fs && p in w.db.index.fids
    ensures Handed(Renewed(w.db, w.fs, p))
  {
    TagsKeepHanded(w.db, w.fs, {w.db.index.fids[p].fid}, [p]);
  }

  lemma StepKeepsHanded(w: World, e: Event)
    requires Valid(w.db.index) && Handed(w.db) && Allowed(w, e)
    ensures Handed(Step(w, e).db)
  {
    match e {
      case Sync(walk, _) =>
        UpdateKeepsHanded(w.db, w.fs, w.stamp, walk);
      case Single(p, walk, _) =>
        if p in w.db.index.fids {
          SingleKeepsHanded(w, p);
        } else {
          UpdateKeepsHanded(w.db, w.fs, w.stamp, walk);
        }
      case _ =>
    }
  }

  lemma {:induction false} EveryRunKeepsHanded(w: World, events: seq<Event>)
    requires Valid(w.db.index) && Handed(w.db) && AllowedRun(w, events)
    ensures Handed(Run(w, events).db)
    decreases |events|
  {
    if |events| > 0 {
      StepKeepsHanded(w, events[0]);
      StepKeepsIds(w, events[0]);
      EveryRunKeepsHanded(Step(w, events[0]), events[1..]);
    }
  }

  /** After any run, whatever its walks took for sources: an update leaves what a rebuild
      would make exactly if no record strays and every difference is noticed. */
  lemma EveryRunOfAnyWalks(w: World, events: seq<Event>, walk: seq<Entry>, now: int)
    requires Valid(w.db.index) && Handed(w.db) && AllowedRun(w, events)
    requires Walks(Run(w, events).fs, walk)
    ensures var v := Run(w, events);
            Equivalent(Step(v, Sync(walk, now)).db, Create(v.db.compact, v.fs, walk)) <==>
              NoStray(v.db) && Noticed(v.db, v.fs, v.stamp, walk)
  {
    EveryRunKeepsIds(w, events);
    EveryRunKeepsHanded(w, events);
    var v := Run(w, events);
    UpdateMatchesRebuild(v.db, v.fs, v.stamp, walk);
  }

  // ----- an id that has lost its path -----

  lemma SingleKeepsUnnamed(w: World, p: Path, f: nat)
    requires Valid(w.db.index) && p in w.fs && p in w.db.index.fids && Unnamed(w.db.index, f)
    ensures var d := Renewed(w.db, w.fs, p); Unnamed(d.index, f) && RecordsOf(d, f) == RecordsOf(w.db, f)
  {
    RenewedIndex(w.db, w.fs, p);
    RecordsStay(w.db, w.fs, {w.db.index.fids[p].fid}, [p], f);
  }

  lemma StepKeepsUnnamed(w: World, f: nat, e: Event)
    requires Valid(w.db.index) && Allowed(w, e) && Unnamed(w.db.index, f)
    ensures var d := Step(w, e).db; Unnamed(d.index, f) && RecordsOf(d, f) == RecordsOf(w.db, f)
  {
    match e {
      case Sync(walk, _) =>
        UnnamedStays(w.db, w.fs, w.stamp, walk, f);
      case Single(p, walk, _) =>
        if p in w.db.index.fids {
          SingleKeepsUnnamed(w, p, f);
        } else {
          UnnamedStays(w.db, w.fs, w.stamp, walk, f);
        }
      case _ =>
    }
  }

  /** An id without a path gets none, and its records stay, over every run. */
  lemma {:induction false} EveryRunKeepsUnnamed(w: World, f: nat, events: seq<Event>)
    requires Valid(w.db.index) && AllowedRun(w, events) && Unnamed(w.db.index, f)
    ensures var d := Run(w, events).db; Unnamed(d.index, f) && RecordsOf(d, f) == RecordsOf(w.db, f)
    decreases |events|
  {
    if |events| > 0 {
      StepKeepsUnnamed(w, f, events[0]);
      StepKeepsIds(w, events[0]);
      EveryRunKeepsUnnamed(Step(w, events[0]), f, events[1..]);
    }
  }

  lemma UnnamedStrays(db: Db, f: nat)
    requires f !in db.index.paths && RecordsOf(db, f) != SourceInfo(multiset{}, multiset{})
    ensures !NoStray(db)
  {
    if NoStray(db) {
      OfAbsent(db.gtags, f);
      OfAbsent(db.grtags, f);
    }
  }

  /** If it has records, no update ever again gives what a rebuild gives. */
  lemma NeverRebuiltAgain(w: World, f: nat, events: seq<Event>, walk: seq<Entry>, now: int)
    requires Valid(w.db.index) && Handed(w.db) && AllowedRun(w, events) && Walks(Run(w, events).fs, walk)
    requires Unnamed(w.db.index, f) && RecordsOf(w.db, f) != SourceInfo(multiset{}, multiset{})
    ensures var v := Run(w, events); !Equivalent(Step(v, Sync(walk, now)).db, Create(v.db.compact, v.fs, walk))
  {
    EveryRunKeepsUnnamed(w, f, events);
    UnnamedStrays(Run(w, events).db, f);
    EveryRunOfAnyWalks(w, events, walk, now);
  }

  // ----- runs in which nothing is missed -----

  ghost predicate Sound(w: World, sources: iset<Path>) {
    Sane(w.db, sources) && forall p :: !Missed(w, p)
  }

  /** No known source but p is out of date with a time that the new stamp will hide. */
  ghost predicate NoneHidden(w: World, p: Path, now: int) {
    forall q :: q in w.db.index.fids && q != p && w.db.index.fids[q].kind == Source && q in w.fs && w.fs[q].mtime <= now
      ==> Current(w.db, w.fs, q)
  }

  /** A write of a known source has a time later than the stamp, or leaves its tags as
      they are; an update of a single known source hides no other. */
  ghost predicate Seen(w: World, e: Event) {
    match e
    case Write(p, file) =>
      p in w.db.index.fids && w.db.index.fids[p].kind == Source && file.mtime <= w.stamp ==>
        InfoAt(w.db, p) == FileInfo(w.db.compact, file)
    case Single(p, _, now) =>
      p in w.db.index.fids && w.db.index.fids[p].kind == Source ==> NoneHidden(w, p, now)
    case _ => true
  }

  lemma SyncKeepsSound(w: World, sources: iset<Path>, walk: seq<Entry>, now: int)
    requires Sound(w, sources) && Walks(w.fs, walk) && ByName(sources, walk)
    ensures Sound(Step(w, Sync(walk, now)), sources)
  {
    var v := Step(w, Sync(walk, now));
    UpdateKeepsSane(w.db, w.fs, w.stamp, sources, walk);
    SyncIsRebuild(w, sources, walk, now);
    CreateDescribes(w.db.compact, w.fs, walk);
    CompactStays(w.db, w.fs, w.stamp, walk);
    forall p ensures !Missed(v, p) {
      if p in v.db.index.fids {
        InWalkMeans(w.fs, walk, p);
      }
    }
  }

  lemma CompactStays(db: Db, fs: Tree, since: int, walk: seq<Entry>)
    requires Valid(db.index) && WalkOf(fs, walk)
    ensures Update(db, fs, since, walk).0.compact == db.compact
  {
    UpdateIsExecute(db, fs, since, walk);
    var plan := Inspect(db.index, fs, since, walk);
    AddFilesIndex(Kept(db, plan.dead), fs, plan.add);
  }

  /** The update of a single known source keeps the state sound exactly if it hides no other. */
  lemma SingleKeepsSound(w: World, sources: iset<Path>, p: Path, walk: seq<Entry>, now: int)
    requires Sane(w.db, sources) && p in w.fs && Walks(w.fs, walk) && ByName(sources, walk)
    requires p in w.db.index.fids && w.db.index.fids[p].kind == Source
    ensures Sound(Step(w, Single(p, walk, now)), sources) <==> NoneHidden(w, p, now)
  {
    var v := Step(w, Single(p, walk, now));
    StepKeepsSane(w, sources, Single(p, walk, now));
    SingleUpdateIs(w.db, w.fs, w.stamp, walk, p);
    forall q
      ensures Missed(v, q) <==>
                q in w.db.index.fids && q != p && w.db.index.fids[q].kind == Source && q in w.fs
                && w.fs[q].mtime <= now && !Current(w.db, w.fs, q)
    {
    }
  }

  /** From a sound state, a step leads to a sound state exactly if its change is seen. */
  lemma StepKeepsSound(w: World, sources: iset<Path>, e: Event)
    requires Sound(w, sources) && Allowed(w, e) && Stable(sources, e)
    ensures Sound(Step(w, e), sources) <==> Seen(w, e)
  {
    var v := Step(w, e);
    match e {
      case Sync(walk, now) =>
        SyncKeepsSound(w, sources, walk, now);
      case Single(p, walk, now) =>
        if p in w.db.index.fids && w.db.index.fids[p].kind == Source {
          SingleKeepsSound(w, sources, p, walk, now);
        } else {
          SyncKeepsSound(w, sources, walk, now);
        }
      case Write(p, file) =>
        WriteKeepsSound(w, sources, p, file);
      case Unlink(p) =>
        forall q ensures !Missed(v, q) {
          assert Missed(v, q) ==> Missed(w, q);
        }
    }
  }

  lemma WriteKeepsSound(w: World, sources: iset<Path>, p: Path, file: File)
    requires Sound(w, sources)
    ensures Sound(w.(fs := w.fs[p := file]), sources) <==> Seen(w, Write(p, file))
  {
    var v := w.(fs := w.fs[p := file]);
    forall q | q != p ensures !Missed(v, q) {
      assert Missed(v, q) ==> Missed(w, q);
    }
    assert Missed(v, p) <==> !Seen(w, Write(p, file));
  }

  ghost predicate SeenRun(w: World, events: seq<Event>)
    requires AllowedRun(w, events)
    decreases |events|
  {
    |events| > 0 ==> Seen(w, events[0]) && SeenRun(Step(w, events[0]), events[1..])
  }

  /** After any run whose changes are seen, an update leaves what a rebuild would make. */
  lemma {:induction false} SeenRunIsRebuilt(w: World, sources: iset<Path>, events: seq<Event>,
                                            walk: seq<Entry>, now: int)
    requires Sound(w, sources) && AllowedRun(w, events) && StableRun(sources, events) && SeenRun(w, events)
    requires Walks(Run(w, events).fs, walk) && ByName(sources, walk)
    ensures var v := Run(w, events);
            Sound(v, sources) && Equivalent(Step(v, Sync(walk, now)).db, Create(v.db.compact, v.fs, walk))
    decreases |events|
  {
    if |events| == 0 {
      SyncIsRebuild(w, sources, walk, now);
    } else {
      StepKeepsSound(w, sources, events[0]);
      SeenRunIsRebuilt(Step(w, events[0]), sources, events[1..], walk, now);
    }
  }

  /** A freshly created database is a sound start. */
  lemma FreshIsSound(compact: bool, fs: Tree, sources: iset<Path>, walk: seq<Entry>, now: int)
    requires Walks(fs, walk) && ByName(sources, walk)
    ensures Sound(World(fs, Create(compact, fs, walk), now), sources)
  {
    CreateDescribes(compact, fs, walk);
    var w := World(fs, Create(compact, fs, walk), now);
    forall p | p in w.db.index.fids
      ensures w.db.index.fids[p].kind == Source <==> p in sources
      ensures !Missed(w, p)
    {
      InWalkMeans(fs, walk, p);
    }
  }

  // ----- what is missed stays missed -----

  /** The event leaves q where it is, and the clock does not go back. */
  ghost predicate Leaves(w: World, q: Path, e: Event) {
    match e
    case Write(p, _) => p != q
    case Unlink(p) => p != q
    case Sync(walk, now) => Entry(q, false) in walk && w.stamp <= now
    case Single(p, walk, now) => p != q && Entry(q, false) in walk && w.stamp <= now
  }

  ghost predicate LeavesRun(w: World, q: Path, events: seq<Event>)
    requires AllowedRun(w, events)
    decreases |events|
  {
    |events| > 0 ==> Leaves(w, q, events[0]) && LeavesRun(Step(w, events[0]), q, events[1..])
  }

  lemma UpdateLeavesMissed(w: World, walk: seq<Entry>, now: int, q: Path)
    requires Valid(w.db.index) && NoStray(w.db) && WalkOf(w.fs, walk) && Once(walk)
    requires Missed(w, q) && Entry(q, false) in walk && w.stamp <= now
    ensures var v := Updated(w, Update(w.db, w.fs, w.stamp, walk), now);
            Missed(v, q) && InfoAt(v.db, q) == InfoAt(w.db, q)
  {
    UpdateIsExecute(w.db, w.fs, w.stamp, walk);
    CompactStays(w.db, w.fs, w.stamp, walk);
    UpdatedIndex(w.db, w.fs, w.stamp, walk, q);
    InWalkMeans(w.fs, walk, q);
    WholeAt(w.db, w.fs, w.stamp, walk, q);
  }

  lemma StepLeavesMissed(w: World, q: Path, e: Event)
    requires Valid(w.db.index) && NoStray(w.db) && Allowed(w, e) && Missed(w, q) && Leaves(w, q, e)
    ensures Missed(Step(w, e), q) && InfoAt(Step(w, e).db, q) == InfoAt(w.db, q)
  {
    match e {
      case Sync(walk, now) =>
        UpdateLeavesMissed(w, walk, now, q);
      case Single(p, walk, now) =>
        SingleLeavesMissed(w, p, walk, now, q);
      case _ =>
    }
  }

  lemma SingleLeavesMissed(w: World, p: Path, walk: seq<Entry>, now: int, q: Path)
    requires Valid(w.db.index) && NoStray(w.db) && WalkOf(w.fs, walk) && Once(walk)
    requires p in w.fs && p != q && Missed(w, q) && Entry(q, false) in walk && w.stamp <= now
    ensures var v := Updated(w, SingleUpdate(w.db, w.fs, w.stamp, walk, p), now);
            Missed(v, q) && InfoAt(v.db, q) == InfoAt(w.db, q)
  {
    if p !in w.db.index.fids {
      UpdateLeavesMissed(w, walk, now, q);
    } else if w.db.index.fids[p].kind == Source {
      SingleUpdateIs(w.db, w.fs, w.stamp, walk, p);
    }
  }

  /** A source that is missed keeps its old tags through every update that walks over it. */
  lemma {:induction false} StaysMissed(w: World, sources: iset<Path>, q: Path, events: seq<Event>)
    requires Sane(w.db, sources) && AllowedRun(w, events) && StableRun(sources, events)
    requires Missed(w, q) && LeavesRun(w, q, events)
    ensures var v := Run(w, events); Missed(v, q) && InfoAt(v.db, q) == InfoAt(w.db, q)
    decreases |events|
  {
    if |events| > 0 {
      StepKeepsSane(w, sources, events[0]);
      StepLeavesMissed(w, q, events[0]);
      StaysMissed(Step(w, events[0]), sources, q, events[1..]);
    }
  }

  /** A known source whose tags change with a time no later than the stamp, be it the
      second of the update itself, keeps its old tags from then on, and no later update
      gives what a rebuild gives. */
  lemma LateEditIsMissed(w: World, sources: iset<Path>, p: Path, file: File, events: seq<Event>, walk: seq<Entry>, now: int)
    requires Sane(w.db, sources) && p in w.db.index.fids && w.db.index.fids[p].kind == Source
    requires file.mtime <= w.stamp && InfoAt(w.db, p) != FileInfo(w.db.compact, file)
    requires var u := Step(w, Write(p, file));
             && AllowedRun(u, events) && StableRun(sources, events) && LeavesRun(u, p, events)
             && Walks(Run(u, events).fs, walk) && ByName(sources, walk) && Entry(p, false) in walk
    ensures var v := Run(Step(w, Write(p, file)), events);
            && p in v.db.index.fids && InfoAt(v.db, p) == InfoAt(w.db, p)
            && !Equivalent(Step(v, Sync(walk, now)).db, Create(v.db.compact, v.fs, walk))
  {
    var u := Step(w, Write(p, file));
    StaysMissed(u, sources, p, events);
    EveryRun(u, sources, events, walk, now);
  }

  /** An update of p alone hides every other source that is out of date. */
  lemma SingleHides(w: World, p: Path, q: Path, walk: seq<Entry>, now: int)
    requires Valid(w.db.index) && NoStray(w.db) && p in w.fs && Walks(w.fs, walk)
    requires p in w.db.index.fids && w.db.index.fids[p].kind == Source
    requires q != p && q in w.db.index.fids && w.db.index.fids[q].kind == Source && q in w.fs
    requires w.fs[q].mtime <= now && !Current(w.db, w.fs, q)
    ensures Missed(Step(w, Single(p, walk, now)), q)
  {
    SingleUpdateIs(w.db, w.fs, w.stamp, walk, p);
    var d := SingleUpdate(w.db, w.fs, w.stamp, walk, p).0;
    assert InfoAt(d, q) == InfoAt(w.db, q);
  }
}
