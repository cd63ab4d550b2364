/** The records that a rebuild and an update leave, against the symbols of the files:
    definitions in GTAGS, references in GRTAGS, and nothing else. */
module TagRecords {
  import opened TagIndex
  import opened Incremental

  // ----- one tag file -----

  predicate IsSymbol(s: Symbol, kind: SymbolKind, name: string, line: LineNo) {
    s.kind == kind && s.name == name && s.line == line
  }

  ghost predicate HasSymbol(symbols: seq<Symbol>, kind: SymbolKind, name: string, line: LineNo) {
    exists s :: s in symbols && IsSymbol(s, kind, name, line)
  }

  /** How often a tag file should have a line for a file: as often as the file has the
      symbol, or in the compact format once, without an image. */
  ghost function Times(compact: bool, symbols: seq<Symbol>, kind: SymbolKind, t: TagLine): nat {
    if !compact then multiset(symbols)[Symbol(kind, t.name, t.line, t.image)]
    else if t.image == "" && HasSymbol(symbols, kind, t.name, t.line) then 1
    else 0
  }

  /** How often a tag file has it. */
  function Count(records: seq<Record>, fid: nat, t: TagLine): nat {
    multiset(records)[Record(fid, t)]
  }

  lemma {:induction false} OfCounts(records: seq<Record>, fid: nat, t: TagLine)
    ensures Of(records, fid)[t] == Count(records, fid, t)
    decreases |records|
  {
    if |records| > 0 {
      var n := |records| - 1;
      OfCounts(records[..n], fid, t);
      assert records == records[..n] + [records[n]];
    }
  }

  lemma TagsOfNext(symbols: seq<Symbol>, s: Symbol, kind: SymbolKind)
    ensures TagsOf(symbols + [s], kind)
         == TagsOf(symbols, kind) + if s.kind == kind then [TagLine(s.name, s.line, s.image)] else []
  {
    assert (symbols + [s])[..|symbols|] == symbols;
  }

  lemma CountNext<T>(a: seq<T>, x: T, y: T)
    ensures multiset(a + [x])[y] == multiset(a)[y] + if x == y then 1 else 0
  {
  }

  lemma TagsOfCountsNext(symbols: seq<Symbol>, s: Symbol, kind: SymbolKind, t: TagLine)
    requires multiset(TagsOf(symbols, kind))[t] == multiset(symbols)[Symbol(kind, t.name, t.line, t.image)]
    ensures multiset(TagsOf(symbols + [s], kind))[t] == multiset(symbols + [s])[Symbol(kind, t.name, t.line, t.image)]
  {
    TagsOfNext(symbols, s, kind);
    CountNext(symbols, s, Symbol(kind, t.name, t.line, t.image));
    if s.kind == kind {
      CountNext(TagsOf(symbols, kind), TagLine(s.name, s.line, s.image), t);
    } else {
      assert TagsOf(symbols, kind) + [] == TagsOf(symbols, kind);
    }
  }

  lemma {:induction false} TagsOfCounts(symbols: seq<Symbol>, kind: SymbolKind, t: TagLine)
    ensures multiset(TagsOf(symbols, kind))[t] == multiset(symbols)[Symbol(kind, t.name, t.line, t.image)]
    decreases |symbols|
  {
    if |symbols| > 0 {
      var before, s := symbols[..|symbols| - 1], symbols[|symbols| - 1];
      TagsOfCounts(before, kind, t);
      TagsOfCountsNext(before, s, kind, t);
      LastApart(symbols);
    }
  }

  lemma {:induction false} NoRepeatCounts(tags: seq<TagLine>, t: TagLine)
    requires forall i, j :: 0 <= i < j < |tags| ==> tags[i] != tags[j]
    ensures multiset(tags)[t] == if t in tags then 1 else 0
    decreases |tags|
  {
    if |tags| > 0 {
      var before, last := tags[..|tags| - 1], tags[|tags| - 1];
      NoRepeatCounts(before, t);
      assert tags == before + [last];
    }
  }

  lemma TagOfSymbol(symbols: seq<Symbol>, kind: SymbolKind, t: TagLine)
    ensures t in TagsOf(symbols, kind) <==> Symbol(kind, t.name, t.line, t.image) in symbols
  {
    TagsOfCounts(symbols, kind, t);
    assert t in TagsOf(symbols, kind) <==> t in multiset(TagsOf(symbols, kind));
    assert Symbol(kind, t.name, t.line, t.image) in symbols <==> Symbol(kind, t.name, t.line, t.image) in multiset(symbols);
  }

  /** The entries of the compact format are the symbols without their images. */
  lemma DistinctHas(symbols: seq<Symbol>, kind: SymbolKind, t: TagLine)
    ensures t in Distinct(TagsOf(symbols, kind)) <==> t.image == "" && HasSymbol(symbols, kind, t.name, t.line)
  {
    var tags := TagsOf(symbols, kind);
    DistinctIs(tags);
    if t in Distinct(tags) {
      var u :| u in tags && u.name == t.name && u.line == t.line;
      TagOfSymbol(symbols, kind, u);
      assert IsSymbol(Symbol(kind, u.name, u.line, u.image), kind, t.name, t.line);
    }
    if t.image == "" && HasSymbol(symbols, kind, t.name, t.line) {
      var s :| s in symbols && IsSymbol(s, kind, t.name, t.line);
      var u := TagLine(s.name, s.line, s.image);
      TagOfSymbol(symbols, kind, u);
      assert u.(image := "") == t;
    }
  }

  lemma PackedCounts(compact: bool, symbols: seq<Symbol>, kind: SymbolKind, t: TagLine)
    ensures multiset(Packed(compact, TagsOf(symbols, kind)))[t] == Times(compact, symbols, kind, t)
  {
    if compact {
      DistinctIs(TagsOf(symbols, kind));
      NoRepeatCounts(Distinct(TagsOf(symbols, kind)), t);
      DistinctHas(symbols, kind, t);
    } else {
      TagsOfCounts(symbols, kind, t);
    }
  }

  // ----- both tag files -----

  ghost predicate RecordedAt(db: Db, fid: nat, symbols: seq<Symbol>, t: TagLine) {
    && Count(db.gtags, fid, t) == Times(db.compact, symbols, Definition, t)
    && Count(db.grtags, fid, t) == Times(true, symbols, Reference, t)
  }

  /** The records under an id are those of the symbols: the definitions in GTAGS and the
      references in GRTAGS, each as often as it should be, and no others. */
  ghost predicate Recorded(db: Db, fid: nat, symbols: seq<Symbol>) {
    forall t {:trigger RecordedAt(db, fid, symbols, t)} :: RecordedAt(db, fid, symbols, t)
  }

  /** That is what the description of an indexed file says of its records. */
  lemma InfoIsRecorded(db: Db, fid: nat, file: File)
    ensures RecordsOf(db, fid) == FileInfo(db.compact, file) <==> Recorded(db, fid, file.symbols)
  {
    var info := FileInfo(db.compact, file);
    forall t
      ensures RecordedAt(db, fid, file.symbols, t) <==> Of(db.gtags, fid)[t] == info.defs[t] && Of(db.grtags, fid)[t] == info.refs[t]
    {
      OfCounts(db.gtags, fid, t);
      OfCounts(db.grtags, fid, t);
      PackedCounts(db.compact, file.symbols, Definition, t);
      PackedCounts(true, file.symbols, Reference, t);
    }
    SameCounts(db, fid, file);
  }

  lemma SameCounts(db: Db, fid: nat, file: File)
    requires var info := FileInfo(db.compact, file);
             forall t {:trigger RecordedAt(db, fid, file.symbols, t)} :: RecordedAt(db, fid, file.symbols, t) <==>
               Of(db.gtags, fid)[t] == info.defs[t] && Of(db.grtags, fid)[t] == info.refs[t]
    ensures RecordsOf(db, fid) == FileInfo(db.compact, file) <==> Recorded(db, fid, file.symbols)
  {
    var info := FileInfo(db.compact, file);
    if Recorded(db, fid, file.symbols) {
      forall t ensures Of(db.gtags, fid)[t] == info.defs[t] && Of(db.grtags, fid)[t] == info.refs[t] {
        assert RecordedAt(db, fid, file.symbols, t);
      }
      assert Of(db.gtags, fid) == info.defs && Of(db.grtags, fid) == info.refs;
    }
  }

  // ----- a rebuild -----

  /** Path p is indexed as a source with the records of its symbols. */
  ghost predicate IndexedAs(db: Db, p: Path, symbols: seq<Symbol>) {
    p in db.index.fids && db.index.fids[p].kind == Source && Recorded(db, db.index.fids[p].fid, symbols)
  }

  /** Every source of the walk has the records of its symbols, and every record is one of a
      source of the walk. */
  ghost predicate Rebuilt(d: Db, fs: Tree, walk: seq<Entry>)
    requires WalkOf(fs, walk)
  {
    && (forall p :: Entry(p, false) in walk ==> IndexedAs(d, p, fs[p].symbols))
    && (forall r :: r in d.gtags || r in d.grtags ==>
          r.fid in d.index.paths && Entry(d.index.paths[r.fid].path, false) in walk)
  }

  lemma RebuiltRecords(compact: bool, fs: Tree, walk: seq<Entry>)
    requires WalkOf(fs, walk) && Once(walk)
    ensures Rebuilt(Create(compact, fs, walk), fs, walk)
  {
    var d := Create(compact, fs, walk);
    CreateDescribes(compact, fs, walk);
    forall p | Entry(p, false) in walk ensures IndexedAs(d, p, fs[p].symbols) {
      InWalkMeans(fs, walk, p);
      assert p in TreeView(compact, fs, walk);
      InfoIsRecorded(d, d.index.fids[p].fid, fs[p]);
    }
    forall r | r in d.gtags || r in d.grtags
      ensures r.fid in d.index.paths && Entry(d.index.paths[r.fid].path, false) in walk
    {
      var p := d.index.paths[r.fid].path;
      assert p in TreeView(compact, fs, walk) && InfoAt(d, p) == TreeView(compact, fs, walk)[p];
    }
  }

  // ----- an update -----

  lemma NothingUnder(db: Db, f: nat)
    requires Handed(db) && f >= db.index.next
    ensures RecordsOf(db, f) == SourceInfo(multiset{}, multiset{})
  {
    OfAbsent(db.gtags, f);
    OfAbsent(db.grtags, f);
  }

  lemma NothingKept(db: Db, dead: set<nat>, f: nat)
    requires Handed(db) && (f in dead || f >= db.index.next)
    ensures RecordsOf(Kept(db, dead), f) == SourceInfo(multiset{}, multiset{})
  {
    OfKeep(db.gtags, dead, f);
    OfKeep(db.grtags, dead, f);
    if f >= db.index.next {
      NothingUnder(db, f);
    }
  }

  lemma JustAdded(info: Info)
    requires info.SourceInfo?
    ensures multiset{} + info.defs == info.defs && multiset{} + info.refs == info.refs
  {
  }

  /** A file of the add list has its own records only, if what it had is deleted. */
  lemma AddedRecords(db: Db, fs: Tree, dead: set<nat>, add: seq<Path>, p: Path)
    requires Valid(db.index) && Handed(db) && NoRepeat(add) && p in add && forall q :: q in add ==> q in fs
    requires p in db.index.fids ==> db.index.fids[p].fid in dead
    ensures var z := PutAll(db.index, add, Source);
            && p in z.fids
            && RecordsOf(UpdateTags(db, fs, dead, add), z.fids[p].fid) == FileInfo(db.compact, fs[p])
  {
    AddFilesIndex(Kept(db, dead), fs, add);
    PutAllIs(db.index, add, Source);
    var z := PutAll(db.index, add, Source);
    var f := z.fids[p].fid;
    AddFilesRecords(Kept(db, dead), fs, add, f);
    NothingKept(db, dead, f);
    assert z.paths[f].path == p;
    JustAdded(FileInfo(db.compact, fs[p]));
  }

  /** The update reads the file: it is a source of the walk, and new or modified since. */
  predicate IsRead(x: Index, fs: Tree, since: int, walk: seq<Entry>, p: Path)
    requires WalkOf(fs, walk)
  {
    Entry(p, false) in walk && (p !in x.fids || since < fs[p].mtime)
  }

  /** The files that an update reads have the records of their symbols afterwards, whatever
      was recorded before. */
  lemma ReadRecords(db: Db, fs: Tree, since: int, walk: seq<Entry>, p: Path)
    requires Valid(db.index) && Handed(db) && WalkOf(fs, walk) && Once(walk)
    requires IsRead(db.index, fs, since, walk, p)
    requires p in db.index.fids ==> db.index.fids[p].kind == Source
    ensures IndexedAs(Update(db, fs, since, walk).0, p, fs[p].symbols)
  {
    var plan := Inspect(db.index, fs, since, walk);
    UpdateIsExecute(db, fs, since, walk);
    CompactKept(db, fs, plan);
    PlanIsSound(db.index, fs, since, walk);
    PlanAt(db.index, fs, since, walk, p);
    UpdatedIndex(db, fs, since, walk, p);
    InWalkMeans(fs, walk, p);
    AddedRecords(db, fs, plan.dead, plan.add, p);
    var d := Execute(db, fs, plan);
    InfoIsRecorded(d, d.index.fids[p].fid, fs[p]);
  }

  lemma CompactKept(db: Db, fs: Tree, plan: Plan)
    requires Valid(db.index) && forall q :: q in plan.add ==> q in fs
    ensures Execute(db, fs, plan).compact == db.compact
  {
    AddFilesIndex(Kept(db, plan.dead), fs, plan.add);
  }

  /** The records of a known path that stays and is not read are as they were. */
  lemma UnreadRecords(db: Db, fs: Tree, since: int, walk: seq<Entry>, p: Path, t: TagLine)
    requires Valid(db.index) && WalkOf(fs, walk) && Once(walk)
    requires p in db.index.fids && InWalk(fs, walk, p) && !IsRead(db.index, fs, since, walk, p)
    ensures var d, f := Update(db, fs, since, walk).0, db.index.fids[p].fid;
            Count(d.gtags, f, t) == Count(db.gtags, f, t) && Count(d.grtags, f, t) == Count(db.grtags, f, t)
  {
    var plan, f := Inspect(db.index, fs, since, walk), db.index.fids[p].fid;
    UpdateIsExecute(db, fs, since, walk);
    PlanIsSound(db.index, fs, since, walk);
    PlanAt(db.index, fs, since, walk, p);
    UpdatedIndex(db, fs, since, walk, p);
    RecordsStay(db, fs, plan.dead, plan.add, f);
    var d := Execute(db, fs, plan);
    OfCounts(db.gtags, f, t);
    OfCounts(db.grtags, f, t);
    OfCounts(d.gtags, f, t);
    OfCounts(d.grtags, f, t);
  }

  /** --single-update of a known source gives it the records of its symbols. */
  lemma SingleRecords(db: Db, fs: Tree, since: int, walk: seq<Entry>, p: Path)
    requires Valid(db.index) && Handed(db) && WalkOf(fs, walk)
    requires p in fs && p in db.index.fids && db.index.fids[p].kind == Source
    ensures IndexedAs(SingleUpdate(db, fs, since, walk, p).0, p, fs[p].symbols)
  {
    var d, f := Renewed(db, fs, p), db.index.fids[p].fid;
    RenewedIndex(db, fs, p);
    AddedRecords(db, fs, {f}, [p], p);
    InfoIsRecorded(d, f, fs[p]);
  }
}
