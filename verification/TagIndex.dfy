/** The GPATH index and the two tag files as values, and what each primitive of
    gpathop.c and gtagsop.c does to them.  A tag file is kept as a sequence of
    records; only the multiset of records of each file id is ever compared. */
module TagIndex {
  type Path = string

  /** Line numbers start at one: "line 0 doesn't exist". */
  type LineNo = n: nat | n > 0 witness 1

  datatype Kind = Source | Other

  /** What the parser reports to put_syms. */
  datatype SymbolKind = Definition | Reference | Ignored
  datatype Symbol = Symbol(kind: SymbolKind, name: string, line: LineNo, image: string)

  datatype TagLine = TagLine(name: string, line: LineNo, image: string)
  datatype Record = Record(fid: nat, tag: TagLine)

  datatype Id = Id(fid: nat, kind: Kind)
  datatype Name = Name(path: Path, kind: Kind)

  /** GPATH: path to file id, file id to path, and the next key. */
  datatype Index = Index(fids: map<Path, Id>, paths: map<nat, Name>, next: nat)

  /** Both directions agree, and every key in use is below the next one. */
  ghost predicate Valid(x: Index) {
    && (forall p :: p in x.fids ==>
          x.fids[p].fid in x.paths && x.paths[x.fids[p].fid] == Name(p, x.fids[p].kind))
    && (forall i :: i in x.paths ==>
          0 < i < x.next && x.paths[i].path in x.fids && x.fids[x.paths[i].path] == Id(i, x.paths[i].kind))
    && 0 < x.next
  }

  const Empty := Index(map[], map[], 1)

  function Put(x: Index, p: Path, k: Kind): Index {
    if p in x.fids then x
    else Index(x.fids[p := Id(x.next, k)], x.paths[x.next := Name(p, k)], x.next + 1)
  }

  function Remove(x: Index, p: Path): Index {
    if p !in x.fids then x
    else Index(x.fids - {p}, x.paths - {x.fids[p].fid}, x.next)
  }

  function PutAll(x: Index, ps: seq<Path>, k: Kind): Index {
    if |ps| == 0 then x else Put(PutAll(x, ps[..|ps| - 1], k), ps[|ps| - 1], k)
  }

  function RemoveAll(x: Index, ps: seq<Path>): Index {
    if |ps| == 0 then x else Remove(RemoveAll(x, ps[..|ps| - 1]), ps[|ps| - 1])
  }

  /** y is x with the paths put: nothing known changes its entry, and what is new
      has an id that was never used before. */
  ghost predicate IsPut(x: Index, y: Index, ps: seq<Path>, k: Kind) {
    && Valid(y) && x.next <= y.next
    && y.fids.Keys == x.fids.Keys + (set p | p in ps)
    && (forall p :: p in x.fids ==> y.fids[p] == x.fids[p])
    && (forall p :: p in y.fids && p !in x.fids ==> y.fids[p].kind == k && x.next <= y.fids[p].fid)
  }

  lemma {:induction false} PutAllIs(x: Index, ps: seq<Path>, k: Kind)
    requires Valid(x)
    ensures IsPut(x, PutAll(x, ps, k), ps, k)
    decreases |ps|
  {
    if |ps| > 0 {
      PutAllIs(x, ps[..|ps| - 1], k);
      assert ps == ps[..|ps| - 1] + [ps[|ps| - 1]];
      PutOneMore(x, PutAll(x, ps[..|ps| - 1], k), ps[..|ps| - 1], ps[|ps| - 1], k);
    }
  }

  lemma PutOneMore(x: Index, y: Index, ps: seq<Path>, p: Path, k: Kind)
    requires IsPut(x, y, ps, k)
    ensures IsPut(x, Put(y, p, k), ps + [p], k)
  {
    PutIsValid(y, p, k);
    PathsOneMore(ps, p);
  }

  lemma PathsOneMore(ps: seq<Path>, p: Path)
    ensures (set q | q in ps + [p]) == (set q | q in ps) + {p}
  {
  }

  lemma PutIsValid(x: Index, p: Path, k: Kind)
    requires Valid(x)
    ensures Valid(Put(x, p, k))
  {
  }

  /** y is x without the paths; the ids that they had stay unused. */
  ghost predicate IsRemoved(x: Index, y: Index, ps: seq<Path>) {
    && Valid(y) && y.next == x.next
    && y.fids.Keys == x.fids.Keys - (set p | p in ps)
    && (forall p :: p in y.fids ==> y.fids[p] == x.fids[p])
  }

  lemma {:induction false} RemoveAllIs(x: Index, ps: seq<Path>)
    requires Valid(x)
    ensures IsRemoved(x, RemoveAll(x, ps), ps)
    decreases |ps|
  {
    if |ps| > 0 {
      RemoveAllIs(x, ps[..|ps| - 1]);
      assert ps == ps[..|ps| - 1] + [ps[|ps| - 1]];
      RemoveOneMore(x, RemoveAll(x, ps[..|ps| - 1]), ps[..|ps| - 1], ps[|ps| - 1]);
    }
  }

  lemma RemoveOneMore(x: Index, y: Index, ps: seq<Path>, p: Path)
    requires IsRemoved(x, y, ps)
    ensures IsRemoved(x, Remove(y, p), ps + [p])
  {
    RemoveIsValid(y, p);
    PathsOneMore(ps, p);
  }

  lemma RemoveIsValid(x: Index, p: Path)
    requires Valid(x)
    ensures Valid(Remove(x, p))
  {
  }

  // ----- tag files -----

  function TagsOf(symbols: seq<Symbol>, kind: SymbolKind): seq<TagLine> {
    if |symbols| == 0 then []
    else
      var s := symbols[|symbols| - 1];
      TagsOf(symbols[..|symbols| - 1], kind) + if s.kind == kind then [TagLine(s.name, s.line, s.image)] else []
  }

  /** The compact format keeps no line image and one entry per name and line. */
  function Distinct(tags: seq<TagLine>): seq<TagLine> {
    if |tags| == 0 then []
    else
      var r := Distinct(tags[..|tags| - 1]);
      var t := tags[|tags| - 1].(image := "");
      if t in r then r else r + [t]
  }

  /** No entry twice, and the entries are those of the tags without their images. */
  ghost predicate IsDistinct(r: seq<TagLine>, tags: seq<TagLine>) {
    && (forall i, j :: 0 <= i < j < |r| ==> r[i] != r[j])
    && (forall t :: t in tags ==> t.(image := "") in r)
    && (forall u :: u in r ==> u.image == "" && exists t :: t in tags && t.name == u.name && t.line == u.line)
  }

  lemma DistinctMore(r: seq<TagLine>, tags: seq<TagLine>, t: TagLine)
    requires IsDistinct(r, tags)
    ensures IsDistinct(if t.(image := "") in r then r else r + [t.(image := "")], tags + [t])
  {
  }

  lemma {:induction false} DistinctIs(tags: seq<TagLine>)
    ensures IsDistinct(Distinct(tags), tags)
    decreases |tags|
  {
    if |tags| > 0 {
      var n := |tags| - 1;
      DistinctIs(tags[..n]);
      assert tags == tags[..n] + [tags[n]];
      DistinctMore(Distinct(tags[..n]), tags[..n], tags[n]);
    }
  }

  /** What one file's tags look like in a tag file of the given format. */
  function Packed(compact: bool, tags: seq<TagLine>): seq<TagLine> {
    if compact then Distinct(tags) else tags
  }

  function Stamp(fid: nat, tags: seq<TagLine>): seq<Record> {
    seq(|tags|, i requires 0 <= i < |tags| => Record(fid, tags[i]))
  }

  /** The tag lines recorded for one file id. */
  function Of(records: seq<Record>, fid: nat): multiset<TagLine> {
    if |records| == 0 then multiset{}
    else
      var r := records[|records| - 1];
      Of(records[..|records| - 1], fid) + if r.fid == fid then multiset{r.tag} else multiset{}
  }

  /** gtags_delete: the records whose file id is not in the set. */
  function Keep(records: seq<Record>, dead: set<nat>): seq<Record> {
    if |records| == 0 then []
    else
      var r := records[|records| - 1];
      Keep(records[..|records| - 1], dead) + if r.fid in dead then [] else [r]
  }

  lemma {:induction false} OfConcat(a: seq<Record>, b: seq<Record>, fid: nat)
    ensures Of(a + b, fid) == Of(a, fid) + Of(b, fid)
    decreases |b|
  {
    if |b| == 0 {
      assert a + b == a;
    } else {
      assert (a + b)[..|a + b| - 1] == a + b[..|b| - 1];
      OfConcat(a, b[..|b| - 1], fid);
    }
  }

  lemma OfOneMore(records: seq<Record>, r: Record, fid: nat)
    ensures Of(records + [r], fid) == Of(records, fid) + if r.fid == fid then multiset{r.tag} else multiset{}
  {
    assert (records + [r])[..|records|] == records;
  }

  lemma StampOneMore(fid: nat, tags: seq<TagLine>, t: TagLine)
    ensures Stamp(fid, tags + [t]) == Stamp(fid, tags) + [Record(fid, t)]
  {
  }

  lemma {:induction false} OfStamp(tags: seq<TagLine>, fid: nat, g: nat)
    ensures Of(Stamp(g, tags), fid) == if fid == g then multiset(tags) else multiset{}
  {
    if |tags| > 0 {
      var n := |tags| - 1;
      OfStamp(tags[..n], fid, g);
      StampOneMore(g, tags[..n], tags[n]);
      OfOneMore(Stamp(g, tags[..n]), Record(g, tags[n]), fid);
      assert tags == tags[..n] + [tags[n]];
    }
  }

  lemma KeepOneMore(records: seq<Record>, r: Record, dead: set<nat>)
    ensures Keep(records + [r], dead) == if r.fid in dead then Keep(records, dead) else Keep(records, dead) + [r]
  {
    assert (records + [r])[..|records|] == records;
  }

  lemma {:induction false} OfKeep(records: seq<Record>, dead: set<nat>, fid: nat)
    ensures Of(Keep(records, dead), fid) == if fid in dead then multiset{} else Of(records, fid)
    ensures forall r :: r in Keep(records, dead) <==> r in records && r.fid !in dead
  {
    if |records| > 0 {
      var n := |records| - 1;
      OfKeep(records[..n], dead, fid);
      assert records == records[..n] + [records[n]];
      OfKeepMore(records[..n], records[n], dead, fid);
    }
  }

  lemma OfKeepMore(records: seq<Record>, r: Record, dead: set<nat>, fid: nat)
    requires Of(Keep(records, dead), fid) == if fid in dead then multiset{} else Of(records, fid)
    requires forall q :: q in Keep(records, dead) <==> q in records && q.fid !in dead
    ensures Of(Keep(records + [r], dead), fid) == if fid in dead then multiset{} else Of(records + [r], fid)
    ensures forall q :: q in Keep(records + [r], dead) <==> q in records + [r] && q.fid !in dead
  {
    KeepOneMore(records, r, dead);
    OfOneMore(records, r, fid);
    OfOneMore(Keep(records, dead), r, fid);
  }

  lemma {:induction false} OfAbsent(records: seq<Record>, fid: nat)
    requires forall r :: r in records ==> r.fid != fid
    ensures Of(records, fid) == multiset{}
  {
    if |records| > 0 {
      OfAbsent(records[..|records| - 1], fid);
    }
  }

  lemma {:induction false} OfPresent(records: seq<Record>, r: Record)
    requires r in records
    ensures r.tag in Of(records, r.fid)
    decreases |records|
  {
    var n := |records| - 1;
    if r != records[n] {
      assert r in records[..n];
      OfPresent(records[..n], r);
    }
  }

  lemma KeepNothingDead(records: seq<Record>)
    ensures Keep(records, {}) == records
  {
    if |records| > 0 {
      assert records == records[..|records| - 1] + [records[|records| - 1]];
    }
  }
}
