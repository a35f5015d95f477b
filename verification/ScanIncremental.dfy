/** What a scan without failures makes of each walked path's row, in terms of the row before, the file and its
    modification time; and what incremental scans leave alone. */
module ScanIncremental {
  import opened Options
  import opened Text
  import opened MusicTables
  import opened SongMetadata
  import opened ScanMachine
  import opened ScanProtocol
  import opened ScanIntegrity
  import opened ScanConfluence

  /** The trimmed text, or the default where nothing is left of it. */
  predicate Names(raw: string, default: string, name: string) {
    name == if TrimSpace(raw) == "" then default else TrimSpace(raw)
  }

  /** The columns a scan always overwrites, told by the file: names trimmed with their defaults, the time cut to
      whole seconds, and all else from the tags. */
  predicate PlainFromFile(libraryId: Id, mtime: int, t: Tags, plain: Plain) {
    && plain.libraryId == libraryId && plain.sortTitle == ""
    && Names(t.artist, "Unknown Artist", plain.artistName)
    && Names(t.albumArtist, plain.artistName, plain.albumArtistName)
    && Names(t.album, "Unknown Album", plain.albumName)
    && 0 <= mtime - plain.lastModified < 1_000_000_000 && plain.lastModified % 1_000_000_000 == 0
    && plain == t.plain.(libraryId := plain.libraryId, sortTitle := "", artistName := plain.artistName,
                         albumArtistName := plain.albumArtistName, albumName := plain.albumName,
                         lastModified := plain.lastModified)
  }

  /** A protected column: an edited row keeps what it has; otherwise the tag's, the title trimmed or the file's stem. */
  predicate KeptFromFile(stem: string, t: Tags, prev: Option<Meta>, row: Meta, f: Field) {
    if prev.Some? && prev.value.userEdited && Get(prev.value.kept, f) != "" then Get(row.kept, f) == Get(prev.value.kept, f)
    else if f.Title? then Names(t.kept.title, stem, row.kept.title)
    else Get(row.kept, f) == Get(t.kept, f)
  }

  /** The row is what the file and the row before, if there was one, make of it. */
  ghost predicate Rescanned(c: Config, p: string, prev: Option<Meta>, row: Meta)
    requires Readable(c, p)
  {
    var f, t := c.files(p), c.files(p).tags.value;
    && PlainFromFile(c.libraryId, f.mtime, t, row.plain)
    && (forall x: Field :: KeptFromFile(f.stem, t, prev, row, x))
    && row.userEdited == (prev.Some? && prev.value.userEdited)
  }

  /** The stored time is within a second of the file's. */
  predicate Near(stored: int, mtime: int) {
    -1_000_000_000 <= stored - mtime <= 1_000_000_000
  }

  function RowOf(mm: map<string, Meta>, p: string): Option<Meta> {
    if p in mm then Some(mm[p]) else None
  }

  lemma IncomingPlain(c: Config, p: string)
    requires Readable(c, p)
    ensures PlainFromFile(c.libraryId, c.files(p).mtime, c.files(p).tags.value, Incoming(c, p).plain)
  {
    hide TrimSpace;
  }

  lemma IncomingKept(c: Config, p: string, x: Field)
    requires Readable(c, p)
    ensures KeptFromFile(c.files(p).stem, c.files(p).tags.value, None, Incoming(c, p), x)
  {
    hide TrimSpace;
  }

  lemma PutIsRescanned(c: Config, before: map<string, Meta>, p: string)
    requires Readable(c, p)
    ensures Rescanned(c, p, RowOf(before, p), Put(before, p, Incoming(c, p))[p])
  {
    var incoming := Incoming(c, p);
    IncomingPlain(c, p);
    hide PlainFromFile, TrimSpace;
    forall x: Field
      ensures KeptFromFile(c.files(p).stem, c.files(p).tags.value, RowOf(before, p), Put(before, p, incoming)[p], x)
    {
      IncomingKept(c, p, x);
      if p in before {
        MergeField(before[p], incoming, x);
      }
    }
  }

  /** What a scan leaves at a walked path. */
  ghost predicate PathAfter(c: Config, before: map<string, Meta>, after: map<string, Meta>, p: string) {
    Readable(c, p) && p in after &&
    if c.incremental && p in before && Near(before[p].plain.lastModified, c.files(p).mtime) then after[p] == before[p]
    else Rescanned(c, p, RowOf(before, p), after[p])
  }

  ghost predicate FineScan(c: Config, db: Db, acts: seq<Action>) {
    && CanRun(c, Init(c, db), acts) && AllFine(acts) && AllReadable(c) && Integrity(db) && c.workers > 0
    && Run(c, Init(c, db), acts).main.Returned?
  }

  ghost function Left(c: Config, db: Db, acts: seq<Action>): map<string, Meta>
    requires FineScan(c, db, acts)
  {
    MetaMap(Run(c, Init(c, db), acts).db)
  }

  /** A scan without failures: a walked path whose row has a time within a second of the file's is left as it was
      if the scan is incremental; every other walked path's row is made from its file, onto the row it had; paths
      that were not walked are untouched. */
  lemma ScanMeaning(c: Config, db: Db, acts: seq<Action>)
    requires FineScan(c, db, acts)
    ensures forall p :: p in c.paths ==> PathAfter(c, MetaMap(db), Left(c, db, acts), p)
    ensures forall p :: p !in c.paths ==> RowOf(Left(c, db, acts), p) == RowOf(MetaMap(db), p)
  {
    ScanSettles(c, db, acts);
    var before, after := MetaMap(db), Left(c, db, acts);
    hide MetaMap, Run, CanRun, Init, Integrity, Rescanned;
    forall p | p in c.paths ensures PathAfter(c, before, after, p) {
      assert Settled(c, before, after, p);
      PutIsRescanned(c, before, p);
      NearIsUnchanged(c, before, p);
    }
    forall p | p !in c.paths ensures RowOf(after, p) == RowOf(before, p) {
      assert Untouched(before, after, p);
    }
  }

  lemma NearIsUnchanged(c: Config, before: map<string, Meta>, p: string)
    requires Readable(c, p)
    ensures Spared(c, before, p) <==> c.incremental && p in before && Near(before[p].plain.lastModified, c.files(p).mtime)
  {
  }

  /** After a scan every walked path's stored time is within a second of its file's, whichever mode the scan ran in. */
  lemma StoredTimesAreNear(c: Config, db: Db, acts: seq<Action>, p: string)
    requires FineScan(c, db, acts) && p in c.paths
    ensures p in Left(c, db, acts) && Near(Left(c, db, acts)[p].plain.lastModified, c.files(p).mtime)
  {
    ScanMeaning(c, db, acts);
    hide FineScan, Left, MetaMap, KeptFromFile;
    assert PathAfter(c, MetaMap(db), Left(c, db, acts), p);
  }

  /** A further incremental scan of files that have not changed changes no metadata. */
  lemma SecondScanChangesNothing(c: Config, db: Db, acts: seq<Action>, d: Config, others: seq<Action>)
    requires FineScan(c, db, acts) && d.incremental && d.files == c.files && forall p :: p in d.paths ==> p in c.paths
    requires FineScan(d, Run(c, Init(c, db), acts).db, others)
    ensures Left(d, Run(c, Init(c, db), acts).db, others) == Left(c, db, acts)
  {
    var next := Run(c, Init(c, db), acts).db;
    ScanMeaning(d, next, others);
    var first, second := Left(c, db, acts), Left(d, next, others);
    forall p ensures RowOf(second, p) == RowOf(first, p) {
      if p in d.paths {
        StoredTimesAreNear(c, db, acts, p);
        assert PathAfter(d, first, second, p);
      }
    }
    hide FineScan, Left;
    assert forall p :: RowOf(second, p) == RowOf(first, p);
    SameRows(first, second);
  }

  lemma SameRows(a: map<string, Meta>, b: map<string, Meta>)
    requires forall p :: RowOf(b, p) == RowOf(a, p)
    ensures a == b
  {
    forall p ensures (p in a <==> p in b) && (p in a ==> a[p] == b[p]) {
      assert RowOf(b, p) == RowOf(a, p);
    }
  }

  /** A file whose modification time has since moved on by more than two seconds is read again: its row is made from
      the new file, onto the row it had. */
  lemma ChangedFileIsRescanned(c: Config, db: Db, acts: seq<Action>, d: Config, others: seq<Action>, p: string)
    requires FineScan(c, db, acts) && FineScan(d, Run(c, Init(c, db), acts).db, others)
    requires p in c.paths && p in d.paths && d.files(p).File? && c.files(p).File?
    requires d.files(p).mtime - c.files(p).mtime > 2_000_000_000
    ensures var first, second := Left(c, db, acts), Left(d, Run(c, Init(c, db), acts).db, others);
            Readable(d, p) && p in first && p in second && Rescanned(d, p, Some(first[p]), second[p])
  {
    var next := Run(c, Init(c, db), acts).db;
    ScanMeaning(d, next, others);
    StoredTimesAreNear(c, db, acts, p);
    var first, second := Left(c, db, acts), Left(d, next, others);
    assert PathAfter(d, first, second, p);
    hide FineScan, Left, Rescanned;
  }

  // ----- what a full scan counts

  ghost predicate NoneSkipped(s: State) {
    s.skipped == 0
    && forall i :: 0 <= i < |s.workers| && s.workers[i].Running? && s.workers[i].pc.Ended?
                   ==> !s.workers[i].pc.result.Skipped?
  }

  lemma WorkSkipsNone(c: Config, db: Db, p: string, pc: Pc, fault: Fault, cover: Id)
    requires !c.incremental && c.files(p).File? && !pc.Ended?
    ensures var pc' := Work(c, db, p, pc, fault, cover).1; pc'.Ended? ==> !pc'.result.Skipped?
  {
    hide UpsertArtist, UpsertAlbum, UpsertSong, MetaMap, Unchanged;
  }

  lemma StepSkipsNone(c: Config, before: map<string, Meta>, s: State, a: Action)
    requires Enabled(c, s, a) && PcsOk(c, before, MetaMap(s.db), s.workers) && !c.incremental && NoneSkipped(s)
    ensures NoneSkipped(Apply(c, s, a))
  {
    if a.DoWork? {
      var w := s.workers[a.w];
      assert PcOk(c, before, MetaMap(s.db), w.path, w.pc);
      WorkSkipsNone(c, s.db, w.path, w.pc, a.fault, a.cover);
    }
    hide Work, MetaMap, PcOk, PcsOk;
  }

  lemma {:induction false} RunSkipsNone(c: Config, before: map<string, Meta>, s: State, acts: seq<Action>)
    requires CanRun(c, s, acts) && AllFine(acts) && AllReadable(c) && ScanInv(c, before, s)
    requires !c.incremental && NoneSkipped(s)
    ensures NoneSkipped(Run(c, s, acts))
    decreases |acts|
  {
    hide ProtocolInv, StoreInv, PcsOk, RowOk, Settled, Enabled, Apply, NoneSkipped, MetaMap;
    if acts != [] {
      StepSkipsNone(c, before, s, acts[0]);
      OneStepSettles(c, before, s, acts);
      RunSkipsNone(c, before, Apply(c, s, acts[0]), acts[1..]);
    }
  }

  lemma OneStepSettles(c: Config, before: map<string, Meta>, s: State, acts: seq<Action>)
    requires acts != [] && CanRun(c, s, acts) && AllFine(acts) && AllReadable(c) && ScanInv(c, before, s)
    ensures ScanInv(c, before, Apply(c, s, acts[0])) && AllFine(acts[1..])
  {
    hide ScanInv, AllReadable, Enabled, Apply;
    var first := [acts[0]];
    assert first[1..] == [];
    assert CanRun(c, Apply(c, s, acts[0]), []);
    RunSettles(c, before, s, first);
  }

  /** A full scan without failures counts every path walked as scanned, and nothing as skipped or failed. */
  lemma FullScanCountsAll(c: Config, db: Db, acts: seq<Action>)
    requires FineScan(c, db, acts) && !c.incremental
    ensures var s := Run(c, Init(c, db), acts); s.scanned == |c.paths| && s.errors == 0 && s.skipped == 0
  {
    var s := Run(c, Init(c, db), acts);
    InitInv(c, db);
    InitConfluence(c, db);
    RunSettles(c, MetaMap(db), Init(c, db), acts);
    RunSkipsNone(c, MetaMap(db), Init(c, db), acts);
    assert Reachable(c, s);
    ReturnMeansProcessed(c, s);
    hide MetaMap, ProtocolInv, StoreInv, PcsOk, RowOk, Settled, Run, CanRun;
  }
}
