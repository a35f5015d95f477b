/** What a scan leaves in the song table depends on the set of walked paths only: not on the order in which
    workers get to them, nor on how often the walk emits them. */
module ScanConfluence {
  import opened MusicTables
  import opened SongMetadata
  import opened ScanMachine
  import opened ScanProtocol
  import opened ScanIntegrity

  /** Every walked file can be read and its tags parse. */
  ghost predicate AllReadable(c: Config) {
    forall p :: p in c.paths ==> Readable(c, p)
  }

  /** No statement fails and nothing is cancelled. */
  ghost predicate AllFine(acts: seq<Action>) {
    forall i :: 0 <= i < |acts| ==> !acts[i].Cancel? && (acts[i].DoWork? ==> acts[i].fault.Fine?)
  }

  ghost predicate Readable(c: Config, p: string) {
    c.files(p).File? && c.files(p).tags.Done?
  }

  ghost function Incoming(c: Config, p: string): Meta
    requires Readable(c, p)
  {
    ScannedSong(c, c.files(p), c.files(p).tags.value)
  }

  /** The incremental mode leaves the row alone. */
  ghost predicate Spared(c: Config, mm: map<string, Meta>, p: string)
    requires Readable(c, p)
  {
    c.incremental && Unchanged(mm, p, c.files(p).mtime)
  }

  /** What a scan makes of path p, given what was stored before the scan. */
  ghost function Final(c: Config, before: map<string, Meta>, p: string): Meta
    requires Readable(c, p)
  {
    if Spared(c, before, p) then before[p] else Put(before, p, Incoming(c, p))[p]
  }

  ghost predicate Untouched(before: map<string, Meta>, mm: map<string, Meta>, p: string) {
    (p in mm <==> p in before) && (p in mm ==> mm[p] == before[p])
  }

  ghost predicate Settled(c: Config, before: map<string, Meta>, mm: map<string, Meta>, p: string) {
    p in c.paths && Readable(c, p) && p in mm && mm[p] == Final(c, before, p)
  }

  /** A path's row is either as before or final; it is only rewritten when it is not spared. */
  ghost predicate RowOk(c: Config, before: map<string, Meta>, mm: map<string, Meta>, p: string) {
    Untouched(before, mm, p) || (Settled(c, before, mm, p) && !Spared(c, before, p))
  }

  ghost predicate PcOk(c: Config, before: map<string, Meta>, mm: map<string, Meta>, p: string, pc: Pc) {
    && p in c.paths && Readable(c, p)
    && (if pc.Ended? then pc.result != Errored && Settled(c, before, mm, p)
        else !pc.Start? ==> !Spared(c, before, p))
  }

  ghost predicate ConfluenceInv(c: Config, before: map<string, Meta>, s: State) {
    var mm := MetaMap(s.db);
    && (forall p :: RowOk(c, before, mm, p))
    && PcsOk(c, before, mm, s.workers)
    && (forall p :: p in s.finished ==> Settled(c, before, mm, p))
    && !s.cancelled && s.errors == 0
  }

  // ----- one statement

  lemma ChooseOk(c: Config, before: map<string, Meta>, mm: map<string, Meta>, p: string)
    requires p in c.paths && Readable(c, p) && RowOk(c, before, mm, p)
    ensures PcOk(c, before, mm, p, Choose(c, mm, p, Fine))
  {
  }

  /** The song upsert settles the row, whether or not another worker settled it before. */
  lemma PutSettles(c: Config, before: map<string, Meta>, mm: map<string, Meta>, p: string)
    requires p in c.paths && Readable(c, p) && RowOk(c, before, mm, p) && !Spared(c, before, p)
    ensures var mm' := Put(mm, p, Incoming(c, p)); Settled(c, before, mm', p)
  {
    var m := Incoming(c, p);
    if p in before {
      MergeTwice(before[p], m);
    }
    MergeTwice(m, m);
    hide MergeMeta, ScannedSong;
  }

  /** The statements before the last leave songs alone and do not fail. */
  lemma EarlyUpserts(c: Config, db: Db, p: string, pc: Pc, cover: Id)
    requires Readable(c, p) && Integrity(db) && CarriedIdsExist(db, pc)
    requires pc.Chosen? || pc.HasArtist? || pc.HasAlbumArtist?
    ensures var f := c.files(p);
            var (db', pc') := Upserts(c, db, p, f, f.tags.value, pc, cover);
            && !pc'.Ended? && !pc'.Start?
            && db'.songs == db.songs && db'.songIndex == db.songIndex
  {
    var t := c.files(p).tags.value;
    match pc
    case Chosen => UpsertArtistKeepsIntegrity(db, ScannedArtist(ArtistName(t), t.kept.mbArtistId));
    case HasArtist(_) => UpsertArtistKeepsIntegrity(db, ScannedArtist(AlbumArtistName(t), t.kept.mbAlbumArtistId));
    case HasAlbumArtist(_, aa) => UpsertAlbumKeepsIntegrity(db, ScannedAlbum(t, aa));
    hide Integrity, UpsertArtist, UpsertAlbum, UpsertSong, Grows;
  }

  lemma LastUpsert(c: Config, db: Db, p: string, pc: Pc, cover: Id)
    requires Readable(c, p) && Integrity(db) && pc.HasAlbum?
    ensures var f := c.files(p);
            var (db', pc') := Upserts(c, db, p, f, f.tags.value, pc, cover);
            pc' == Ended(Scanned) && MetaMap(db') == Put(MetaMap(db), p, Incoming(c, p))
  {
    UpsertSongPuts(db, p, Incoming(c, p), Refs(pc.artist, pc.albumArtist, pc.album, cover));
    hide UpsertSong, MetaMap, MergeMeta, ScannedSong, Integrity;
  }

  lemma {:induction false} HandsIn(ws: seq<Worker>, i: nat)
    requires i < |ws| && (ws[i].Picked? || ws[i].Running?)
    ensures Hands(ws, ws[i].path) > 0
  {
    if i > 0 {
      HandsIn(ws[1..], i - 1);
    }
  }

  /** What a worker holds has been walked. */
  lemma HeldPathsAreWalked(c: Config, s: State, i: nat)
    requires ProtocolInv(c, s) && i < |s.workers| && (s.workers[i].Picked? || s.workers[i].Running?)
    ensures s.workers[i].path in c.paths
  {
    var p := s.workers[i].path;
    HandsIn(s.workers, i);
    assert Count(s.walked, p) == Occurrences(s, p) > 0;
    assert p in s.walked;
    assert s.walked <= c.paths;
  }

  /** What one statement does to the metadata and leaves as the next program point. */
  ghost predicate StepOk(c: Config, before: map<string, Meta>, mm: map<string, Meta>, p: string, mm': map<string, Meta>, pc': Pc) {
    && PcOk(c, before, mm', p, pc') && RowOk(c, before, mm', p)
    && (Settled(c, before, mm, p) ==> Settled(c, before, mm', p))
    && (forall q :: q != p ==> Untouched(mm, mm', q))
  }

  lemma LastWorkOk(c: Config, before: map<string, Meta>, mm: map<string, Meta>, p: string)
    requires p in c.paths && Readable(c, p) && RowOk(c, before, mm, p) && !Spared(c, before, p)
    ensures StepOk(c, before, mm, p, Put(mm, p, Incoming(c, p)), Ended(Result.Scanned))
  {
    PutSettles(c, before, mm, p);
    hide Final, Incoming, MergeMeta, Spared;
  }

  lemma EarlyWorkOk(c: Config, before: map<string, Meta>, mm: map<string, Meta>, p: string, pc: Pc, pc': Pc)
    requires RowOk(c, before, mm, p) && PcOk(c, before, mm, p, pc) && !pc.Start? && !pc.Ended?
    requires !pc'.Start? && !pc'.Ended?
    ensures StepOk(c, before, mm, p, mm, pc')
  {
    hide Final, Spared, Readable;
  }

  lemma WorkOk(c: Config, before: map<string, Meta>, db: Db, p: string, pc: Pc, cover: Id)
    requires Integrity(db) && CarriedIdsExist(db, pc) && !pc.Ended?
    requires RowOk(c, before, MetaMap(db), p) && PcOk(c, before, MetaMap(db), p, pc)
    ensures var (db', pc') := Work(c, db, p, pc, Fine, cover);
            StepOk(c, before, MetaMap(db), p, MetaMap(db'), pc')
  {
    var mm := MetaMap(db);
    var (db', pc') := Work(c, db, p, pc, Fine, cover);
    if pc.Start? {
      ChooseOk(c, before, mm, p);
    } else if pc.HasAlbum? {
      LastUpsert(c, db, p, pc, cover);
      LastWorkOk(c, before, mm, p);
    } else {
      EarlyUpserts(c, db, p, pc, cover);
      assert MetaMap(db') == mm;
      EarlyWorkOk(c, before, mm, p, pc, pc');
    }
    hide Integrity, Choose, Upserts, Settled, RowOk, PcOk, Incoming, MetaMap, MergeMeta, Spared, CarriedIdsExist;
  }

  // ----- a whole library scan

  lemma UntouchedKeeps(c: Config, before: map<string, Meta>, mm: map<string, Meta>, mm': map<string, Meta>, q: string)
    requires Untouched(mm, mm', q)
    ensures RowOk(c, before, mm, q) ==> RowOk(c, before, mm', q)
    ensures Settled(c, before, mm, q) ==> Settled(c, before, mm', q)
  {
  }

  /** One row changes, and stays in order; so do all the others. */
  lemma RowsKeep(c: Config, before: map<string, Meta>, mm: map<string, Meta>, mm': map<string, Meta>, p: string)
    requires forall q :: RowOk(c, before, mm, q)
    requires forall q :: q != p ==> Untouched(mm, mm', q)
    requires RowOk(c, before, mm', p) && (Settled(c, before, mm, p) ==> Settled(c, before, mm', p))
    ensures forall q :: RowOk(c, before, mm', q)
    ensures forall q :: Settled(c, before, mm, q) ==> Settled(c, before, mm', q)
  {
    hide Final, Spared, Readable;
    forall q ensures RowOk(c, before, mm', q) && (Settled(c, before, mm, q) ==> Settled(c, before, mm', q)) {
      if q != p {
        UntouchedKeeps(c, before, mm, mm', q);
      }
    }
  }

  ghost predicate PcsOk(c: Config, before: map<string, Meta>, mm: map<string, Meta>, ws: seq<Worker>) {
    forall i :: 0 <= i < |ws| && ws[i].Running? ==> PcOk(c, before, mm, ws[i].path, ws[i].pc)
  }

  lemma PcsKeep(c: Config, before: map<string, Meta>, mm: map<string, Meta>, mm': map<string, Meta>,
                ws: seq<Worker>, w: nat, p: string, pc': Pc)
    requires w < |ws| && PcsOk(c, before, mm, ws) && PcOk(c, before, mm', p, pc')
    requires forall q :: Settled(c, before, mm, q) ==> Settled(c, before, mm', q)
    ensures PcsOk(c, before, mm', ws[w := Running(p, pc')])
  {
    hide Settled, Spared;
  }

  lemma WorkStepKeeps(c: Config, before: map<string, Meta>, s: State, w: nat, cover: Id)
    requires Enabled(c, s, DoWork(w, Fine, cover)) && StoreInv(s) && ConfluenceInv(c, before, s)
    ensures ConfluenceInv(c, before, Apply(c, s, DoWork(w, Fine, cover)))
  {
    var p, pc := s.workers[w].path, s.workers[w].pc;
    var (db', pc') := Work(c, s.db, p, pc, Fine, cover);
    var mm, mm' := MetaMap(s.db), MetaMap(db');
    assert RowOk(c, before, mm, p) && PcOk(c, before, mm, p, pc) && CarriedIdsExist(s.db, pc);
    WorkOk(c, before, s.db, p, pc, cover);
    RowsKeep(c, before, mm, mm', p);
    PcsKeep(c, before, mm, mm', s.workers, w, p, pc');
    hide Integrity, Work, MetaMap, Settled, RowOk, PcOk, CarriedIdsExist;
  }

  lemma BeginKeeps(c: Config, before: map<string, Meta>, s: State, w: nat)
    requires Enabled(c, s, Begin(w)) && ProtocolInv(c, s) && ConfluenceInv(c, before, s) && AllReadable(c)
    ensures ConfluenceInv(c, before, Apply(c, s, Begin(w)))
  {
    var p := s.workers[w].path;
    HeldPathsAreWalked(c, s, w);
    assert PcOk(c, before, MetaMap(s.db), p, Start);
    hide ProtocolInv, Settled, RowOk, PcOk, MetaMap;
  }

  lemma OtherStepKeeps(c: Config, before: map<string, Meta>, s: State, a: Action)
    requires Enabled(c, s, a) && ConfluenceInv(c, before, s)
    requires !a.Cancel? && !a.DoWork? && !a.Begin?
    ensures ConfluenceInv(c, before, Apply(c, s, a))
  {
    hide ProtocolInv, Settled, RowOk, MetaMap, Spared;
  }

  ghost predicate ScanInv(c: Config, before: map<string, Meta>, s: State) {
    ProtocolInv(c, s) && StoreInv(s) && ConfluenceInv(c, before, s)
  }

  lemma {:induction false} RunSettles(c: Config, before: map<string, Meta>, s: State, acts: seq<Action>)
    requires CanRun(c, s, acts) && AllFine(acts) && AllReadable(c) && ScanInv(c, before, s)
    ensures ScanInv(c, before, Run(c, s, acts))
    decreases |acts|
  {
    if acts != [] {
      var a := acts[0];
      StepKeepsInv(c, s, a);
      StepKeepsStore(c, s, a);
      if a.DoWork? {
        WorkStepKeeps(c, before, s, a.w, a.cover);
      } else if a.Begin? {
        BeginKeeps(c, before, s, a.w);
      } else {
        OtherStepKeeps(c, before, s, a);
      }
      hide ProtocolInv, StoreInv, ConfluenceInv, Apply;
      RunSettles(c, before, Apply(c, s, a), acts[1..]);
    }
  }

  /** The song table after a scan: every walked path final, every other path as before. */
  ghost predicate TableAfter(c: Config, before: map<string, Meta>, after: map<string, Meta>) {
    && (forall p :: p in c.paths ==> Settled(c, before, after, p))
    && (forall p :: p !in c.paths ==> Untouched(before, after, p))
  }

  /** A scan that is not cancelled and in which nothing fails leaves each walked path's row final and every
      other row alone, and counts no error. */
  lemma ScanSettles(c: Config, db: Db, acts: seq<Action>)
    requires CanRun(c, Init(c, db), acts) && AllFine(acts) && AllReadable(c) && Integrity(db) && c.workers > 0
    requires Run(c, Init(c, db), acts).main.Returned?
    ensures TableAfter(c, MetaMap(db), MetaMap(Run(c, Init(c, db), acts).db))
    ensures Run(c, Init(c, db), acts).errors == 0
  {
    var before, s := MetaMap(db), Run(c, Init(c, db), acts);
    InitInv(c, db);
    InitConfluence(c, db);
    RunSettles(c, before, Init(c, db), acts);
    assert Reachable(c, s);
    ReturnMeansProcessed(c, s);
    EveryRowSettled(c, before, s);
    hide *;
  }

  lemma InitConfluence(c: Config, db: Db)
    requires Integrity(db)
    ensures StoreInv(Init(c, db)) && ConfluenceInv(c, MetaMap(db), Init(c, db))
  {
    hide MetaMap, Integrity, Settled;
  }

  lemma EveryRowSettled(c: Config, before: map<string, Meta>, s: State)
    requires ScanInv(c, before, s) && (!s.cancelled ==> multiset(s.finished) == multiset(c.paths))
    ensures TableAfter(c, before, MetaMap(s.db)) && s.errors == 0
  {
    hide Settled, MetaMap, ProtocolInv, StoreInv;
    var mm := MetaMap(s.db);
    forall p | p in c.paths ensures Settled(c, before, mm, p) {
      assert p in multiset(s.finished);
    }
    forall p | p !in c.paths ensures Untouched(before, mm, p) {
      NotWalked(c, before, mm, p);
    }
  }

  lemma NotWalked(c: Config, before: map<string, Meta>, mm: map<string, Meta>, p: string)
    requires RowOk(c, before, mm, p) && p !in c.paths
    ensures Untouched(before, mm, p)
  {
  }

  /** Two scans of the same library from the same store, with the same set of walked paths, leave the same
      metadata, however many workers there are, in whatever order they ran, and however often each path was
      emitted. */
  lemma ScanIsConfluent(c: Config, d: Config, db: Db, acts: seq<Action>, others: seq<Action>)
    requires d.files == c.files && d.libraryId == c.libraryId && d.incremental == c.incremental
    requires forall p :: p in c.paths <==> p in d.paths
    requires AllReadable(c) && Integrity(db) && c.workers > 0 && d.workers > 0
    requires CanRun(c, Init(c, db), acts) && AllFine(acts) && Run(c, Init(c, db), acts).main.Returned?
    requires CanRun(d, Init(d, db), others) && AllFine(others) && Run(d, Init(d, db), others).main.Returned?
    ensures MetaMap(Run(c, Init(c, db), acts).db) == MetaMap(Run(d, Init(d, db), others).db)
  {
    ScanSettles(c, db, acts);
    ScanSettles(d, db, others);
    var before := MetaMap(db);
    TableAfterIsUnique(c, d, before, MetaMap(Run(c, Init(c, db), acts).db), MetaMap(Run(d, Init(d, db), others).db));
  }

  lemma TableAfterIsUnique(c: Config, d: Config, before: map<string, Meta>, mm: map<string, Meta>, nn: map<string, Meta>)
    requires d.files == c.files && d.libraryId == c.libraryId && d.incremental == c.incremental
    requires forall p :: p in c.paths <==> p in d.paths
    requires TableAfter(c, before, mm) && TableAfter(d, before, nn)
    ensures mm == nn
  {
    forall p ensures (p in mm <==> p in nn) && (p in mm ==> mm[p] == nn[p]) {
      if p in c.paths {
        assert Settled(c, before, mm, p) && Settled(d, before, nn, p);
        SameFinal(c, d, before, p);
      } else {
        assert Untouched(before, mm, p) && Untouched(before, nn, p);
      }
    }
  }

  lemma SameFinal(c: Config, d: Config, before: map<string, Meta>, p: string)
    requires d.files == c.files && d.libraryId == c.libraryId && d.incremental == c.incremental && Readable(c, p)
    ensures Final(c, before, p) == Final(d, before, p)
  {
  }
}
