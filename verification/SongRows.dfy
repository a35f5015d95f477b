/** Which song rows a scan removes: those marked missing before it started, and no others. No part of the program
    marks a row, so no scan removes one. */
module SongRows {
  import opened MusicTables
  import opened ScanMachine
  import opened ScanIntegrity

  /** Every row stays, with its path and its mark, and rows that are new are unmarked. */
  ghost predicate SongsStay(songs: map<Id, Song>, songs': map<Id, Song>) {
    && (forall id :: id in songs ==>
          id in songs' && songs'[id].path == songs[id].path && songs'[id].missing == songs[id].missing)
    && (forall id :: id in songs' && id !in songs ==> !songs'[id].missing)
  }

  predicate NoneMissing(songs: map<Id, Song>) {
    forall id :: id in songs ==> !songs[id].missing
  }

  lemma StayAndStay(a: map<Id, Song>, b: map<Id, Song>, c: map<Id, Song>)
    requires SongsStay(a, b) && SongsStay(b, c)
    ensures SongsStay(a, c)
  {
  }

  lemma UpsertSongStays(db: Db, path: string, meta: Meta, refs: Refs)
    requires Indexed(db.songs, db.songIndex, db.nextSong, SongKey)
    ensures SongsStay(db.songs, UpsertSong(db, path, meta, refs).0.songs)
  {
    hide MergeMeta;
  }

  lemma ArtistKeepsSongs(db: Db, a: Artist)
    ensures UpsertArtist(db, a).0.songs == db.songs
  {
    hide MergeArtist;
  }

  lemma AlbumKeepsSongs(db: Db, a: Album)
    ensures UpsertAlbum(db, a).0.songs == db.songs
  {
    hide MergeAlbum;
  }

  lemma UpsertsStay(c: Config, db: Db, p: string, f: File, t: Tags, pc: Pc, cover: Id)
    requires f.File? && Indexed(db.songs, db.songIndex, db.nextSong, SongKey)
    ensures SongsStay(db.songs, Upserts(c, db, p, f, t, pc, cover).0.songs)
  {
    hide UpsertSong, SongsStay, UpsertArtist, UpsertAlbum, ScannedArtist, ScannedAlbum, ScannedSong, ArtistName,
         AlbumArtistName, Indexed;
    StayUnchanged(db.songs);
    match pc
    case Chosen => ArtistKeepsSongs(db, ScannedArtist(ArtistName(t), t.kept.mbArtistId));
    case HasArtist(_) => ArtistKeepsSongs(db, ScannedArtist(AlbumArtistName(t), t.kept.mbAlbumArtistId));
    case HasAlbumArtist(_, aa) => AlbumKeepsSongs(db, ScannedAlbum(t, aa));
    case HasAlbum(a, aa, al) => UpsertSongStays(db, p, ScannedSong(c, f, t), Refs(a, aa, al, cover));
    case _ =>
  }

  lemma StayUnchanged(songs: map<Id, Song>)
    ensures SongsStay(songs, songs)
  {
  }

  /** No store statement of a scan removes or marks a song row. */
  lemma WorkStays(c: Config, db: Db, p: string, pc: Pc, fault: Fault, cover: Id)
    requires Integrity(db)
    ensures SongsStay(db.songs, Work(c, db, p, pc, fault, cover).0.songs)
  {
    var f := c.files(p);
    if f.File? && f.tags.Done? {
      UpsertsStay(c, db, p, f, f.tags.value, pc, cover);
    }
    StayUnchanged(db.songs);
    hide Upserts, Choose, Integrity, SongsStay;
  }

  lemma {:induction false} RunStays(c: Config, s: State, acts: seq<Action>)
    requires CanRun(c, s, acts) && StoreInv(s)
    ensures SongsStay(s.db.songs, Run(c, s, acts).db.songs)
    decreases |acts|
  {
    if acts != [] {
      hide SongsStay, StoreInv, Enabled, Apply;
      var s' := Apply(c, s, acts[0]);
      StepStays(c, s, acts[0]);
      StepKeepsStore(c, s, acts[0]);
      RunStays(c, s', acts[1..]);
      StayAndStay(s.db.songs, s'.db.songs, Run(c, s, acts).db.songs);
    } else {
      StayUnchanged(s.db.songs);
    }
  }

  lemma OnlyWorkWrites(c: Config, s: State, a: Action)
    requires Enabled(c, s, a)
    ensures Apply(c, s, a).db ==
            if a.DoWork? then Work(c, s.db, s.workers[a.w].path, s.workers[a.w].pc, a.fault, a.cover).0 else s.db
  {
    hide Work;
  }

  lemma StepStays(c: Config, s: State, a: Action)
    requires Enabled(c, s, a) && StoreInv(s)
    ensures SongsStay(s.db.songs, Apply(c, s, a).db.songs)
  {
    OnlyWorkWrites(c, s, a);
    hide Apply, Work, SongsStay, Integrity;
    if a.DoWork? {
      WorkStays(c, s.db, s.workers[a.w].path, s.workers[a.w].pc, a.fault, a.cover);
    } else {
      StayUnchanged(s.db.songs);
    }
  }

  lemma {:induction false} ScansStay(db: Db, runs: seq<LibraryRun>)
    requires Integrity(db) && ScansOf(db, runs)
    ensures SongsStay(db.songs, AfterScans(db, runs).songs)
    decreases |runs|
  {
    if runs != [] {
      var c, acts := runs[0].config, runs[0].acts;
      var db' := Run(c, Init(c, db), acts).db;
      IntegrityThroughoutScan(c, db, acts);
      StartsGood(c, db);
      RunStays(c, Init(c, db), acts);
      ScansStay(db', runs[1..]);
      hide SongsStay, Integrity, Run, CanRun, Init;
      StayAndStay(db.songs, db'.songs, AfterScans(db, runs).songs);
    }
  }

  lemma StartsGood(c: Config, db: Db)
    requires Integrity(db)
    ensures StoreInv(Init(c, db)) && Init(c, db).db == db
  {
  }

  /** The scans of all enabled libraries, and how the three cleanup statements go. */
  datatype FullScan = FullScan(runs: seq<LibraryRun>, artistsFail: bool, albumsFail: bool, missingFail: bool)

  ghost function AfterScan(db: Db, f: FullScan): Db
    requires ScansOf(db, f.runs)
  {
    Cleanup(AfterScans(db, f.runs), f.artistsFail, f.albumsFail, f.missingFail)
  }

  /** Adding unmarked rows and then cutting the marked ones away, or not. */
  lemma CutAfterStay(a: map<Id, Song>, b: map<Id, Song>, c: map<Id, Song>, uncut: bool)
    requires SongsStay(a, b)
    requires forall id :: id in b ==> (id in c <==> uncut || !b[id].missing)
    requires forall id :: id in c ==> id in b && c[id] == b[id]
    ensures forall id :: id in a ==> (id in c <==> uncut || !a[id].missing)
    ensures forall id :: id in b && id !in a ==> id in c
    ensures forall id :: id in c && id in a ==> c[id].path == a[id].path && c[id].missing == a[id].missing
    ensures forall id :: id in c && id !in a ==> !c[id].missing
  {
  }

  /** Of the rows there before a full scan, whatever happens in it, exactly those marked missing go, if the
      statement that deletes them succeeds; a file that is scanned again does not save its row. Rows that are
      added stay. */
  lemma RowStaysIff(db: Db, f: FullScan)
    requires Integrity(db) && ScansOf(db, f.runs)
    ensures var after := AfterScan(db, f);
            && Integrity(after)
            && (forall id :: id in db.songs ==> (id in after.songs <==> f.missingFail || !db.songs[id].missing))
            && (forall id :: id in AfterScans(db, f.runs).songs && id !in db.songs ==> id in after.songs)
            && (forall id :: id in after.songs && id in db.songs ==>
                  after.songs[id].path == db.songs[id].path && after.songs[id].missing == db.songs[id].missing)
            && (forall id :: id in after.songs && id !in db.songs ==> !after.songs[id].missing)
  {
    ScansStay(db, f.runs);
    ScanKeepsIntegrity(db, f.runs, f.artistsFail, f.albumsFail, f.missingFail);
    CutAfterStay(db.songs, AfterScans(db, f.runs).songs, AfterScan(db, f).songs, f.missingFail);
    hide *;
  }

  // ----- any number of full scans

  ghost predicate FullScansOf(db: Db, fs: seq<FullScan>)
    decreases |fs|
  {
    fs == [] || (ScansOf(db, fs[0].runs) && FullScansOf(AfterScan(db, fs[0]), fs[1..]))
  }

  ghost function AfterFullScans(db: Db, fs: seq<FullScan>): Db
    requires FullScansOf(db, fs)
    decreases |fs|
  {
    if fs == [] then db else AfterFullScans(AfterScan(db, fs[0]), fs[1..])
  }

  /** From a store without marks, as the program always has it, any number of scans leave it without marks and
      never remove a song row: the row of a file that has gone from disk stays. */
  lemma {:induction false} SongsAreNeverRemoved(db: Db, fs: seq<FullScan>)
    requires Integrity(db) && NoneMissing(db.songs) && FullScansOf(db, fs)
    ensures var after := AfterFullScans(db, fs);
            && Integrity(after) && NoneMissing(after.songs)
            && (forall id :: id in db.songs ==> id in after.songs && after.songs[id].path == db.songs[id].path)
    decreases |fs|
  {
    if fs != [] {
      var next := AfterScan(db, fs[0]);
      RowStaysIff(db, fs[0]);
      hide Integrity, AfterScan;
      SongsAreNeverRemoved(next, fs[1..]);
    }
  }
}
