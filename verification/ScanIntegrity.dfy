/** Referential integrity through a scan: whatever the workers' interleaving, whichever statements fail and
    whenever the scan is cancelled, every song's artist, album artist and album exist, also after cleanup. */
module ScanIntegrity {
  import opened MusicTables
  import opened ScanMachine

  /** The ids a worker carries from one statement to the next name rows that exist. */
  ghost predicate CarriedIdsExist(db: Db, pc: Pc) {
    match pc
    case HasArtist(a) => a in db.artists
    case HasAlbumArtist(a, aa) => a in db.artists && aa in db.artists
    case HasAlbum(a, aa, al) => RefsHold(db.artists, db.albums, Refs(a, aa, al, 0))
    case _ => true
  }

  ghost predicate StoreInv(s: State) {
    && Integrity(s.db)
    && (forall i :: 0 <= i < |s.workers| && s.workers[i].Running? ==> CarriedIdsExist(s.db, s.workers[i].pc))
  }

  lemma GrowsKeepsCarried(db: Db, db': Db, pc: Pc)
    requires Grows(db, db') && CarriedIdsExist(db, pc)
    ensures CarriedIdsExist(db', pc)
  {
  }

  lemma UpsertsKeepIntegrity(c: Config, db: Db, p: string, f: File, t: Tags, pc: Pc, cover: Id)
    requires f.File? && Integrity(db) && CarriedIdsExist(db, pc)
    ensures var (db', pc') := Upserts(c, db, p, f, t, pc, cover);
            Integrity(db') && Grows(db, db') && CarriedIdsExist(db', pc')
  {
    match pc
    case Chosen => UpsertArtistKeepsIntegrity(db, ScannedArtist(ArtistName(t), t.kept.mbArtistId));
    case HasArtist(_) => UpsertArtistKeepsIntegrity(db, ScannedArtist(AlbumArtistName(t), t.kept.mbAlbumArtistId));
    case HasAlbumArtist(_, aa) => UpsertAlbumKeepsIntegrity(db, ScannedAlbum(t, aa));
    case HasAlbum(a, aa, al) => UpsertSongKeepsIntegrity(db, p, ScannedSong(c, f, t), Refs(a, aa, al, cover));
    case _ =>
  }

  lemma WorkKeepsIntegrity(c: Config, db: Db, p: string, pc: Pc, fault: Fault, cover: Id)
    requires Integrity(db) && CarriedIdsExist(db, pc)
    ensures var (db', pc') := Work(c, db, p, pc, fault, cover);
            Integrity(db') && Grows(db, db') && CarriedIdsExist(db', pc')
  {
    var f := c.files(p);
    if f.File? && f.tags.Done? {
      UpsertsKeepIntegrity(c, db, p, f, f.tags.value, pc, cover);
    }
    hide Integrity, Upserts;
  }

  lemma StepKeepsStore(c: Config, s: State, a: Action)
    requires Enabled(c, s, a) && StoreInv(s)
    ensures StoreInv(Apply(c, s, a))
  {
    var s' := Apply(c, s, a);
    hide Integrity, Work;
    if a.DoWork? {
      var w := s.workers[a.w];
      WorkKeepsIntegrity(c, s.db, w.path, w.pc, a.fault, a.cover);
      forall i | 0 <= i < |s'.workers| && s'.workers[i].Running? ensures CarriedIdsExist(s'.db, s'.workers[i].pc) {
        if i != a.w {
          GrowsKeepsCarried(s.db, s'.db, s.workers[i].pc);
        }
      }
    }
  }

  lemma {:induction false} RunKeepsStore(c: Config, s: State, acts: seq<Action>)
    requires CanRun(c, s, acts) && StoreInv(s)
    ensures StoreInv(Run(c, s, acts))
    decreases |acts|
  {
    hide StoreInv;
    if acts != [] {
      StepKeepsStore(c, s, acts[0]);
      RunKeepsStore(c, Apply(c, s, acts[0]), acts[1..]);
    }
  }

  /** At every moment of a library scan, interleaved in any way, all songs have their artist, album artist
      and album, the album belongs to the album artist, and all ids carried by workers are good. */
  lemma IntegrityThroughoutScan(c: Config, db: Db, acts: seq<Action>)
    requires CanRun(c, Init(c, db), acts) && Integrity(db)
    ensures StoreInv(Run(c, Init(c, db), acts))
  {
    RunKeepsStore(c, Init(c, db), acts);
  }

  // ----- a whole scan: the libraries one after another, then cleanup

  datatype LibraryRun = LibraryRun(config: Config, acts: seq<Action>)

  /** Each library's scan starts from the store the one before it left, and runs until it has returned. */
  ghost predicate ScansOf(db: Db, runs: seq<LibraryRun>)
    decreases |runs|
  {
    runs == [] ||
    var r := runs[0];
    && CanRun(r.config, Init(r.config, db), r.acts)
    && Run(r.config, Init(r.config, db), r.acts).main.Returned?
    && ScansOf(Run(r.config, Init(r.config, db), r.acts).db, runs[1..])
  }

  ghost function AfterScans(db: Db, runs: seq<LibraryRun>): Db
    requires ScansOf(db, runs)
    decreases |runs|
  {
    if runs == [] then db
    else AfterScans(Run(runs[0].config, Init(runs[0].config, db), runs[0].acts).db, runs[1..])
  }

  /** The three cleanup statements; each may fail, which is only logged. */
  function Cleanup(db: Db, artistsFail: bool, albumsFail: bool, missingFail: bool): Db {
    var d1 := if artistsFail then db else DeleteArtistsWithNoSongs(db);
    var d2 := if albumsFail then d1 else DeleteAlbumsWithNoSongs(d1);
    if missingFail then d2 else DeleteMissingSongs(d2)
  }

  lemma {:induction false} ScansKeepIntegrity(db: Db, runs: seq<LibraryRun>)
    requires Integrity(db) && ScansOf(db, runs)
    ensures Integrity(AfterScans(db, runs))
    decreases |runs|
  {
    hide Integrity;
    if runs != [] {
      IntegrityThroughoutScan(runs[0].config, db, runs[0].acts);
      ScansKeepIntegrity(Run(runs[0].config, Init(runs[0].config, db), runs[0].acts).db, runs[1..]);
    }
  }

  /** Cleanup after any scans, whichever of its statements fail: every song left still has its artist, album
      artist and album; only artists and albums no song named have gone, and of songs only the missing. */
  lemma ScanKeepsIntegrity(db: Db, runs: seq<LibraryRun>, artistsFail: bool, albumsFail: bool, missingFail: bool)
    requires Integrity(db) && ScansOf(db, runs)
    ensures var before := AfterScans(db, runs);
            var after := Cleanup(before, artistsFail, albumsFail, missingFail);
            && Integrity(after)
            && ArtistsOfSongs(before.songs) <= after.artists.Keys <= before.artists.Keys
            && AlbumsOfSongs(before.songs) <= after.albums.Keys <= before.albums.Keys
            && (forall id :: id in before.songs ==> (id in after.songs <==> missingFail || !before.songs[id].missing))
            && (forall id :: id in after.songs ==> id in before.songs && after.songs[id] == before.songs[id])
  {
    ScansKeepIntegrity(db, runs);
    var before := AfterScans(db, runs);
    CleanupMeaning(before, artistsFail, albumsFail, missingFail);
  }

  lemma CleanupMeaning(db: Db, artistsFail: bool, albumsFail: bool, missingFail: bool)
    requires Integrity(db)
    ensures var after := Cleanup(db, artistsFail, albumsFail, missingFail);
            && Integrity(after)
            && ArtistsOfSongs(db.songs) <= after.artists.Keys <= db.artists.Keys
            && AlbumsOfSongs(db.songs) <= after.albums.Keys <= db.albums.Keys
            && (!artistsFail ==> after.artists.Keys == ArtistsOfSongs(db.songs))
            && (!albumsFail ==> after.albums.Keys == AlbumsOfSongs(db.songs))
            && (artistsFail ==> after.artists == db.artists)
            && (albumsFail ==> forall id :: id in after.albums <==>
                  id in db.albums && (artistsFail || db.albums[id].artistId in ArtistsOfSongs(db.songs)))
            && (forall id :: id in db.songs ==> (id in after.songs <==> missingFail || !db.songs[id].missing))
            && (forall id :: id in after.songs ==> id in db.songs && after.songs[id] == db.songs[id])
  {
    NamedRowsExist(db);
    DeleteArtistsKeepsIntegrity(db);
    var d1 := if artistsFail then db else DeleteArtistsWithNoSongs(db);
    assert d1.songs == db.songs;
    DeleteAlbumsKeepsIntegrity(d1);
    var d2 := if albumsFail then d1 else DeleteAlbumsWithNoSongs(d1);
    DeleteMissingKeepsIntegrity(d2);
    hide Integrity, DeleteArtistsWithNoSongs, DeleteAlbumsWithNoSongs, DeleteMissingSongs, ArtistsOfSongs, AlbumsOfSongs;
  }
}
