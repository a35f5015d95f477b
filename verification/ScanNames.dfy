/** A scan links songs to the right rows: every song's artist, album artist and album are the ones its own metadata
    names, whatever the workers' interleaving and whichever statements fail. */
module ScanNames {
  import opened Text
  import opened MusicTables
  import opened ScanMachine
  import opened ScanIntegrity

  /** The artist is called so, up to ASCII case. */
  ghost predicate IsArtist(artists: map<Id, Artist>, id: Id, name: string) {
    id in artists && ArtistKey(artists[id]) == AsciiLower(name)
  }

  ghost predicate IsAlbum(albums: map<Id, Album>, id: Id, title: string) {
    id in albums && albums[id].title == title
  }

  /** The references lead to the rows that the names in the metadata mean. */
  ghost predicate RefsMatch(artists: map<Id, Artist>, albums: map<Id, Album>, r: Refs, m: Plain) {
    IsArtist(artists, r.artistId, m.artistName) && IsArtist(artists, r.albumArtistId, m.albumArtistName)
    && IsAlbum(albums, r.albumId, m.albumName)
  }

  ghost predicate SongsMatch(songs: map<Id, Song>, artists: map<Id, Artist>, albums: map<Id, Album>) {
    forall id :: id in songs ==> RefsMatch(artists, albums, songs[id].refs, songs[id].meta.plain)
  }

  ghost predicate Linked(db: Db) {
    SongsMatch(db.songs, db.artists, db.albums)
  }

  /** The ids a worker carries are those of the rows its file's tags name. */
  ghost predicate CarriedMatch(c: Config, db: Db, p: string, pc: Pc) {
    (pc.HasArtist? || pc.HasAlbumArtist? || pc.HasAlbum? ==>
       && c.files(p).File? && c.files(p).tags.Done?
       && IsArtist(db.artists, pc.artist, ArtistName(c.files(p).tags.value)))
    && (pc.HasAlbumArtist? || pc.HasAlbum? ==>
       IsArtist(db.artists, pc.albumArtist, AlbumArtistName(c.files(p).tags.value)))
    && (pc.HasAlbum? ==> IsAlbum(db.albums, pc.album, AlbumName(c.files(p).tags.value)))
  }

  /** Rows keep their names. */
  ghost predicate NamesStay(db: Db, db': Db) {
    && (forall id :: id in db.artists ==> id in db'.artists && ArtistKey(db'.artists[id]) == ArtistKey(db.artists[id]))
    && (forall id :: id in db.albums ==> id in db'.albums && db'.albums[id].title == db.albums[id].title)
  }

  lemma NamesStayKeepsMatches(db: Db, db': Db, songs: map<Id, Song>)
    requires NamesStay(db, db') && SongsMatch(songs, db.artists, db.albums)
    ensures SongsMatch(songs, db'.artists, db'.albums)
  {
  }

  lemma NamesStayKeepsCarried(c: Config, db: Db, db': Db, p: string, pc: Pc)
    requires NamesStay(db, db') && CarriedMatch(c, db, p, pc)
    ensures CarriedMatch(c, db', p, pc)
  {
    hide ArtistName, AlbumArtistName, AlbumName;
  }

  // ----- the statements

  lemma ArtistKeepsNames(db: Db, a: Artist)
    requires Integrity(db) && Linked(db)
    ensures var (db', id) := UpsertArtist(db, a);
            NamesStay(db, db') && Linked(db') && IsArtist(db'.artists, id, a.name)
  {
    UpsertArtistKeepsIntegrity(db, a);
    var db' := UpsertArtist(db, a).0;
    hide SongsHaveRefs, AlbumsHaveArtists, SongsMatch, Grows;
    assert NamesStay(db, db');
    NamesStayKeepsMatches(db, db', db.songs);
  }

  lemma AlbumKeepsNames(db: Db, a: Album)
    requires Integrity(db) && Linked(db) && a.artistId in db.artists
    ensures var (db', r) := UpsertAlbum(db, a);
            NamesStay(db, db') && Linked(db') && r.Done? && IsAlbum(db'.albums, r.value, a.title)
  {
    UpsertAlbumKeepsIntegrity(db, a);
    var db' := UpsertAlbum(db, a).0;
    hide SongsHaveRefs, AlbumsHaveArtists, SongsMatch, Grows;
    assert NamesStay(db, db');
    NamesStayKeepsMatches(db, db', db.songs);
  }

  lemma SongKeepsLinks(db: Db, path: string, meta: Meta, refs: Refs)
    requires Linked(db) && RefsMatch(db.artists, db.albums, refs, meta.plain)
    ensures var db' := UpsertSong(db, path, meta, refs).0; NamesStay(db, db') && Linked(db')
  {
    hide IsArtist, IsAlbum, MergeProtected;
  }

  lemma FirstLinks(c: Config, db: Db, p: string, pc: Pc, cover: Id)
    requires pc.Chosen? || pc.HasArtist?
    requires c.files(p).File? && c.files(p).tags.Done?
    requires Integrity(db) && CarriedIdsExist(db, pc) && Linked(db) && CarriedMatch(c, db, p, pc)
    ensures var (db', pc') := Upserts(c, db, p, c.files(p), c.files(p).tags.value, pc, cover);
            NamesStay(db, db') && Linked(db') && CarriedMatch(c, db', p, pc')
  {
    var t := c.files(p).tags.value;
    hide Integrity, UpsertArtist, UpsertAlbum, UpsertSong, Linked, ArtistName, AlbumArtistName, AlbumName;
    ArtistKeepsNames(db, ScannedArtist(ArtistName(t), t.kept.mbArtistId));
    ArtistKeepsNames(db, ScannedArtist(AlbumArtistName(t), t.kept.mbAlbumArtistId));
  }

  lemma AlbumLinks(c: Config, db: Db, p: string, pc: Pc, cover: Id)
    requires pc.HasAlbumArtist? && c.files(p).File? && c.files(p).tags.Done?
    requires Integrity(db) && CarriedIdsExist(db, pc) && Linked(db) && CarriedMatch(c, db, p, pc)
    ensures var (db', pc') := Upserts(c, db, p, c.files(p), c.files(p).tags.value, pc, cover);
            NamesStay(db, db') && Linked(db') && CarriedMatch(c, db', p, pc')
  {
    var t := c.files(p).tags.value;
    hide Integrity, UpsertArtist, UpsertAlbum, UpsertSong, Linked, ArtistName, AlbumArtistName, AlbumName;
    AlbumKeepsNames(db, ScannedAlbum(t, pc.albumArtist));
  }

  lemma SongLinks(c: Config, db: Db, p: string, pc: Pc, cover: Id)
    requires pc.HasAlbum? && c.files(p).File? && c.files(p).tags.Done?
    requires Integrity(db) && CarriedIdsExist(db, pc) && Linked(db) && CarriedMatch(c, db, p, pc)
    ensures var (db', pc') := Upserts(c, db, p, c.files(p), c.files(p).tags.value, pc, cover);
            NamesStay(db, db') && Linked(db') && CarriedMatch(c, db', p, pc')
  {
    var t := c.files(p).tags.value;
    hide Integrity, UpsertArtist, UpsertAlbum, UpsertSong, Linked, ArtistName, AlbumArtistName, AlbumName;
    SongKeepsLinks(db, p, ScannedSong(c, c.files(p), t), Refs(pc.artist, pc.albumArtist, pc.album, cover));
  }

  lemma UpsertsKeepLinks(c: Config, db: Db, p: string, pc: Pc, cover: Id)
    requires c.files(p).File? && c.files(p).tags.Done?
    requires Integrity(db) && CarriedIdsExist(db, pc) && Linked(db) && CarriedMatch(c, db, p, pc)
    ensures var (db', pc') := Upserts(c, db, p, c.files(p), c.files(p).tags.value, pc, cover);
            NamesStay(db, db') && Linked(db') && CarriedMatch(c, db', p, pc')
  {
    if pc.Chosen? || pc.HasArtist? {
      FirstLinks(c, db, p, pc, cover);
    } else if pc.HasAlbumArtist? {
      AlbumLinks(c, db, p, pc, cover);
    } else if pc.HasAlbum? {
      SongLinks(c, db, p, pc, cover);
    }
    hide Integrity, UpsertArtist, UpsertAlbum, UpsertSong, Linked, CarriedMatch;
  }

  /** The upsert of the program point was done, and reported as done or as failed. */
  predicate UpsertDone(c: Config, db: Db, p: string, pc: Pc, cover: Id, db': Db, pc': Pc) {
    c.files(p).File? && c.files(p).tags.Done? &&
    var done := Upserts(c, db, p, c.files(p), c.files(p).tags.value, pc, cover);
    db' == done.0 && (pc' == done.1 || pc'.Ended?)
  }

  /** A step leaves the store alone and carries no id on, or does the upsert of its program point. */
  lemma WorkShape(c: Config, db: Db, p: string, pc: Pc, fault: Fault, cover: Id)
    ensures var (db', pc') := Work(c, db, p, pc, fault, cover);
            (db' == db && (pc'.Ended? || pc'.Chosen?)) || UpsertDone(c, db, p, pc, cover, db', pc')
  {
    hide Upserts;
  }

  lemma NothingCarried(c: Config, db: Db, p: string, pc: Pc)
    ensures pc.Ended? || pc.Chosen? ==> CarriedMatch(c, db, p, pc)
    ensures NamesStay(db, db)
  {
  }

  lemma WorkKeepsLinks(c: Config, db: Db, p: string, pc: Pc, fault: Fault, cover: Id)
    requires Integrity(db) && CarriedIdsExist(db, pc) && Linked(db) && CarriedMatch(c, db, p, pc)
    ensures var (db', pc') := Work(c, db, p, pc, fault, cover);
            NamesStay(db, db') && Linked(db') && CarriedMatch(c, db', p, pc')
  {
    hide Work, Upserts, Integrity, CarriedIdsExist, Linked, CarriedMatch, NamesStay;
    var (db', pc') := Work(c, db, p, pc, fault, cover);
    WorkShape(c, db, p, pc, fault, cover);
    NothingCarried(c, db, p, pc');
    NothingCarried(c, db', p, pc');
    if c.files(p).File? && c.files(p).tags.Done? {
      UpsertsKeepLinks(c, db, p, pc, cover);
    }
  }

  // ----- runs

  ghost predicate LinksInv(c: Config, s: State) {
    && Linked(s.db)
    && (forall i :: 0 <= i < |s.workers| && s.workers[i].Running? ==>
          CarriedMatch(c, s.db, s.workers[i].path, s.workers[i].pc))
  }

  lemma StepKeepsLinks(c: Config, s: State, a: Action)
    requires Enabled(c, s, a) && StoreInv(s) && LinksInv(c, s)
    ensures LinksInv(c, Apply(c, s, a))
  {
    var s' := Apply(c, s, a);
    if a.DoWork? {
      var w := s.workers[a.w];
      WorkKeepsLinks(c, s.db, w.path, w.pc, a.fault, a.cover);
      hide Integrity, Linked, CarriedMatch, Work, NamesStay;
      forall i | 0 <= i < |s'.workers| && s'.workers[i].Running?
        ensures CarriedMatch(c, s'.db, s'.workers[i].path, s'.workers[i].pc)
      {
        if i != a.w {
          NamesStayKeepsCarried(c, s.db, s'.db, s.workers[i].path, s.workers[i].pc);
        }
      }
    } else {
      OthersKeepLinks(c, s, a);
    }
  }

  lemma OthersKeepLinks(c: Config, s: State, a: Action)
    requires Enabled(c, s, a) && !a.DoWork? && LinksInv(c, s)
    ensures LinksInv(c, Apply(c, s, a))
  {
    assert forall p :: CarriedMatch(c, s.db, p, Start);
    hide Linked, CarriedMatch;
  }

  lemma {:induction false} RunKeepsLinks(c: Config, s: State, acts: seq<Action>)
    requires CanRun(c, s, acts) && StoreInv(s) && LinksInv(c, s)
    ensures LinksInv(c, Run(c, s, acts))
    decreases |acts|
  {
    hide StoreInv, LinksInv;
    if acts != [] {
      StepKeepsStore(c, s, acts[0]);
      StepKeepsLinks(c, s, acts[0]);
      RunKeepsLinks(c, Apply(c, s, acts[0]), acts[1..]);
    }
  }

  /** At every moment of a library scan, interleaved in any way and whichever statements fail, every song leads to
      the artist, album artist and album its own metadata names, and so do the ids that workers carry. */
  lemma LinksThroughoutScan(c: Config, db: Db, acts: seq<Action>)
    requires CanRun(c, Init(c, db), acts) && Integrity(db) && Linked(db)
    ensures LinksInv(c, Run(c, Init(c, db), acts))
  {
    RunKeepsLinks(c, Init(c, db), acts);
  }

  lemma {:induction false} ScansKeepLinks(db: Db, runs: seq<LibraryRun>)
    requires Integrity(db) && Linked(db) && ScansOf(db, runs)
    ensures Linked(AfterScans(db, runs))
    decreases |runs|
  {
    if runs != [] {
      var c, acts := runs[0].config, runs[0].acts;
      IntegrityThroughoutScan(c, db, acts);
      LinksThroughoutScan(c, db, acts);
      hide Integrity, Linked;
      ScansKeepLinks(Run(c, Init(c, db), acts).db, runs[1..]);
    }
  }

  // ----- cleanup

  /** Rows that are left are unchanged, and those that songs refer to are left. */
  lemma CutKeepsLinks(db: Db, db': Db)
    requires Integrity(db) && Linked(db)
    requires forall id :: id in db'.songs ==> id in db.songs && db'.songs[id] == db.songs[id]
    requires ArtistsOfSongs(db.songs) <= db'.artists.Keys && AlbumsOfSongs(db.songs) <= db'.albums.Keys
    requires forall id :: id in db'.artists ==> id in db.artists && db'.artists[id] == db.artists[id]
    requires forall id :: id in db'.albums ==> id in db.albums && db'.albums[id] == db.albums[id]
    ensures Linked(db')
  {
    NoZeroRefs(db);
    hide Integrity;
  }

  lemma CleanupKeepsRows(db: Db, artistsFail: bool, albumsFail: bool, missingFail: bool)
    ensures var after := Cleanup(db, artistsFail, albumsFail, missingFail);
            && (forall id :: id in after.artists ==> id in db.artists && after.artists[id] == db.artists[id])
            && (forall id :: id in after.albums ==> id in db.albums && after.albums[id] == db.albums[id])
  {
    hide ArtistsOfSongs, AlbumsOfSongs, Entries;
  }

  /** So does a whole scan, libraries and cleanup, whichever of its statements fail: every song still leads to the
      rows its metadata names. */
  lemma ScanKeepsLinks(db: Db, runs: seq<LibraryRun>, artistsFail: bool, albumsFail: bool, missingFail: bool)
    requires Integrity(db) && Linked(db) && ScansOf(db, runs)
    ensures Linked(Cleanup(AfterScans(db, runs), artistsFail, albumsFail, missingFail))
  {
    var before := AfterScans(db, runs);
    ScansKeepIntegrity(db, runs);
    ScansKeepLinks(db, runs);
    CleanupMeaning(before, artistsFail, albumsFail, missingFail);
    CleanupKeepsRows(before, artistsFail, albumsFail, missingFail);
    hide Integrity, Cleanup, Linked, AfterScans, ScansOf, ArtistsOfSongs, AlbumsOfSongs;
    CutKeepsLinks(before, Cleanup(before, artistsFail, albumsFail, missingFail));
  }
}
