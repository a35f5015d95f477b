/** The artist, album and song tables, with the unique indexes, foreign key and cascade the schema
    declares, and what each statement of the music store does to them. */
module MusicTables {
  import opened Text

  type Id = int

  datatype Artist = Artist(
    name: string, sortName: string, albumCount: int, songCount: int, coverArtId: Id,
    biography: string, mbid: string, userEdited: bool)

  datatype Album = Album(
    title: string, sortTitle: string, artistId: Id, artistName: string, year: int, genre: string,
    songCount: int, duration: int, coverArtId: Id, mbid: string, userEdited: bool)

  /** The song columns a scan may not overwrite once the user has edited the row. */
  datatype Protected = Protected(
    title: string, genre: string, mbTrackId: string, mbAlbumId: string, mbAlbumArtistId: string,
    mbArtistId: string, composer: string, comment: string, lyrics: string)

  /** The song columns a scan always overwrites. */
  datatype Plain = Plain(
    libraryId: Id, sortTitle: string, artistName: string, albumArtistName: string, albumName: string,
    trackNumber: int, discNumber: int, year: int, duration: int, bitRate: int, sampleRate: int,
    channels: int, fileSize: int, contentType: string, fileFormat: string, lyricist: string,
    conductor: string, bpm: int, replayGainTrack: real, replayGainAlbum: real, fileHash: string,
    lastModified: int)

  /** A song's metadata, ids aside. */
  datatype Meta = Meta(kept: Protected, plain: Plain, userEdited: bool)

  datatype Refs = Refs(artistId: Id, albumArtistId: Id, albumId: Id, coverArtId: Id)

  /** `missing` and `playCount` are columns no upsert touches. */
  datatype Song = Song(path: string, meta: Meta, refs: Refs, missing: bool, playCount: int)

  type AlbumKey = (string, Id)

  /** Tables by primary key, and the unique indexes: artists by name under the NOCASE collation, which
      folds ASCII capitals only, albums by title and artist,
      songs by path. Ids come from AUTOINCREMENT and are never used twice. */
  datatype Db = Db(
    artists: map<Id, Artist>, artistIndex: map<string, Id>, nextArtist: Id,
    albums: map<Id, Album>, albumIndex: map<AlbumKey, Id>, nextAlbum: Id,
    songs: map<Id, Song>, songIndex: map<string, Id>, nextSong: Id)

  // ----- upserts

  /** The rule for a protected column: an edited row keeps its value if it has one. */
  function KeepEdited(edited: bool, prev: string, incoming: string): string {
    if edited && prev != "" then prev else incoming
  }

  function MergeArtist(prev: Artist, a: Artist): Artist {
    a.(name := prev.name,
       biography := KeepEdited(prev.userEdited, prev.biography, a.biography),
       mbid := KeepEdited(prev.userEdited, prev.mbid, a.mbid),
       userEdited := prev.userEdited)
  }

  function MergeAlbum(prev: Album, a: Album): Album {
    a.(year := if prev.userEdited && prev.year != 0 then prev.year else a.year,
       genre := KeepEdited(prev.userEdited, prev.genre, a.genre),
       title := KeepEdited(prev.userEdited, prev.title, a.title),
       mbid := KeepEdited(prev.userEdited, prev.mbid, a.mbid),
       userEdited := prev.userEdited)
  }

  function MergeProtected(e: bool, prev: Protected, p: Protected): Protected {
    Protected(
      KeepEdited(e, prev.title, p.title), KeepEdited(e, prev.genre, p.genre),
      KeepEdited(e, prev.mbTrackId, p.mbTrackId), KeepEdited(e, prev.mbAlbumId, p.mbAlbumId),
      KeepEdited(e, prev.mbAlbumArtistId, p.mbAlbumArtistId), KeepEdited(e, prev.mbArtistId, p.mbArtistId),
      KeepEdited(e, prev.composer, p.composer), KeepEdited(e, prev.comment, p.comment),
      KeepEdited(e, prev.lyrics, p.lyrics))
  }

  function MergeMeta(prev: Meta, m: Meta): Meta {
    Meta(MergeProtected(prev.userEdited, prev.kept, m.kept), m.plain, prev.userEdited)
  }

  /** Insert the artist, or update the row whose name is equal up to ASCII case; either way the id of the
      row with that name. */
  function UpsertArtist(db: Db, a: Artist): (r: (Db, Id)) {
    var k := AsciiLower(a.name);
    if k in db.artistIndex && db.artistIndex[k] in db.artists then
      var id := db.artistIndex[k];
      (db.(artists := db.artists[id := MergeArtist(db.artists[id], a)]), id)
    else
      var id := db.nextArtist;
      (db.(artists := db.artists[id := a], artistIndex := db.artistIndex[k := id], nextArtist := id + 1), id)
  }

  datatype Outcome<+T> = Done(value: T) | Failed

  /** Albums are unique by title and artist; a new album of an artist that does not exist violates the
      foreign key. */
  function UpsertAlbum(db: Db, a: Album): (r: (Db, Outcome<Id>)) {
    var k := (a.title, a.artistId);
    if k in db.albumIndex && db.albumIndex[k] in db.albums then
      var id := db.albumIndex[k];
      (db.(albums := db.albums[id := MergeAlbum(db.albums[id], a)]), Done(id))
    else if a.artistId !in db.artists then (db, Failed)
    else
      var id := db.nextAlbum;
      (db.(albums := db.albums[id := a], albumIndex := db.albumIndex[k := id], nextAlbum := id + 1), Done(id))
  }

  function UpsertSong(db: Db, path: string, meta: Meta, refs: Refs): (r: (Db, Id)) {
    if path in db.songIndex && db.songIndex[path] in db.songs then
      var id := db.songIndex[path];
      var prev := db.songs[id];
      (db.(songs := db.songs[id := prev.(meta := MergeMeta(prev.meta, meta), refs := refs)]), id)
    else
      var id := db.nextSong;
      (db.(songs := db.songs[id := Song(path, meta, refs, false, 0)],
           songIndex := db.songIndex[path := id], nextSong := id + 1), id)
  }

  // ----- deletes

  function ArtistsOfSongs(songs: map<Id, Song>): (r: set<Id>)
    ensures forall id :: id in songs && songs[id].refs.artistId != 0 ==> songs[id].refs.artistId in r
    ensures forall id :: id in songs && songs[id].refs.albumArtistId != 0 ==> songs[id].refs.albumArtistId in r
  {
    (set id | id in songs && songs[id].refs.artistId != 0 :: songs[id].refs.artistId) +
    (set id | id in songs && songs[id].refs.albumArtistId != 0 :: songs[id].refs.albumArtistId)
  }

  function AlbumsOfSongs(songs: map<Id, Song>): (r: set<Id>)
    ensures forall id :: id in songs && songs[id].refs.albumId != 0 ==> songs[id].refs.albumId in r
  {
    set id | id in songs && songs[id].refs.albumId != 0 :: songs[id].refs.albumId
  }

  function Rows<R>(rows: map<Id, R>, keep: set<Id>): (r: map<Id, R>)
  {
    map id | id in rows && id in keep :: rows[id]
  }

  function Entries<K>(index: map<K, Id>, keep: set<Id>): (r: map<K, Id>)
  {
    map k | k in index && index[k] in keep :: index[k]
  }

  /** Deleting an artist cascades to its albums. */
  function DeleteArtistsWithNoSongs(db: Db): Db {
    var used := ArtistsOfSongs(db.songs);
    var gone := db.artists.Keys - used;
    var albums := set id | id in db.albums && db.albums[id].artistId !in gone;
    db.(artists := Rows(db.artists, used), artistIndex := Entries(db.artistIndex, used),
        albums := Rows(db.albums, albums), albumIndex := Entries(db.albumIndex, albums))
  }

  function DeleteAlbumsWithNoSongs(db: Db): Db {
    var used := AlbumsOfSongs(db.songs);
    db.(albums := Rows(db.albums, used), albumIndex := Entries(db.albumIndex, used))
  }

  function DeleteMissingSongs(db: Db): Db {
    var present := set id | id in db.songs && !db.songs[id].missing;
    db.(songs := Rows(db.songs, present), songIndex := Entries(db.songIndex, present))
  }

  // ----- unique indexes

  function ArtistKey(a: Artist): string { AsciiLower(a.name) }
  function KeyOfAlbum(a: Album): AlbumKey { (a.title, a.artistId) }
  function SongKey(s: Song): string { s.path }

  /** Every row is found under its own key, every entry leads to a row with that key, and ids are in use
      only below `next`. */
  ghost predicate Indexed<K, R>(rows: map<Id, R>, index: map<K, Id>, next: Id, key: R -> K) {
    && 0 < next
    && (forall id :: id in rows ==> 0 < id < next && key(rows[id]) in index && index[key(rows[id])] == id)
    && (forall k :: k in index ==> index[k] in rows && key(rows[index[k]]) == k)
  }

  lemma InsertIndexed<K, R>(rows: map<Id, R>, index: map<K, Id>, next: Id, key: R -> K, r: R)
    requires Indexed(rows, index, next, key) && key(r) !in index
    ensures Indexed(rows[next := r], index[key(r) := next], next + 1, key)
  {
  }

  lemma UpdateIndexed<K, R>(rows: map<Id, R>, index: map<K, Id>, next: Id, key: R -> K, id: Id, r: R)
    requires Indexed(rows, index, next, key) && id in rows && key(r) == key(rows[id])
    ensures Indexed(rows[id := r], index, next, key)
  {
  }

  lemma RestrictIndexed<K, R>(rows: map<Id, R>, index: map<K, Id>, next: Id, key: R -> K, keep: set<Id>)
    requires Indexed(rows, index, next, key)
    ensures Indexed(Rows(rows, keep), Entries(index, keep), next, key)
  {
  }

  // ----- referential integrity

  /** The foreign key of the schema. */
  ghost predicate AlbumsHaveArtists(albums: map<Id, Album>, artists: map<Id, Artist>) {
    forall id :: id in albums ==> albums[id].artistId in artists
  }

  /** The song's artist, album artist and album exist, and the album belongs to the album artist. */
  ghost predicate RefsHold(artists: map<Id, Artist>, albums: map<Id, Album>, r: Refs) {
    && r.artistId in artists
    && r.albumArtistId in artists
    && r.albumId in albums
    && albums[r.albumId].artistId == r.albumArtistId
  }

  ghost predicate SongsHaveRefs(songs: map<Id, Song>, artists: map<Id, Artist>, albums: map<Id, Album>) {
    forall id :: id in songs ==> RefsHold(artists, albums, songs[id].refs)
  }

  ghost predicate Integrity(db: Db) {
    && Indexed(db.artists, db.artistIndex, db.nextArtist, ArtistKey)
    && Indexed(db.albums, db.albumIndex, db.nextAlbum, KeyOfAlbum)
    && Indexed(db.songs, db.songIndex, db.nextSong, SongKey)
    && AlbumsHaveArtists(db.albums, db.artists)
    && SongsHaveRefs(db.songs, db.artists, db.albums)
  }

  /** Nothing a worker holds an id of has gone, and albums have kept their artist. */
  ghost predicate Grows(db: Db, db': Db) {
    && (forall id :: id in db.artists ==> id in db'.artists)
    && (forall id :: id in db.albums ==> id in db'.albums && db'.albums[id].artistId == db.albums[id].artistId)
  }

  lemma GrowsKeepsRefs(db: Db, db': Db)
    requires Grows(db, db')
    ensures forall r :: RefsHold(db.artists, db.albums, r) ==> RefsHold(db'.artists, db'.albums, r)
    ensures SongsHaveRefs(db.songs, db.artists, db.albums) ==> SongsHaveRefs(db.songs, db'.artists, db'.albums)
  {
  }

  lemma UpsertArtistKeepsIntegrity(db: Db, a: Artist)
    requires Integrity(db)
    ensures var (db', id) := UpsertArtist(db, a);
            && Integrity(db') && Grows(db, db')
            && id in db'.artists && ArtistKey(db'.artists[id]) == ArtistKey(a)
            && db'.albums == db.albums && db'.songs == db.songs && db'.songIndex == db.songIndex
  {
    var db' := UpsertArtist(db, a).0;
    var k := AsciiLower(a.name);
    if k in db.artistIndex {
      var id := db.artistIndex[k];
      UpdateIndexed(db.artists, db.artistIndex, db.nextArtist, ArtistKey, id, MergeArtist(db.artists[id], a));
    } else {
      InsertIndexed(db.artists, db.artistIndex, db.nextArtist, ArtistKey, a);
    }
    hide Indexed;
    GrowsKeepsRefs(db, db');
  }

  /** Upserting an album of an existing artist succeeds, and the id returned is that of an album with
      exactly that title and artist. */
  lemma UpsertAlbumKeepsIntegrity(db: Db, a: Album)
    requires Integrity(db) && a.artistId in db.artists
    ensures var (db', r) := UpsertAlbum(db, a);
            && Integrity(db') && Grows(db, db')
            && r.Done? && r.value in db'.albums && KeyOfAlbum(db'.albums[r.value]) == KeyOfAlbum(a)
            && db'.artists == db.artists && db'.songs == db.songs && db'.songIndex == db.songIndex
  {
    var db' := UpsertAlbum(db, a).0;
    var k := KeyOfAlbum(a);
    if k in db.albumIndex {
      var id := db.albumIndex[k];
      UpdateIndexed(db.albums, db.albumIndex, db.nextAlbum, KeyOfAlbum, id, MergeAlbum(db.albums[id], a));
    } else {
      InsertIndexed(db.albums, db.albumIndex, db.nextAlbum, KeyOfAlbum, a);
    }
    hide Indexed;
    GrowsKeepsRefs(db, db');
  }

  lemma UpsertSongKeepsIntegrity(db: Db, path: string, meta: Meta, refs: Refs)
    requires Integrity(db) && RefsHold(db.artists, db.albums, refs)
    ensures var (db', id) := UpsertSong(db, path, meta, refs);
            && Integrity(db') && Grows(db, db')
            && path in db'.songIndex && db'.songIndex[path] == id
            && id in db'.songs && db'.songs[id].refs == refs
  {
    if path in db.songIndex {
      var id := db.songIndex[path];
      var prev := db.songs[id];
      UpdateIndexed(db.songs, db.songIndex, db.nextSong, SongKey, id,
                    prev.(meta := MergeMeta(prev.meta, meta), refs := refs));
    } else {
      InsertIndexed(db.songs, db.songIndex, db.nextSong, SongKey, Song(path, meta, refs, false, 0));
    }
  }

  /** What songs name exists, and the artist of an album some song names is itself named. */
  lemma NamedRowsExist(db: Db)
    requires Integrity(db)
    ensures ArtistsOfSongs(db.songs) <= db.artists.Keys
    ensures AlbumsOfSongs(db.songs) <= db.albums.Keys
    ensures forall id :: id in AlbumsOfSongs(db.songs) ==> db.albums[id].artistId in ArtistsOfSongs(db.songs)
  {
    forall id | id in AlbumsOfSongs(db.songs)
      ensures id in db.albums && db.albums[id].artistId in ArtistsOfSongs(db.songs)
    {
      var song :| song in db.songs && db.songs[song].refs.albumId == id;
      assert RefsHold(db.artists, db.albums, db.songs[song].refs);
    }
  }

  /** Rows that are cut away leave the others as they were. */
  lemma RowsLeft<R>(rows: map<Id, R>, keep: set<Id>)
    ensures keep <= rows.Keys ==> Rows(rows, keep).Keys == keep
    ensures forall id :: id in Rows(rows, keep) <==> id in rows && id in keep
    ensures forall id :: id in Rows(rows, keep) ==> Rows(rows, keep)[id] == rows[id]
  {
  }

  lemma CutKeepsRefs(db: Db, artists: set<Id>, albums: set<Id>)
    requires AlbumsHaveArtists(db.albums, db.artists) && SongsHaveRefs(db.songs, db.artists, db.albums)
    requires forall id :: id in db.albums && id in albums ==> db.albums[id].artistId in artists
    requires forall id :: id in db.songs ==>
               var r := db.songs[id].refs; r.artistId in artists && r.albumArtistId in artists && r.albumId in albums
    ensures AlbumsHaveArtists(Rows(db.albums, albums), Rows(db.artists, artists))
    ensures SongsHaveRefs(db.songs, Rows(db.artists, artists), Rows(db.albums, albums))
  {
    RowsLeft(db.artists, artists);
    RowsLeft(db.albums, albums);
    hide Rows;
  }

  /** Cutting both tables down keeps every foreign reference whose target stays. */
  lemma CutKeepsIntegrity(db: Db, artists: set<Id>, albums: set<Id>)
    requires Integrity(db)
    requires forall id :: id in db.albums && id in albums ==> db.albums[id].artistId in artists
    requires forall id :: id in db.songs ==>
               var r := db.songs[id].refs; r.artistId in artists && r.albumArtistId in artists && r.albumId in albums
    ensures Integrity(db.(artists := Rows(db.artists, artists), artistIndex := Entries(db.artistIndex, artists),
                          albums := Rows(db.albums, albums), albumIndex := Entries(db.albumIndex, albums)))
  {
    RestrictIndexed(db.artists, db.artistIndex, db.nextArtist, ArtistKey, artists);
    RestrictIndexed(db.albums, db.albumIndex, db.nextAlbum, KeyOfAlbum, albums);
    CutKeepsRefs(db, artists, albums);
    hide Indexed, Rows, Entries, AlbumsHaveArtists, SongsHaveRefs;
  }

  /** Keeping every row of a table changes nothing. */
  lemma KeepAllRows<K, R>(rows: map<Id, R>, index: map<K, Id>, next: Id, key: R -> K)
    requires Indexed(rows, index, next, key)
    ensures Rows(rows, rows.Keys) == rows && Entries(index, rows.Keys) == index
  {
  }

  /** Songs refer to rows that exist, so none of their ids is 0. */
  lemma NoZeroRefs(db: Db)
    requires Integrity(db)
    ensures forall id :: id in db.songs ==>
              var r := db.songs[id].refs; r.artistId != 0 && r.albumArtistId != 0 && r.albumId != 0
  {
    forall id | id in db.songs
      ensures var r := db.songs[id].refs; r.artistId != 0 && r.albumArtistId != 0 && r.albumId != 0
    {
      assert RefsHold(db.artists, db.albums, db.songs[id].refs);
    }
  }

  /** After the artist delete exactly the artists some song names remain, with their rows unchanged. Every
      album a song names survives the cascade, and every song keeps its artist, album artist and album. */
  lemma DeleteArtistsKeepsIntegrity(db: Db)
    requires Integrity(db)
    ensures var db' := DeleteArtistsWithNoSongs(db);
            && Integrity(db')
            && db'.songs == db.songs
            && db'.artists.Keys == ArtistsOfSongs(db.songs)
            && (forall id :: id in db'.artists ==> db'.artists[id] == db.artists[id])
            && (forall id :: id in db.albums ==> (id in db'.albums <==> db.albums[id].artistId in ArtistsOfSongs(db.songs)))
            && (forall id :: id in db'.albums ==> id in db.albums && db'.albums[id] == db.albums[id])
            && AlbumsOfSongs(db.songs) <= db'.albums.Keys
  {
    var used := ArtistsOfSongs(db.songs);
    var albums := set id | id in db.albums && db.albums[id].artistId !in db.artists.Keys - used;
    NamedRowsExist(db);
    NoZeroRefs(db);
    SparedAlbums(db, used, albums);
    CutKeepsIntegrity(db, used, albums);
    RowsLeft(db.artists, used);
    RowsLeft(db.albums, albums);
    hide ArtistsOfSongs, AlbumsOfSongs, Integrity, Rows, Entries;
  }

  /** The cascade spares exactly the albums of artists that stay. */
  lemma SparedAlbums(db: Db, used: set<Id>, albums: set<Id>)
    requires Integrity(db) && used <= db.artists.Keys
    requires albums == set id | id in db.albums && db.albums[id].artistId !in db.artists.Keys - used
    ensures forall id :: id in db.albums ==> (id in albums <==> db.albums[id].artistId in used)
  {
    hide Indexed, SongsHaveRefs;
  }

  lemma DeleteAlbumsKeepsIntegrity(db: Db)
    requires Integrity(db)
    ensures var db' := DeleteAlbumsWithNoSongs(db);
            && Integrity(db')
            && db'.songs == db.songs && db'.artists == db.artists
            && db'.albums.Keys == AlbumsOfSongs(db.songs)
            && (forall id :: id in db'.albums ==> db'.albums[id] == db.albums[id])
  {
    var used := AlbumsOfSongs(db.songs);
    NamedRowsExist(db);
    NoZeroRefs(db);
    AlbumsCut(db, used);
    RowsLeft(db.albums, used);
    hide AlbumsOfSongs, ArtistsOfSongs, Integrity, Rows, Entries;
  }

  lemma AlbumsCut(db: Db, used: set<Id>)
    requires Integrity(db)
    requires forall id :: id in db.songs ==> db.songs[id].refs.albumId in used
    ensures Integrity(db.(albums := Rows(db.albums, used), albumIndex := Entries(db.albumIndex, used)))
  {
    KeepAllRows(db.artists, db.artistIndex, db.nextArtist, ArtistKey);
    assert forall id :: id in db.songs ==> RefsHold(db.artists, db.albums, db.songs[id].refs);
    CutKeepsIntegrity(db, db.artists.Keys, used);
    hide Integrity, Rows, Entries;
  }

  lemma DeleteMissingKeepsIntegrity(db: Db)
    requires Integrity(db)
    ensures var db' := DeleteMissingSongs(db);
            && Integrity(db')
            && db'.artists == db.artists && db'.albums == db.albums
            && (forall id :: id in db.songs ==> (id in db'.songs <==> !db.songs[id].missing))
            && (forall id :: id in db'.songs ==> id in db.songs && db'.songs[id] == db.songs[id])
  {
    RestrictIndexed(db.songs, db.songIndex, db.nextSong, SongKey,
                    set id | id in db.songs && !db.songs[id].missing);
    hide Indexed;
  }
}
