/** What any number of upserts leave in an artist's or an album's row. */
module RowMerges {
  import opened Text
  import opened MusicTables

  // ----- albums

  function UpsertAlbums(db: Db, versions: seq<Album>): Db
    decreases |versions|
  {
    if versions == [] then db else UpsertAlbums(UpsertAlbum(db, versions[0]).0, versions[1..])
  }

  /** The versions sent for one title and artist. */
  function AlbumVersions(versions: seq<Album>, k: AlbumKey): seq<Album> {
    if versions == [] then []
    else if (versions[0].title, versions[0].artistId) == k then [versions[0]] + AlbumVersions(versions[1..], k)
    else AlbumVersions(versions[1..], k)
  }

  datatype AlbumText = AlbumGenre | AlbumMbid

  function TextOf(a: Album, f: AlbumText): string {
    match f
    case AlbumGenre => a.genre
    case AlbumMbid => a.mbid
  }

  /** The first of these texts that is not empty, or the last. */
  function FirstText(current: string, versions: seq<Album>, f: AlbumText): string
    decreases |versions|
  {
    if current != "" || versions == [] then current else FirstText(TextOf(versions[0], f), versions[1..], f)
  }

  function FirstYear(current: int, versions: seq<Album>): int
    decreases |versions|
  {
    if current != 0 || versions == [] then current else FirstYear(versions[0].year, versions[1..])
  }

  /** The first version of an album not in the table is stored as it is, under a new id; nothing else changes. */
  lemma NewAlbumIsStored(db: Db, a: Album)
    requires Integrity(db) && (a.title, a.artistId) !in db.albumIndex && a.artistId in db.artists
    ensures var (db', r) := UpsertAlbum(db, a);
            && r.Done? && r.value !in db.albums && db'.albums == db.albums[r.value := a]
            && db'.albumIndex == db.albumIndex[(a.title, a.artistId) := r.value]
            && db'.artists == db.artists && db'.songs == db.songs
  {
  }

  /** What one upsert makes of the row of a known album, column by column, and of the others. */
  ghost predicate AlbumMerged(prev: Album, a: Album, row: Album) {
    && row.title == prev.title && row.artistId == prev.artistId && row.userEdited == prev.userEdited
    && row.sortTitle == a.sortTitle && row.artistName == a.artistName && row.songCount == a.songCount
    && row.duration == a.duration && row.coverArtId == a.coverArtId
    && row.year == (if prev.userEdited && prev.year != 0 then prev.year else a.year)
    && row.genre == (if prev.userEdited && prev.genre != "" then prev.genre else a.genre)
    && row.mbid == (if prev.userEdited && prev.mbid != "" then prev.mbid else a.mbid)
  }

  lemma KnownAlbumIsMerged(db: Db, a: Album, id: Id)
    requires Integrity(db) && id in db.albums
    ensures var end := UpsertAlbum(db, a).0;
            && Integrity(end) && id in end.albums
            && (if (a.title, a.artistId) == KeyOfAlbum(db.albums[id]) then AlbumMerged(db.albums[id], a, end.albums[id])
                else end.albums[id] == db.albums[id])
  {
    if a.artistId in db.artists {
      UpsertAlbumKeepsIntegrity(db, a);
    }
    hide SongsHaveRefs;
  }

  /** What versions of one album leave of its row: key and flag stay; without a version nothing changes; otherwise
      every other column is the last version's, except that on an edited row year, genre and MusicBrainz id keep the
      first value, from the row on, that is not empty. */
  ghost predicate AlbumAfter(prev: Album, vs: seq<Album>, row: Album) {
    && row.title == prev.title && row.artistId == prev.artistId && row.userEdited == prev.userEdited
    && (vs == [] ==> row == prev)
    && (vs != [] ==>
          var last := vs[|vs| - 1];
          && row.sortTitle == last.sortTitle && row.artistName == last.artistName && row.songCount == last.songCount
          && row.duration == last.duration && row.coverArtId == last.coverArtId
          && (!prev.userEdited ==> row.year == last.year && row.genre == last.genre && row.mbid == last.mbid))
    && (prev.userEdited ==>
          && row.year == FirstYear(prev.year, vs)
          && row.genre == FirstText(prev.genre, vs, AlbumGenre)
          && row.mbid == FirstText(prev.mbid, vs, AlbumMbid))
  }

  lemma OneMoreAlbum(prev: Album, a: Album, mid: Album, vs: seq<Album>, row: Album)
    requires AlbumMerged(prev, a, mid) && AlbumAfter(mid, vs, row)
    ensures AlbumAfter(prev, [a] + vs, row)
  {
    assert ([a] + vs)[1..] == vs;
    FirstKept(prev.genre, vs, AlbumGenre);
    FirstKept(prev.mbid, vs, AlbumMbid);
  }

  /** After any upserts of albums every row that was there is what its own versions leave of it. */
  lemma {:induction false} AlbumRowMeaning(db: Db, versions: seq<Album>, id: Id)
    requires Integrity(db) && id in db.albums
    ensures var end := UpsertAlbums(db, versions);
            && Integrity(end) && id in end.albums
            && AlbumAfter(db.albums[id], AlbumVersions(versions, KeyOfAlbum(db.albums[id])), end.albums[id])
    decreases |versions|
  {
    if versions != [] {
      var a, rest := versions[0], versions[1..];
      KnownAlbumIsMerged(db, a, id);
      hide Integrity, UpsertAlbum, AlbumMerged, AlbumAfter;
      var prev, next := db.albums[id], UpsertAlbum(db, a).0;
      AlbumRowMeaning(next, rest, id);
      KeyStays(prev, a, next.albums[id]);
      if (a.title, a.artistId) == KeyOfAlbum(prev) {
        OneMoreAlbum(prev, a, next.albums[id], AlbumVersions(rest, KeyOfAlbum(prev)), UpsertAlbums(db, versions).albums[id]);
      }
    } else {
      assert AlbumAfter(db.albums[id], [], db.albums[id]);
    }
  }

  lemma KeyStays(prev: Album, a: Album, row: Album)
    ensures AlbumMerged(prev, a, row) ==> KeyOfAlbum(row) == KeyOfAlbum(prev)
  {
  }

  lemma FirstKept(current: string, versions: seq<Album>, f: AlbumText)
    ensures current != "" ==> FirstText(current, versions, f) == current
  {
  }

  // ----- artists

  function UpsertArtists(db: Db, versions: seq<Artist>): Db
    decreases |versions|
  {
    if versions == [] then db else UpsertArtists(UpsertArtist(db, versions[0]).0, versions[1..])
  }

  /** The versions sent under one name, up to ASCII case. */
  function ArtistVersions(versions: seq<Artist>, k: string): seq<Artist> {
    if versions == [] then []
    else if AsciiLower(versions[0].name) == k then [versions[0]] + ArtistVersions(versions[1..], k)
    else ArtistVersions(versions[1..], k)
  }

  datatype ArtistText = Biography | ArtistMbid

  function ArtistTextOf(a: Artist, f: ArtistText): string {
    match f
    case Biography => a.biography
    case ArtistMbid => a.mbid
  }

  function FirstArtistText(current: string, versions: seq<Artist>, f: ArtistText): string
    decreases |versions|
  {
    if current != "" || versions == [] then current else FirstArtistText(ArtistTextOf(versions[0], f), versions[1..], f)
  }

  lemma NewArtistIsStored(db: Db, a: Artist)
    requires Integrity(db) && AsciiLower(a.name) !in db.artistIndex
    ensures var (db', id) := UpsertArtist(db, a);
            && id !in db.artists && db'.artists == db.artists[id := a]
            && db'.artistIndex == db.artistIndex[AsciiLower(a.name) := id]
            && db'.albums == db.albums && db'.songs == db.songs
  {
  }

  ghost predicate ArtistMerged(prev: Artist, a: Artist, row: Artist) {
    && row.name == prev.name && row.userEdited == prev.userEdited
    && row.sortName == a.sortName && row.albumCount == a.albumCount && row.songCount == a.songCount
    && row.coverArtId == a.coverArtId
    && row.biography == (if prev.userEdited && prev.biography != "" then prev.biography else a.biography)
    && row.mbid == (if prev.userEdited && prev.mbid != "" then prev.mbid else a.mbid)
  }

  lemma KnownArtistIsMerged(db: Db, a: Artist, id: Id)
    requires Integrity(db) && id in db.artists
    ensures var end := UpsertArtist(db, a).0;
            && Integrity(end) && id in end.artists
            && (if AsciiLower(a.name) == AsciiLower(db.artists[id].name) then ArtistMerged(db.artists[id], a, end.artists[id])
                else end.artists[id] == db.artists[id])
  {
    UpsertArtistKeepsIntegrity(db, a);
    hide SongsHaveRefs, AlbumsHaveArtists, AsciiLower;
  }

  /** The same for artists: the name as first spelled and the flag stay; biography and MusicBrainz id are what an
      edited row protects. */
  ghost predicate ArtistAfter(prev: Artist, vs: seq<Artist>, row: Artist) {
    && row.name == prev.name && row.userEdited == prev.userEdited
    && (vs == [] ==> row == prev)
    && (vs != [] ==>
          var last := vs[|vs| - 1];
          && row.sortName == last.sortName && row.albumCount == last.albumCount && row.songCount == last.songCount
          && row.coverArtId == last.coverArtId
          && (!prev.userEdited ==> row.biography == last.biography && row.mbid == last.mbid))
    && (prev.userEdited ==>
          && row.biography == FirstArtistText(prev.biography, vs, Biography)
          && row.mbid == FirstArtistText(prev.mbid, vs, ArtistMbid))
  }

  lemma OneMoreArtist(prev: Artist, a: Artist, mid: Artist, vs: seq<Artist>, row: Artist)
    requires ArtistMerged(prev, a, mid) && ArtistAfter(mid, vs, row)
    ensures ArtistAfter(prev, [a] + vs, row)
  {
    assert ([a] + vs)[1..] == vs;
    FirstArtistKept(prev.biography, vs, Biography);
    FirstArtistKept(prev.mbid, vs, ArtistMbid);
  }

  lemma {:induction false} ArtistRowMeaning(db: Db, versions: seq<Artist>, id: Id)
    requires Integrity(db) && id in db.artists
    ensures var end := UpsertArtists(db, versions);
            && Integrity(end) && id in end.artists
            && ArtistAfter(db.artists[id], ArtistVersions(versions, AsciiLower(db.artists[id].name)), end.artists[id])
    decreases |versions|
  {
    if versions != [] {
      var a, rest := versions[0], versions[1..];
      KnownArtistIsMerged(db, a, id);
      hide Integrity, UpsertArtist, AsciiLower, ArtistMerged, ArtistAfter;
      var prev, next := db.artists[id], UpsertArtist(db, a).0;
      ArtistRowMeaning(next, rest, id);
      NameStays(prev, a, next.artists[id]);
      var k := AsciiLower(prev.name);
      if AsciiLower(a.name) == k {
        OneMoreArtist(prev, a, next.artists[id], ArtistVersions(rest, k), UpsertArtists(db, versions).artists[id]);
      }
    } else {
      assert ArtistAfter(db.artists[id], [], db.artists[id]);
    }
  }

  lemma NameStays(prev: Artist, a: Artist, row: Artist)
    ensures ArtistMerged(prev, a, row) ==> row.name == prev.name
  {
  }

  lemma FirstArtistKept(current: string, versions: seq<Artist>, f: ArtistText)
    ensures current != "" ==> FirstArtistText(current, versions, f) == current
  {
  }

  // ----- songs

  /** A song upsert stores a new path's row as it comes, unmarked and unplayed, under a new id; a known path's row keeps
      its id, its mark and its play count and takes the new references, whatever was edited. Other rows stay. */
  lemma SongRowMeaning(db: Db, path: string, meta: Meta, refs: Refs)
    requires Integrity(db)
    ensures var (db', id) := UpsertSong(db, path, meta, refs);
            && path in db'.songIndex && db'.songIndex[path] == id && id in db'.songs
            && db'.songs.Keys == db.songs.Keys + {id}
            && (forall other :: other in db.songs && other != id ==> db'.songs[other] == db.songs[other])
            && db'.artists == db.artists && db'.albums == db.albums
            && if path in db.songIndex then
                 var prev := db.songs[db.songIndex[path]];
                 && id == db.songIndex[path]
                 && db'.songs[id] == Song(path, db'.songs[id].meta, refs, prev.missing, prev.playCount)
               else id !in db.songs && db'.songs[id] == Song(path, meta, refs, false, 0)
  {
  }

  // ----- deletes

  ghost predicate NamesArtist(songs: map<Id, Song>, id: Id) {
    exists s :: s in songs && (songs[s].refs.artistId == id || songs[s].refs.albumArtistId == id)
  }

  ghost predicate NamesAlbum(songs: map<Id, Song>, id: Id) {
    exists s :: s in songs && songs[s].refs.albumId == id
  }

  lemma NamedIff(db: Db, id: Id)
    requires Integrity(db)
    ensures id in ArtistsOfSongs(db.songs) <==> NamesArtist(db.songs, id)
    ensures id in AlbumsOfSongs(db.songs) <==> NamesAlbum(db.songs, id)
  {
    NoZeroRefs(db);
    hide Integrity;
  }

  /** Deleting artists without songs leaves exactly those that a song names as artist or album artist, and takes the
      albums of the others along; the rows that stay are unchanged. */
  lemma ArtistsLeft(db: Db)
    requires Integrity(db)
    ensures var end := DeleteArtistsWithNoSongs(db);
            && end.songs == db.songs
            && (forall id :: id in end.artists <==> NamesArtist(db.songs, id))
            && (forall id :: id in end.artists ==> id in db.artists && end.artists[id] == db.artists[id])
            && (forall id :: id in end.albums <==> id in db.albums && NamesArtist(db.songs, db.albums[id].artistId))
            && (forall id :: id in end.albums ==> id in db.albums && end.albums[id] == db.albums[id])
  {
    DeleteArtistsKeepsIntegrity(db);
    NamedRowsExist(db);
    forall id ensures id in ArtistsOfSongs(db.songs) <==> NamesArtist(db.songs, id) {
      NamedIff(db, id);
    }
    hide Integrity, DeleteArtistsWithNoSongs, ArtistsOfSongs, AlbumsOfSongs, NamesArtist;
  }

  /** Deleting albums without songs leaves exactly those that a song is on, unchanged. */
  lemma AlbumsLeft(db: Db)
    requires Integrity(db)
    ensures var end := DeleteAlbumsWithNoSongs(db);
            && end.songs == db.songs && end.artists == db.artists
            && (forall id :: id in end.albums <==> NamesAlbum(db.songs, id))
            && (forall id :: id in end.albums ==> id in db.albums && end.albums[id] == db.albums[id])
  {
    DeleteAlbumsKeepsIntegrity(db);
    NamedRowsExist(db);
    forall id ensures id in AlbumsOfSongs(db.songs) <==> NamesAlbum(db.songs, id) {
      NamedIff(db, id);
    }
    hide Integrity, DeleteAlbumsWithNoSongs, ArtistsOfSongs, AlbumsOfSongs, NamesAlbum;
  }
}
