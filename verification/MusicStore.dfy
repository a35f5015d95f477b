/** The music store as the program sees it: tables changed one statement at a time. */
module MusicStoring {
  import opened Text
  import opened MusicTables

  class MusicStore {
    var artists: map<Id, Artist>
    var artistIndex: map<string, Id>
    var nextArtist: Id
    var albums: map<Id, Album>
    var albumIndex: map<AlbumKey, Id>
    var nextAlbum: Id
    var songs: map<Id, Song>
    var songIndex: map<string, Id>
    var nextSong: Id

    ghost function View(): Db
      reads this
    {
      Db(artists, artistIndex, nextArtist, albums, albumIndex, nextAlbum, songs, songIndex, nextSong)
    }

    constructor ()
      ensures Integrity(View())
      ensures songs == map[]
    {
      artists, artistIndex, nextArtist := map[], map[], 1;
      albums, albumIndex, nextAlbum := map[], map[], 1;
      songs, songIndex, nextSong := map[], map[], 1;
    }

    method UpsertArtistRow(a: Artist) returns (id: Id)
      requires Integrity(View())
      modifies this
      ensures View() == UpsertArtist(old(View()), a).0 && id == UpsertArtist(old(View()), a).1
      ensures Integrity(View()) && id in artists && AsciiLower(artists[id].name) == AsciiLower(a.name)
    {
      UpsertArtistKeepsIntegrity(View(), a);
      hide Integrity;
      var k := AsciiLower(a.name);
      if k in artistIndex {
        id := artistIndex[k];
        artists := artists[id := MergeArtist(artists[id], a)];
      } else {
        id := nextArtist;
        artists := artists[id := a];
        artistIndex := artistIndex[k := id];
        nextArtist := id + 1;
      }
    }

    method UpsertAlbumRow(a: Album) returns (r: Outcome<Id>)
      requires Integrity(View())
      modifies this
      ensures View() == UpsertAlbum(old(View()), a).0 && r == UpsertAlbum(old(View()), a).1
      ensures a.artistId in old(artists) ==>
                Integrity(View()) && r.Done? && r.value in albums && KeyOfAlbum(albums[r.value]) == KeyOfAlbum(a)
      ensures r.Failed? ==> View() == old(View()) && a.artistId !in artists
    {
      if a.artistId in artists {
        UpsertAlbumKeepsIntegrity(View(), a);
      }
      var k := (a.title, a.artistId);
      if k in albumIndex {
        var id := albumIndex[k];
        albums := albums[id := MergeAlbum(albums[id], a)];
        return Done(id);
      }
      if a.artistId !in artists {
        return Failed;
      }
      var id := nextAlbum;
      albums := albums[id := a];
      albumIndex := albumIndex[k := id];
      nextAlbum := id + 1;
      return Done(id);
    }

    method UpsertSongRow(path: string, meta: Meta, refs: Refs) returns (id: Id)
      requires Integrity(View())
      modifies this
      ensures View() == UpsertSong(old(View()), path, meta, refs).0 && id == UpsertSong(old(View()), path, meta, refs).1
      ensures RefsHold(old(artists), old(albums), refs) ==> Integrity(View()) && id in songs && songs[id].refs == refs
    {
      if RefsHold(artists, albums, refs) {
        UpsertSongKeepsIntegrity(View(), path, meta, refs);
      }
      if path in songIndex {
        id := songIndex[path];
        var row := songs[id];
        songs := songs[id := row.(meta := MergeMeta(row.meta, meta), refs := refs)];
      } else {
        id := nextSong;
        songs := songs[id := Song(path, meta, refs, false, 0)];
        songIndex := songIndex[path := id];
        nextSong := id + 1;
      }
    }

    /** The three cleanup statements, in the order a scan issues them. */
    method Cleanup()
      requires Integrity(View())
      modifies this
      ensures View() == DeleteMissingSongs(DeleteAlbumsWithNoSongs(DeleteArtistsWithNoSongs(old(View()))))
      ensures Integrity(View())
    {
      DeleteArtistsKeepsIntegrity(View());
      DeleteArtists();
      DeleteAlbumsKeepsIntegrity(View());
      DeleteAlbums();
      DeleteMissingKeepsIntegrity(View());
      DeleteMissing();
    }

    method DeleteArtists()
      modifies `artists, `artistIndex, `albums, `albumIndex
      ensures View() == DeleteArtistsWithNoSongs(old(View()))
    {
      var used := ArtistsOfSongs(songs);
      var gone := artists.Keys - used;
      var spared := set id | id in albums && albums[id].artistId !in gone;
      artists, artistIndex := Rows(artists, used), Entries(artistIndex, used);
      albums, albumIndex := Rows(albums, spared), Entries(albumIndex, spared);
    }

    method DeleteAlbums()
      modifies `albums, `albumIndex
      ensures View() == DeleteAlbumsWithNoSongs(old(View()))
    {
      var used := AlbumsOfSongs(songs);
      albums, albumIndex := Rows(albums, used), Entries(albumIndex, used);
    }

    method DeleteMissing()
      modifies `songs, `songIndex
      ensures View() == DeleteMissingSongs(old(View()))
    {
      var present := set id | id in songs && !songs[id].missing;
      songs, songIndex := Rows(songs, present), Entries(songIndex, present);
    }
  }
}
