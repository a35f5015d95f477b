/** The playlist store as the program runs it: transactions that delete, insert and renumber rows in loops
    and take effect when they commit. */
module PlaylistStoring {
  import opened Seqs
  import opened PlaylistTables

  function SortDescending(s: seq<int>): (r: seq<int>)
    ensures multiset(r) == multiset(s)
  {
    if s == [] then []
    else
      assert s == [s[0]] + s[1..];
      InsertDescending(s[0], SortDescending(s[1..]))
  }

  function InsertDescending(x: int, s: seq<int>): (r: seq<int>)
    ensures multiset(r) == multiset{x} + multiset(s)
  {
    if s == [] || x >= s[0] then [x] + s
    else
      assert s == [s[0]] + s[1..];
      [s[0]] + InsertDescending(x, s[1..])
  }

  class PlaylistStore {
    var rows: seq<Row>
    var nextRow: int
    var playlists: map<int, Playlist>
    var nextPlaylist: int
    var durations: map<int, int>

    ghost function View(): Db
      reads this
    {
      Db(rows, nextRow, playlists, nextPlaylist, durations)
    }

    constructor (durations: map<int, int>)
      ensures Valid(View()) && Lists(View()) == map[] && playlists == map[]
    {
      rows, nextRow, playlists, nextPlaylist, this.durations := [], 1, map[], 1, durations;
    }

    /** The number of the playlist's rows, and the total duration of their songs. */
    method Counts(rows: seq<Row>, pl: int) returns (p: Playlist)
      ensures p == Playlist(|Of(rows, pl)|, TotalDuration(SongsOf(Of(rows, pl)), durations))
    {
      p := Playlist(|Of(rows, pl)|, TotalDuration(SongsOf(Of(rows, pl)), durations));
    }

    /** syncPlaylistCounts inside a transaction whose entry table is `txRows`, then the commit. */
    method SyncAndCommit(pl: int, txRows: seq<Row>, txNext: int)
      modifies this
      ensures View() == Sync(old(View()).(rows := txRows, nextRow := txNext), pl)
    {
      if pl in playlists {
        var p := Counts(txRows, pl);
        playlists := playlists[pl := p];
      }
      rows, nextRow := txRows, txNext;
    }

    /** The insert loop of SetPlaylistEntries: positions count from 0. */
    method InsertFromZero(pl: int, songIDs: seq<int>, kept: seq<Row>) returns (ok: bool, txRows: seq<Row>)
      ensures ok <==> songIDs == [] || pl in playlists
      ensures ok ==> txRows == kept + NewRows(pl, songIDs, nextRow, 0)
    {
      txRows := kept;
      var i := 0;
      while i < |songIDs|
        invariant 0 <= i <= |songIDs| && (i > 0 ==> pl in playlists)
        invariant txRows == kept + NewRows(pl, songIDs[..i], nextRow, 0)
      {
        if pl !in playlists {
          return false, kept;
        }
        OneMoreRow(kept, pl, songIDs, nextRow, 0, i);
        txRows := txRows + [Row(nextRow + i, pl, songIDs[i], i)];
        i := i + 1;
      }
      assert songIDs[..i] == songIDs;
      return true, txRows;
    }

    /** The insert loop of AddToPlaylist: positions go on after the greatest one. */
    method InsertAfter(pl: int, songIDs: seq<int>, greatest: int) returns (ok: bool, txRows: seq<Row>)
      ensures ok <==> songIDs == [] || pl in playlists
      ensures ok ==> txRows == rows + NewRows(pl, songIDs, nextRow, greatest + 1)
    {
      txRows := rows;
      var maxPos := greatest;
      var i := 0;
      while i < |songIDs|
        invariant 0 <= i <= |songIDs| && maxPos == greatest + i && (i > 0 ==> pl in playlists)
        invariant txRows == rows + NewRows(pl, songIDs[..i], nextRow, greatest + 1)
      {
        maxPos := maxPos + 1;
        if pl !in playlists {
          return false, rows;
        }
        OneMoreRow(rows, pl, songIDs, nextRow, greatest + 1, i);
        txRows := txRows + [Row(nextRow + i, pl, songIDs[i], maxPos)];
        i := i + 1;
      }
      assert songIDs[..i] == songIDs;
      return true, txRows;
    }

    /** False when the transaction was rolled back. */
    method SetPlaylistEntries(pl: int, songIDs: seq<int>) returns (ok: bool)
      requires Valid(View())
      modifies this
      ensures ok == SetEntries(old(View()), pl, songIDs).Committed?
      ensures View() == if ok then SetEntries(old(View()), pl, songIDs).db else old(View())
      ensures Valid(View()) && (ok ==> Contents(View(), pl) == songIDs && CountsAgree(View(), pl))
    {
      SetMeaning(View(), pl, songIDs);
      hide Valid, CountsAgree, Contents;
      var txRows;
      ok, txRows := InsertFromZero(pl, songIDs, NotOf(rows, pl));
      if ok {
        SyncAndCommit(pl, txRows, nextRow + |songIDs|);
      }
    }

    method AddToPlaylist(pl: int, songIDs: seq<int>) returns (ok: bool)
      requires Valid(View())
      modifies this
      ensures ok == AddEntries(old(View()), pl, songIDs).Committed?
      ensures View() == if ok then AddEntries(old(View()), pl, songIDs).db else old(View())
      ensures Valid(View()) && (ok ==> Contents(View(), pl) == old(Contents(View(), pl)) + songIDs && CountsAgree(View(), pl))
    {
      AddMeaning(View(), pl, songIDs);
      hide Valid, CountsAgree, Contents;
      var txRows;
      ok, txRows := InsertAfter(pl, songIDs, MaxPosition(rows, pl));
      if ok {
        SyncAndCommit(pl, txRows, nextRow + |songIDs|);
      }
    }

    lemma OneMoreRow(kept: seq<Row>, pl: int, songs: seq<int>, next: int, from: int, i: nat)
      requires i < |songs|
      ensures kept + NewRows(pl, songs[..i], next, from) + [Row(next + i, pl, songs[i], from + i)]
              == kept + NewRows(pl, songs[..i + 1], next, from)
    {
      assert NewRows(pl, songs[..i + 1], next, from)
             == NewRows(pl, songs[..i], next, from) + [Row(next + i, pl, songs[i], from + i)];
      Regroup(kept, NewRows(pl, songs[..i], next, from), [Row(next + i, pl, songs[i], from + i)]);
    }

    method RemoveFromPlaylist(pl: int, indices: seq<int>)
      requires Valid(View())
      modifies this
      ensures View() == RemoveEntries(old(View()), pl, indices)
      ensures Valid(View()) && CountsAgree(View(), pl)
      ensures Contents(View(), pl) == Dropped(old(Contents(View(), pl)), indices, 0)
    {
      RemoveMeaning(View(), pl, indices);
      hide Valid, CountsAgree, Contents;
      ghost var before := View();
      var sorted := SortDescending(indices);
      var left := rows;
      KeepEverything(rows, (r: Row) => !(r.playlist == pl && r.position in sorted[..0]));
      var i := 0;
      while i < |sorted|
        invariant 0 <= i <= |sorted| && left == Without(rows, pl, sorted[..i]) && View() == before
      {
        var idx := sorted[i];
        RemoveOneMore(rows, pl, sorted, i);
        left := Keep(left, (r: Row) => !(r.playlist == pl && r.position == idx));
        i := i + 1;
      }
      assert sorted[..i] == sorted;
      SameIndices(rows, pl, sorted, indices);
      SyncAndCommit(pl, Renumbered(left, left, pl), nextRow);
    }

    lemma RemoveOneMore(rows: seq<Row>, pl: int, sorted: seq<int>, i: nat)
      requires i < |sorted|
      ensures Keep(Without(rows, pl, sorted[..i]), (r: Row) => !(r.playlist == pl && r.position == sorted[i]))
              == Without(rows, pl, sorted[..i + 1])
    {
      var p := (r: Row) => !(r.playlist == pl && r.position in sorted[..i]);
      var q := (r: Row) => !(r.playlist == pl && r.position == sorted[i]);
      assert forall x :: x in sorted[..i + 1] <==> x in sorted[..i] || x == sorted[i];
      KeepTwice(rows, p, q, (r: Row) => !(r.playlist == pl && r.position in sorted[..i + 1]));
    }

    lemma SameIndices(rows: seq<Row>, pl: int, sorted: seq<int>, indices: seq<int>)
      requires multiset(sorted) == multiset(indices)
      ensures Without(rows, pl, sorted) == Without(rows, pl, indices)
    {
      assert forall x :: x in sorted <==> x in multiset(sorted);
      assert forall x :: x in indices <==> x in multiset(indices);
      KeepSame(rows, (r: Row) => !(r.playlist == pl && r.position in sorted), (r: Row) => !(r.playlist == pl && r.position in indices));
    }

    method Delete(pl: int)
      requires Valid(View())
      modifies this
      ensures View() == DeletePlaylist(old(View()), pl) && Valid(View())
    {
      DeleteMeaning(View(), pl);
      rows := NotOf(rows, pl);
      playlists := playlists - {pl};
    }

    /** GetPlaylistEntries: the songs at positions 0, 1, 2, ... */
    method GetPlaylistEntries(pl: int) returns (entries: seq<Row>)
      requires Valid(View())
      ensures entries == Entries(rows, pl) && SongsOf(entries) == Contents(View(), pl)
      ensures forall i :: 0 <= i < |entries| ==> entries[i].position == i
    {
      EntriesInTableOrder(View(), pl);
      entries := SortByPosition(Of(rows, pl));
    }
  }
}
