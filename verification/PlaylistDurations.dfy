/** The stored song count and duration of a playlist, told by what single additions and removals do to them. */
module PlaylistDurations {
  import opened Seqs
  import opened PlaylistTables

  /** What a song contributes: nothing if the song table lacks it. */
  function Share(durations: map<int, int>, song: int): int {
    if song in durations then durations[song] else 0
  }

  lemma {:induction false} TotalConcat(a: seq<int>, b: seq<int>, durations: map<int, int>)
    ensures TotalDuration(a + b, durations) == TotalDuration(a, durations) + TotalDuration(b, durations)
  {
    if a == [] {
      assert a + b == b;
    } else {
      TotalConcat(a[1..], b, durations);
      assert (a + b)[1..] == a[1..] + b;
    }
  }

  /** Emptying a playlist leaves it with count and duration 0. */
  lemma EmptiedIsZero(db: Db, pl: int)
    requires Valid(db) && pl in db.playlists
    ensures var r := SetEntries(db, pl, []); r.Committed? && r.db.playlists[pl] == Playlist(0, 0)
  {
    SetMeaning(db, pl, []);
    assert TotalDuration([], db.durations) == 0;
  }

  /** Adding one song raises the count by one and the duration by the song's share. */
  lemma AddedSongCounts(db: Db, pl: int, song: int)
    requires Valid(db) && pl in db.playlists && CountsAgree(db, pl)
    ensures var r, was := AddEntries(db, pl, [song]), db.playlists[pl];
            r.Committed? && r.db.playlists[pl] == Playlist(was.songCount + 1, was.duration + Share(db.durations, song))
  {
    AddMeaning(db, pl, [song]);
    TotalConcat(Contents(db, pl), [song], db.durations);
    OneSong(song, db.durations);
    hide Contents, AddEntries, TotalDuration, Valid;
  }

  lemma OneSong(song: int, durations: map<int, int>)
    ensures TotalDuration([song], durations) == Share(durations, song)
  {
    assert TotalDuration([song][1..], durations) == 0;
  }

  lemma AppendInTwo(db: Db, pl: int, song: int, rest: seq<int>, from: int)
    requires pl in db.playlists
    ensures var first := Append(db, pl, [song], from);
            first.Committed? && Append(db, pl, [song] + rest, from) == Append(first.db, pl, rest, from + 1)
  {
    hide Of, SongsOf, TotalDuration, NewRows;
    NewRowsSplit(pl, song, rest, db.nextRow, from);
    Regroup(db.rows, NewRows(pl, [song], db.nextRow, from), NewRows(pl, rest, db.nextRow + 1, from + 1));
  }

  lemma NextPosition(db: Db, pl: int, song: int)
    requires Valid(db) && pl in db.playlists
    ensures var first := AddEntries(db, pl, [song]);
            first.Committed? && MaxPosition(first.db.rows, pl) == MaxPosition(db.rows, pl) + 1
  {
    hide AddEntries;
    AddMeaning(db, pl, [song]);
    var first := AddEntries(db, pl, [song]);
    MaxOfConsecutive(db.rows, pl, 0);
    MaxOfConsecutive(first.db.rows, pl, 0);
    EntriesInTableOrder(db, pl);
    EntriesInTableOrder(first.db, pl);
  }

  /** Adding a list is adding its first song and then the others. */
  lemma AddingOneByOne(db: Db, pl: int, song: int, rest: seq<int>)
    requires Valid(db) && pl in db.playlists
    ensures var first := AddEntries(db, pl, [song]);
            first.Committed? && AddEntries(db, pl, [song] + rest) == AddEntries(first.db, pl, rest)
  {
    hide *;
    var from := MaxPosition(db.rows, pl) + 1;
    NextPosition(db, pl, song);
    AddIsAppend(db, pl, [song], from);
    AddIsAppend(db, pl, [song] + rest, from);
    AppendInTwo(db, pl, song, rest, from);
    AddIsAppend(AddEntries(db, pl, [song]).db, pl, rest, from + 1);
  }

  lemma AddIsAppend(db: Db, pl: int, songs: seq<int>, from: int)
    requires from == MaxPosition(db.rows, pl) + 1
    ensures AddEntries(db, pl, songs) == Append(db, pl, songs, from)
  {
  }

  lemma NewRowsSplit(pl: int, song: int, rest: seq<int>, next: int, from: int)
    ensures NewRows(pl, [song] + rest, next, from) == NewRows(pl, [song], next, from) + NewRows(pl, rest, next + 1, from + 1)
  {
  }

  /** Setting a playlist is emptying it and adding. */
  lemma SettingIsAdding(db: Db, pl: int, songs: seq<int>)
    requires Valid(db) && pl in db.playlists
    ensures var emptied := SetEntries(db, pl, []);
            emptied.Committed? && SetEntries(db, pl, songs) == AddEntries(emptied.db, pl, songs)
  {
    var emptied := SetEntries(db, pl, []);
    SetMeaning(db, pl, []);
    MaxOfConsecutive(emptied.db.rows, pl, 0);
    EntriesInTableOrder(emptied.db, pl);
    assert NewRows(pl, [], db.nextRow, 0) == [];
    assert NotOf(db.rows, pl) + [] == NotOf(db.rows, pl);
  }

  lemma {:induction false} TotalWithoutOne(s: seq<int>, i: int, at: int, durations: map<int, int>)
    requires at <= i < at + |s|
    ensures TotalDuration(Dropped(s, [i], at), durations) == TotalDuration(s, durations) - Share(durations, s[i - at])
    ensures |Dropped(s, [i], at)| == |s| - 1
  {
    if i == at {
      NothingDropped(s[1..], i, at + 1);
    } else {
      TotalWithoutOne(s[1..], i, at + 1, durations);
      var rest := Dropped(s[1..], [i], at + 1);
      assert ([s[0]] + rest)[1..] == rest;
    }
  }

  lemma {:induction false} NothingDropped(s: seq<int>, i: int, at: int)
    requires i < at
    ensures Dropped(s, [i], at) == s
  {
    if s != [] {
      NothingDropped(s[1..], i, at + 1);
    }
  }

  /** Removing the song at one position lowers the count by one and the duration by that song's share. */
  lemma RemovedSongCounts(db: Db, pl: int, i: int)
    requires Valid(db) && pl in db.playlists && CountsAgree(db, pl) && 0 <= i < |Contents(db, pl)|
    ensures var end, was := RemoveEntries(db, pl, [i]), db.playlists[pl];
            pl in end.playlists && end.playlists[pl]
            == Playlist(was.songCount - 1, was.duration - Share(db.durations, Contents(db, pl)[i]))
  {
    RemoveMeaning(db, pl, [i]);
    TotalWithoutOne(Contents(db, pl), i, 0, db.durations);
    hide Contents, RemoveEntries, TotalDuration, Valid, Dropped;
  }
}
