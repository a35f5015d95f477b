/** The playlist tables: entry rows carry explicit positions, and each playlist row caches a count and a
    total duration. */
module PlaylistTables {
  import opened Seqs

  datatype Row = Row(id: int, playlist: int, song: int, position: int)

  datatype Playlist = Playlist(songCount: int, duration: int)

  /** `rows` is the entry table in the order of its ids; `durations` is the song table's duration column. */
  datatype Db = Db(rows: seq<Row>, nextRow: int, playlists: map<int, Playlist>, nextPlaylist: int, durations: map<int, int>)

  function Of(rows: seq<Row>, pl: int): seq<Row> {
    Keep(rows, (r: Row) => r.playlist == pl)
  }

  function NotOf(rows: seq<Row>, pl: int): seq<Row> {
    Keep(rows, (r: Row) => r.playlist != pl)
  }

  function SongsOf(rows: seq<Row>): (r: seq<int>)
    ensures |r| == |rows|
    ensures forall i :: 0 <= i < |rows| ==> r[i] == rows[i].song
  {
    seq(|rows|, i requires 0 <= i < |rows| => rows[i].song)
  }

  // ----- the statements

  /** In order of position, and of id where positions are equal. */
  predicate Before(q: Row, r: Row) {
    q.position < r.position || (q.position == r.position && q.id < r.id)
  }

  function InsertByPosition(r: Row, s: seq<Row>): seq<Row> {
    if s == [] || Before(r, s[0]) then [r] + s else [s[0]] + InsertByPosition(r, s[1..])
  }

  function SortByPosition(s: seq<Row>): seq<Row> {
    if s == [] then [] else InsertByPosition(s[0], SortByPosition(s[1..]))
  }

  /** GetPlaylistEntries: the playlist's rows in order of position. */
  function Entries(rows: seq<Row>, pl: int): seq<Row> {
    SortByPosition(Of(rows, pl))
  }

  ghost predicate InOrder(s: seq<Row>) {
    forall i, j :: 0 <= i < j < |s| ==> !Before(s[j], s[i])
  }

  lemma {:induction false} InsertMeaning(r: Row, s: seq<Row>)
    requires InOrder(s)
    ensures multiset(InsertByPosition(r, s)) == multiset(s) + multiset{r}
    ensures InOrder(InsertByPosition(r, s))
  {
    if s != [] && !Before(r, s[0]) {
      Uncons(s);
      InsertMeaning(r, s[1..]);
      var rest := InsertByPosition(r, s[1..]);
      forall j | 0 <= j < |rest| ensures !Before(rest[j], s[0]) {
        assert rest[j] in multiset(rest);
        assert rest[j] == r || rest[j] in s[1..];
      }
    }
  }

  lemma {:induction false} SortMeaning(s: seq<Row>)
    ensures multiset(SortByPosition(s)) == multiset(s) && InOrder(SortByPosition(s))
  {
    hide InOrder, InsertByPosition;
    if s == [] {
      EmptyInOrder();
    } else {
      Uncons(s);
      SortMeaning(s[1..]);
      InsertMeaning(s[0], SortByPosition(s[1..]));
    }
  }

  lemma EmptyInOrder()
    ensures InOrder([])
  {
  }

  /** The entries are the playlist's rows, each as often as it is there, by position and then by id; whatever the
      positions. */
  lemma EntriesMeaning(rows: seq<Row>, pl: int)
    ensures var r := Entries(rows, pl);
            && InOrder(r)
            && (forall x: Row :: multiset(r)[x] == if x.playlist == pl then multiset(rows)[x] else 0)
  {
    SortMeaning(Of(rows, pl));
    OccurrencesOf(rows, pl);
    hide InOrder, SortByPosition, Of;
  }

  lemma {:induction false} OccurrencesOf(rows: seq<Row>, pl: int)
    ensures forall x: Row :: multiset(Of(rows, pl))[x] == if x.playlist == pl then multiset(rows)[x] else 0
  {
    if rows != [] {
      Uncons(rows);
      OccurrencesOf(rows[1..], pl);
    }
  }

  /** The greatest position, or -1 where there is none. */
  function MaxPosition(rows: seq<Row>, pl: int): int {
    if rows == [] then -1
    else
      var rest := MaxPosition(rows[1..], pl);
      if rows[0].playlist == pl && rows[0].position > rest then rows[0].position else rest
  }

  function NewRows(pl: int, songs: seq<int>, nextRow: int, from: int): (r: seq<Row>)
    ensures |r| == |songs|
    ensures forall i :: 0 <= i < |songs| ==> r[i] == Row(nextRow + i, pl, songs[i], from + i)
  {
    seq(|songs|, i requires 0 <= i < |songs| => Row(nextRow + i, pl, songs[i], from + i))
  }

  /** How many of the playlist's rows come before r. */
  function Rank(rows: seq<Row>, r: Row): nat {
    |Keep(Of(rows, r.playlist), (q: Row) => Before(q, r))|
  }

  function Renumbered(rows: seq<Row>, all: seq<Row>, pl: int): (s: seq<Row>)
    ensures |s| == |rows|
  {
    if rows == [] then []
    else [if rows[0].playlist == pl then rows[0].(position := Rank(all, rows[0])) else rows[0]] + Renumbered(rows[1..], all, pl)
  }

  /** The total duration of the songs that exist; an entry whose song is gone joins nothing. */
  function TotalDuration(songs: seq<int>, durations: map<int, int>): int {
    if songs == [] then 0
    else (if songs[0] in durations then durations[songs[0]] else 0) + TotalDuration(songs[1..], durations)
  }

  /** syncPlaylistCounts: nothing happens when the playlist row does not exist. */
  function Sync(db: Db, pl: int): Db {
    if pl in db.playlists then
      db.(playlists := db.playlists[pl := Playlist(|Of(db.rows, pl)|, TotalDuration(SongsOf(Of(db.rows, pl)), db.durations))])
    else db
  }

  // ----- the operations

  datatype Outcome = Committed(db: Db) | RolledBack

  /** Inserting an entry for a playlist that does not exist violates the foreign key. */
  function Append(db: Db, pl: int, songs: seq<int>, from: int): Outcome {
    if songs != [] && pl !in db.playlists then RolledBack
    else Committed(Sync(db.(rows := db.rows + NewRows(pl, songs, db.nextRow, from), nextRow := db.nextRow + |songs|), pl))
  }

  function SetEntries(db: Db, pl: int, songs: seq<int>): Outcome {
    Append(db.(rows := NotOf(db.rows, pl)), pl, songs, 0)
  }

  function AddEntries(db: Db, pl: int, songs: seq<int>): Outcome {
    Append(db, pl, songs, MaxPosition(db.rows, pl) + 1)
  }

  function Without(rows: seq<Row>, pl: int, indices: seq<int>): seq<Row> {
    Keep(rows, (r: Row) => !(r.playlist == pl && r.position in indices))
  }

  function RemoveEntries(db: Db, pl: int, indices: seq<int>): Db {
    var left := Without(db.rows, pl, indices);
    Sync(db.(rows := Renumbered(left, left, pl)), pl)
  }

  function DeletePlaylist(db: Db, pl: int): Db {
    db.(rows := NotOf(db.rows, pl), playlists := db.playlists - {pl})
  }

  function CreatePlaylist(db: Db, p: Playlist): Db {
    db.(playlists := db.playlists[db.nextPlaylist := p], nextPlaylist := db.nextPlaylist + 1)
  }

  // ----- what the rows of one playlist look like

  /** Positions are exactly 0, 1, 2, ... in table order. */
  predicate Consecutive(s: seq<Row>, from: int) {
    s == [] || (s[0].position == from && Consecutive(s[1..], from + 1))
  }

  ghost predicate Valid(db: Db) {
    && (forall pl :: Consecutive(Of(db.rows, pl), 0))
    && (forall pl :: pl !in db.playlists ==> Of(db.rows, pl) == [])
    && (forall pl :: pl in db.playlists ==> pl < db.nextPlaylist)
  }

  /** The playlist as its users see it. */
  function Contents(db: Db, pl: int): seq<int> {
    SongsOf(Entries(db.rows, pl))
  }

  predicate CountsAgree(db: Db, pl: int) {
    pl in db.playlists ==>
      && db.playlists[pl].songCount == |Contents(db, pl)|
      && db.playlists[pl].duration == TotalDuration(Contents(db, pl), db.durations)
  }

  lemma {:induction false} ConsecutiveAt(s: seq<Row>, from: int, i: nat)
    requires Consecutive(s, from) && i < |s|
    ensures s[i].position == from + i
  {
    if i > 0 {
      ConsecutiveAt(s[1..], from + 1, i - 1);
    }
  }

  lemma {:induction false} ConsecutiveConcat(a: seq<Row>, b: seq<Row>, from: int)
    requires Consecutive(a, from) && Consecutive(b, from + |a|)
    ensures Consecutive(a + b, from)
  {
    if a == [] {
      assert a + b == b;
    } else {
      assert (a + b)[1..] == a[1..] + b && (a + b)[0] == a[0];
      ConsecutiveConcat(a[1..], b, from + 1);
    }
  }

  lemma {:induction false} SortedAlready(s: seq<Row>, from: int)
    requires Consecutive(s, from)
    ensures SortByPosition(s) == s
  {
    if s != [] {
      SortedAlready(s[1..], from + 1);
      assert s[1..] != [] ==> s[1..][0].position == from + 1;
    }
  }

  /** While positions are consecutive, reading a playlist by position is reading it in table order. */
  lemma EntriesInTableOrder(db: Db, pl: int)
    requires Valid(db)
    ensures Entries(db.rows, pl) == Of(db.rows, pl)
    ensures forall i :: 0 <= i < |Entries(db.rows, pl)| ==> Entries(db.rows, pl)[i].position == i
  {
    SortedAlready(Of(db.rows, pl), 0);
    forall i | 0 <= i < |Of(db.rows, pl)| ensures Of(db.rows, pl)[i].position == i {
      ConsecutiveAt(Of(db.rows, pl), 0, i);
    }
  }

  lemma SongsConcat(a: seq<Row>, b: seq<Row>)
    ensures SongsOf(a + b) == SongsOf(a) + SongsOf(b)
  {
  }

  // ----- what the statements do to one playlist's rows

  lemma {:induction false} DeletedRows(rows: seq<Row>, pl: int, other: int)
    ensures Of(NotOf(rows, pl), pl) == []
    ensures other != pl ==> Of(NotOf(rows, pl), other) == Of(rows, other)
  {
    if rows != [] {
      DeletedRows(rows[1..], pl, other);
      KeepCons(rows[0], NotOf(rows[1..], pl), (r: Row) => r.playlist == other);
      KeepCons(rows[0], NotOf(rows[1..], pl), (r: Row) => r.playlist == pl);
    }
  }

  lemma {:induction false} AppendedRows(pl: int, songs: seq<int>, nextRow: int, from: int, other: int)
    ensures Of(NewRows(pl, songs, nextRow, from), pl) == NewRows(pl, songs, nextRow, from)
    ensures other != pl ==> Of(NewRows(pl, songs, nextRow, from), other) == []
    ensures Consecutive(NewRows(pl, songs, nextRow, from), from)
    ensures SongsOf(NewRows(pl, songs, nextRow, from)) == songs
  {
    if songs != [] {
      AppendedRows(pl, songs[1..], nextRow + 1, from + 1, other);
      assert NewRows(pl, songs, nextRow, from)[1..] == NewRows(pl, songs[1..], nextRow + 1, from + 1);
    }
  }

  lemma {:induction false} MaxOfConsecutive(rows: seq<Row>, pl: int, from: nat)
    requires Consecutive(Of(rows, pl), from)
    ensures MaxPosition(rows, pl) == if Of(rows, pl) == [] then -1 else from + |Of(rows, pl)| - 1
  {
    if rows != [] {
      if rows[0].playlist == pl {
        assert Of(rows, pl)[1..] == Of(rows[1..], pl);
        MaxOfConsecutive(rows[1..], pl, from + 1);
      } else {
        MaxOfConsecutive(rows[1..], pl, from);
      }
    }
  }

  predicate Ascending(s: seq<Row>, above: int) {
    s == [] || (above < s[0].position && Ascending(s[1..], s[0].position))
  }

  lemma {:induction false} ConsecutiveAscends(s: seq<Row>, from: int)
    requires Consecutive(s, from)
    ensures Ascending(s, from - 1)
  {
    if s != [] {
      ConsecutiveAscends(s[1..], from + 1);
    }
  }

  lemma {:induction false} AscendingWeaken(s: seq<Row>, above: int, below: int)
    requires Ascending(s, above) && below <= above
    ensures Ascending(s, below)
  {
  }

  lemma {:induction false} AscendingKeep(s: seq<Row>, above: int, p: Row -> bool)
    requires Ascending(s, above)
    ensures Ascending(Keep(s, p), above)
  {
    if s != [] {
      AscendingKeep(s[1..], s[0].position, p);
      if p(s[0]) {
        assert ([s[0]] + Keep(s[1..], p))[1..] == Keep(s[1..], p);
      } else {
        AscendingWeaken(Keep(s[1..], p), s[0].position, above);
      }
    }
  }

  lemma {:induction false} AscendingAbove(s: seq<Row>, above: int, r: Row)
    requires Ascending(s, above) && r in s
    ensures above < r.position
  {
    if r != s[0] {
      AscendingAbove(s[1..], s[0].position, r);
    }
  }

  /** In an ascending list the rows before the i-th are the first i. */
  lemma {:induction false} RankInAscending(s: seq<Row>, above: int, i: nat)
    requires Ascending(s, above) && i < |s|
    ensures |Keep(s, (q: Row) => Before(q, s[i]))| == i
  {
    var p := (q: Row) => Before(q, s[i]);
    if i == 0 {
      forall q | q in s ensures !p(q) {
        if q != s[0] {
          AscendingAbove(s[1..], s[0].position, q);
        }
      }
      KeepNothing(s, p);
    } else {
      RankInAscending(s[1..], s[0].position, i - 1);
      AscendingAbove(s[1..], s[0].position, s[i]);
      assert s[1..][i - 1] == s[i];
    }
  }

  lemma {:induction false} KeepNothing<T>(s: seq<T>, p: T -> bool)
    requires forall x :: x in s ==> !p(x)
    ensures Keep(s, p) == []
  {
    if s != [] {
      KeepNothing(s[1..], p);
    }
  }

  lemma {:induction false} RenumberedRows(rows: seq<Row>, all: seq<Row>, pl: int, other: int)
    ensures Of(Renumbered(rows, all, pl), pl) == Renumbered(Of(rows, pl), all, pl)
    ensures other != pl ==> Of(Renumbered(rows, all, pl), other) == Of(rows, other)
    ensures SongsOf(Renumbered(rows, all, pl)) == SongsOf(rows)
  {
    if rows != [] {
      RenumberedRows(rows[1..], all, pl, other);
      var row := rows[0];
      var x := if row.playlist == pl then row.(position := Rank(all, row)) else row;
      var rest := Renumbered(rows[1..], all, pl);
      KeepCons(x, rest, (r: Row) => r.playlist == pl);
      KeepCons(x, rest, (r: Row) => r.playlist == other);
      Uncons(rows);
      SongsConcat([row], rows[1..]);
      SongsConcat([x], rest);
      assert SongsOf([x]) == SongsOf([row]);
      hide SongsOf;
      if row.playlist == pl {
        var tail := Of(rows[1..], pl);
        assert ([row] + tail)[1..] == tail;
      }
    }
  }

  /** Renumbering an ascending playlist gives its i-th row position i. */
  lemma {:induction false} RenumberedIsConsecutive(s: seq<Row>, all: seq<Row>, pl: int, from: nat)
    requires Ascending(Of(all, pl), -1) && from <= |Of(all, pl)| && s == Of(all, pl)[from..]
    requires forall r :: r in Of(all, pl) ==> r.playlist == pl
    ensures Consecutive(Renumbered(s, all, pl), from)
    decreases |s|
  {
    if s != [] {
      assert s[0] == Of(all, pl)[from];
      RankInAscending(Of(all, pl), -1, from);
      assert s[1..] == Of(all, pl)[from + 1..];
      RenumberedIsConsecutive(s[1..], all, pl, from + 1);
    }
  }

  /** The elements whose index, counted from `at`, is not listed. */
  function Dropped(s: seq<int>, indices: seq<int>, at: int): seq<int> {
    if s == [] then []
    else if at in indices then Dropped(s[1..], indices, at + 1)
    else [s[0]] + Dropped(s[1..], indices, at + 1)
  }

  lemma {:induction false} RemovedRows(rows: seq<Row>, pl: int, indices: seq<int>, other: int)
    ensures Of(Without(rows, pl, indices), pl) == Keep(Of(rows, pl), (r: Row) => r.position !in indices)
    ensures other != pl ==> Of(Without(rows, pl, indices), other) == Of(rows, other)
  {
    if rows != [] {
      RemovedRows(rows[1..], pl, indices, other);
      var row, rest := rows[0], Without(rows[1..], pl, indices);
      KeepCons(row, rest, (r: Row) => r.playlist == pl);
      KeepCons(row, rest, (r: Row) => r.playlist == other);
      KeepCons(row, Of(rows[1..], pl), (r: Row) => r.position !in indices);
    }
  }

  lemma {:induction false} DroppedSongs(s: seq<Row>, indices: seq<int>, from: int)
    requires Consecutive(s, from)
    ensures SongsOf(Keep(s, (r: Row) => r.position !in indices)) == Dropped(SongsOf(s), indices, from)
  {
    if s != [] {
      DroppedSongs(s[1..], indices, from + 1);
      assert SongsOf(s)[1..] == SongsOf(s[1..]);
      var rest := Keep(s[1..], (r: Row) => r.position !in indices);
      SongsConcat([s[0]], rest);
      assert SongsOf([s[0]]) == [s[0].song];
    }
  }

  // ----- the operations keep positions consecutive and mean what they say

  /** The rows of one playlist changed to `now`, all others stayed; and its counts were brought up to date. */
  lemma Rewritten(db: Db, db': Db, pl: int, now: seq<Row>)
    requires Valid(db) && Of(db'.rows, pl) == now && Consecutive(now, 0)
    requires forall other :: other != pl ==> Of(db'.rows, other) == Of(db.rows, other)
    requires now != [] ==> pl in db.playlists
    requires db'.playlists == db.playlists && db'.nextPlaylist == db.nextPlaylist
    ensures var end := Sync(db', pl);
            && Valid(end) && CountsAgree(end, pl) && end.playlists.Keys == db.playlists.Keys
            && Contents(end, pl) == SongsOf(now)
            && (forall other :: other != pl ==> Contents(end, other) == Contents(db, other))
            && (forall other :: other != pl && other in db.playlists ==> end.playlists[other] == db.playlists[other])
            && end.durations == db'.durations
  {
    var end := Sync(db', pl);
    assert Valid(end) by {
      forall x ensures Consecutive(Of(end.rows, x), 0) {
        assert x != pl ==> Of(db'.rows, x) == Of(db.rows, x);
      }
    }
    EntriesInTableOrder(end, pl);
    forall other | other != pl ensures Contents(end, other) == Contents(db, other) {
      EntriesInTableOrder(end, other);
      EntriesInTableOrder(db, other);
    }
    hide Of;
  }

  lemma OthersUnchanged(kept: seq<Row>, pl: int, songs: seq<int>, nextRow: int, from: int, other: int)
    requires other != pl
    ensures Of(kept + NewRows(pl, songs, nextRow, from), other) == Of(kept, other)
  {
    AppendedRows(pl, songs, nextRow, from, other);
    KeepConcat(kept, NewRows(pl, songs, nextRow, from), (r: Row) => r.playlist == other);
  }

  lemma AppendMeaning(db: Db, kept: seq<Row>, pl: int, songs: seq<int>)
    requires Valid(db) && Consecutive(Of(kept, pl), 0) && (songs != [] || Of(kept, pl) != [] ==> pl in db.playlists)
    requires forall other :: other != pl ==> Of(kept, other) == Of(db.rows, other)
    ensures var r := Append(db.(rows := kept), pl, songs, |Of(kept, pl)|);
            && r.Committed? && Valid(r.db) && CountsAgree(r.db, pl) && r.db.playlists.Keys == db.playlists.Keys
            && Contents(r.db, pl) == SongsOf(Of(kept, pl)) + songs
            && (forall other :: other != pl ==> Contents(r.db, other) == Contents(db, other))
            && (forall other :: other != pl && other in db.playlists ==> r.db.playlists[other] == db.playlists[other])
            && r.db.durations == db.durations
  {
    var from := |Of(kept, pl)|;
    var added := NewRows(pl, songs, db.nextRow, from);
    var rows := kept + added;
    AppendedRows(pl, songs, db.nextRow, from, pl + 1);
    KeepConcat(kept, added, (r: Row) => r.playlist == pl);
    ConsecutiveConcat(Of(kept, pl), added, 0);
    SongsConcat(Of(kept, pl), added);
    forall other | other != pl ensures Of(rows, other) == Of(db.rows, other) {
      OthersUnchanged(kept, pl, songs, db.nextRow, from, other);
    }
    hide Of, NewRows, TotalDuration;
    Rewritten(db, db.(rows := rows, nextRow := db.nextRow + |songs|), pl, Of(kept, pl) + added);
  }

  /** Setting a playlist replaces its songs and leaves every other playlist alone. It is refused, without
      effect, exactly when there are songs but no such playlist. */
  lemma SetMeaning(db: Db, pl: int, songs: seq<int>)
    requires Valid(db)
    ensures var r := SetEntries(db, pl, songs);
            && (r.RolledBack? <==> songs != [] && pl !in db.playlists)
            && (r.Committed? ==>
                  && Valid(r.db) && CountsAgree(r.db, pl) && r.db.playlists.Keys == db.playlists.Keys
                  && Contents(r.db, pl) == songs
                  && (forall other :: other != pl ==> Contents(r.db, other) == Contents(db, other))
                  && (forall other :: other != pl && other in db.playlists ==> r.db.playlists[other] == db.playlists[other])
                  && r.db.durations == db.durations)
  {
    if songs == [] || pl in db.playlists {
      forall other | other != pl ensures Of(NotOf(db.rows, pl), other) == Of(db.rows, other) {
        DeletedRows(db.rows, pl, other);
      }
      DeletedRows(db.rows, pl, pl);
      AppendMeaning(db, NotOf(db.rows, pl), pl, songs);
      assert SongsOf([]) + songs == songs;
    }
  }

  /** Adding appends, whatever the playlist held. */
  lemma AddMeaning(db: Db, pl: int, songs: seq<int>)
    requires Valid(db)
    ensures var r := AddEntries(db, pl, songs);
            && (r.RolledBack? <==> songs != [] && pl !in db.playlists)
            && (r.Committed? ==>
                  && Valid(r.db) && CountsAgree(r.db, pl) && r.db.playlists.Keys == db.playlists.Keys
                  && Contents(r.db, pl) == Contents(db, pl) + songs
                  && (forall other :: other != pl ==> Contents(r.db, other) == Contents(db, other))
                  && (forall other :: other != pl && other in db.playlists ==> r.db.playlists[other] == db.playlists[other])
                  && r.db.durations == db.durations)
  {
    if songs == [] || pl in db.playlists {
      MaxOfConsecutive(db.rows, pl, 0);
      EntriesInTableOrder(db, pl);
      AppendMeaning(db, db.rows, pl, songs);
    }
  }

  lemma LeftRows(db: Db, pl: int, indices: seq<int>)
    requires Valid(db)
    ensures var left := Without(db.rows, pl, indices);
            && Consecutive(Of(Renumbered(left, left, pl), pl), 0)
            && SongsOf(Of(Renumbered(left, left, pl), pl)) == Dropped(Contents(db, pl), indices, 0)
            && (Of(db.rows, pl) == [] ==> Of(Renumbered(left, left, pl), pl) == [])
  {
    var left, s := Without(db.rows, pl, indices), Of(db.rows, pl);
    var p := (r: Row) => r.position !in indices;
    EntriesInTableOrder(db, pl);
    RemovedRows(db.rows, pl, indices, pl);
    ConsecutiveAscends(s, 0);
    AscendingKeep(s, -1, p);
    DroppedSongs(s, indices, 0);
    RenumberedRows(left, left, pl, pl);
    RenumberedRows(Of(left, pl), left, pl, pl);
    KeepMembers(left, (r: Row) => r.playlist == pl);
    assert Of(left, pl)[0..] == Of(left, pl);
    RenumberedIsConsecutive(Of(left, pl), left, pl, 0);
  }

  /** Removing drops exactly the songs at the listed positions that exist, whatever the order and repetition
      of the list, and keeps the order of the rest. */
  lemma RemoveMeaning(db: Db, pl: int, indices: seq<int>)
    requires Valid(db)
    ensures var end := RemoveEntries(db, pl, indices);
            && Valid(end) && CountsAgree(end, pl) && end.playlists.Keys == db.playlists.Keys
            && Contents(end, pl) == Dropped(Contents(db, pl), indices, 0)
            && (forall other :: other != pl ==> Contents(end, other) == Contents(db, other))
            && (forall other :: other != pl && other in db.playlists ==> end.playlists[other] == db.playlists[other])
            && end.durations == db.durations
  {
    var left := Without(db.rows, pl, indices);
    var rows := Renumbered(left, left, pl);
    LeftRows(db, pl, indices);
    forall other | other != pl ensures Of(rows, other) == Of(db.rows, other) {
      RemovedRows(db.rows, pl, indices, other);
      RenumberedRows(left, left, pl, other);
    }
    Rewritten(db, db.(rows := rows), pl, Of(rows, pl));
  }

  /** How many of the n indices from `at` on are not listed. */
  function Kept(indices: seq<int>, at: int, n: nat): (k: nat)
    ensures k <= n
    decreases n
  {
    if n == 0 then 0 else (if at in indices then 0 else 1) + Kept(indices, at + 1, n - 1)
  }

  /** The songs a removal keeps, told by index: there are as many as unlisted indices, and the song at an index
      that is not listed comes after exactly as many as there are unlisted indices before it. */
  lemma {:induction false} DroppedMeaning(s: seq<int>, indices: seq<int>, at: int)
    ensures |Dropped(s, indices, at)| == Kept(indices, at, |s|)
    ensures forall i :: 0 <= i < |s| && at + i !in indices ==>
              Kept(indices, at, i) < |Dropped(s, indices, at)| && Dropped(s, indices, at)[Kept(indices, at, i)] == s[i]
  {
    if s != [] {
      DroppedMeaning(s[1..], indices, at + 1);
      forall i | 0 < i < |s| && at + i !in indices
        ensures Kept(indices, at, i) < |Dropped(s, indices, at)| && Dropped(s, indices, at)[Kept(indices, at, i)] == s[i]
      {
        assert s[1..][i - 1] == s[i] && at + 1 + (i - 1) !in indices;
      }
    }
  }

  /** Only which indices are listed counts, not their order or repetition; the order of the songs is kept. */
  lemma {:induction false} DroppedByMembership(s: seq<int>, indices: seq<int>, others: seq<int>, at: int)
    requires forall i :: at <= i < at + |s| ==> (i in indices <==> i in others)
    ensures Dropped(s, indices, at) == Dropped(s, others, at)
    ensures Subsequence(Dropped(s, indices, at), s)
    ensures (forall i :: at <= i < at + |s| ==> i !in indices) ==> Dropped(s, indices, at) == s
    ensures (forall i :: at <= i < at + |s| ==> i in indices) ==> Dropped(s, indices, at) == []
  {
    if s != [] {
      DroppedByMembership(s[1..], indices, others, at + 1);
      Uncons(s);
      if at in indices {
        SubsequenceSkip(Dropped(s[1..], indices, at + 1), s[0], s[1..]);
      } else {
        SubsequenceCons(s[0], Dropped(s[1..], indices, at + 1), s[1..]);
      }
    }
  }

  lemma DeleteMeaning(db: Db, pl: int)
    requires Valid(db)
    ensures var end := DeletePlaylist(db, pl);
            && Valid(end) && end.playlists == db.playlists - {pl} && Contents(end, pl) == []
            && (forall other :: other != pl ==> Contents(end, other) == Contents(db, other))
  {
    var end := DeletePlaylist(db, pl);
    forall other ensures if other == pl then Of(end.rows, other) == [] else Of(end.rows, other) == Of(db.rows, other) {
      DeletedRows(db.rows, pl, other);
    }
    assert forall x :: Consecutive(Of(end.rows, x), 0);
  }

  // ----- whole runs

  /** The store's operations, and a change of the song table by others. */
  datatype Op =
    | Create(p: Playlist)
    | SetSongs(pl: int, songs: seq<int>)
    | AddSongs(pl: int, songs: seq<int>)
    | RemoveAt(pl: int, indices: seq<int>)
    | Delete(pl: int)
    | SongTable(durations: map<int, int>)

  function Step(db: Db, op: Op): Db {
    match op
    case Create(p) => CreatePlaylist(db, p)
    case SetSongs(pl, songs) => var r := SetEntries(db, pl, songs); if r.Committed? then r.db else db
    case AddSongs(pl, songs) => var r := AddEntries(db, pl, songs); if r.Committed? then r.db else db
    case RemoveAt(pl, indices) => RemoveEntries(db, pl, indices)
    case Delete(pl) => DeletePlaylist(db, pl)
    case SongTable(durations) => db.(durations := durations)
  }

  function RunOps(db: Db, ops: seq<Op>): Db
    decreases |ops|
  {
    if ops == [] then db else RunOps(Step(db, ops[0]), ops[1..])
  }

  /** The same operations on plain song lists. */
  function ListStep(m: map<int, seq<int>>, next: int, op: Op): map<int, seq<int>> {
    match op
    case Create(_) => m[next := []]
    case SetSongs(pl, songs) => if pl in m then m[pl := songs] else m
    case AddSongs(pl, songs) => if pl in m then m[pl := m[pl] + songs] else m
    case RemoveAt(pl, indices) => if pl in m then m[pl := Dropped(m[pl], indices, 0)] else m
    case Delete(pl) => m - {pl}
    case SongTable(_) => m
  }

  function RunLists(m: map<int, seq<int>>, next: int, ops: seq<Op>): map<int, seq<int>>
    decreases |ops|
  {
    if ops == [] then m
    else RunLists(ListStep(m, next, ops[0]), if ops[0].Create? then next + 1 else next, ops[1..])
  }

  function Lists(db: Db): map<int, seq<int>> {
    map pl | pl in db.playlists :: Contents(db, pl)
  }

  lemma CreateMeaning(db: Db, p: Playlist)
    requires Valid(db)
    ensures var end := CreatePlaylist(db, p);
            && Valid(end) && Lists(end) == Lists(db)[db.nextPlaylist := []]
            && (forall pl :: Contents(end, pl) == Contents(db, pl)) && Contents(end, db.nextPlaylist) == []
  {
    var end := CreatePlaylist(db, p);
    assert Contents(end, db.nextPlaylist) == [];
    forall pl ensures Contents(end, pl) == Contents(db, pl) {
    }
  }

  /** A change of one playlist, seen on song lists. */
  lemma OneListChanges(db: Db, end: Db, pl: int)
    requires end.playlists.Keys == db.playlists.Keys
    requires forall other :: other != pl ==> Contents(end, other) == Contents(db, other)
    ensures Lists(end) == if pl in db.playlists then Lists(db)[pl := Contents(end, pl)] else Lists(db)
  {
    hide Contents;
  }

  lemma StepRefines(db: Db, op: Op)
    requires Valid(db)
    ensures Valid(Step(db, op))
    ensures Lists(Step(db, op)) == ListStep(Lists(db), db.nextPlaylist, op)
    ensures Step(db, op).nextPlaylist == if op.Create? then db.nextPlaylist + 1 else db.nextPlaylist
  {
    var end := Step(db, op);
    hide Contents, Renumbered, NotOf, Without;
    match op
    case Create(p) => CreateMeaning(db, p);
    case SetSongs(pl, songs) =>
      SetMeaning(db, pl, songs);
      if end != db {
        OneListChanges(db, end, pl);
      }
    case AddSongs(pl, songs) =>
      AddMeaning(db, pl, songs);
      if end != db {
        OneListChanges(db, end, pl);
      }
    case RemoveAt(pl, indices) =>
      RemoveMeaning(db, pl, indices);
      OneListChanges(db, end, pl);
    case Delete(pl) =>
      DeleteMeaning(db, pl);
      DeletedLists(db, pl);
    case SongTable(durations) => SameRowsSameLists(db, durations);
  }

  lemma DeletedLists(db: Db, pl: int)
    requires Valid(db)
    ensures Lists(DeletePlaylist(db, pl)) == Lists(db) - {pl}
  {
    DeleteMeaning(db, pl);
    hide Contents, NotOf;
  }

  lemma SameRowsSameLists(db: Db, durations: map<int, int>)
    requires Valid(db)
    ensures Valid(db.(durations := durations)) && Lists(db.(durations := durations)) == Lists(db)
  {
  }

  /** Any sequence of operations on the tables, with changes of the song table in between, is the same sequence on
      plain song lists, and positions stay consecutive throughout. */
  lemma {:induction false} RunRefines(db: Db, ops: seq<Op>)
    requires Valid(db)
    ensures Valid(RunOps(db, ops))
    ensures Lists(RunOps(db, ops)) == RunLists(Lists(db), db.nextPlaylist, ops)
    decreases |ops|
  {
    hide Valid, Lists, Step, ListStep;
    if ops != [] {
      StepRefines(db, ops[0]);
      RunRefines(Step(db, ops[0]), ops[1..]);
    }
  }
}
