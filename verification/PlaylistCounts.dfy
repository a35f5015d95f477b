/** The cached song count and duration of a playlist over whole runs: when they are right, and what they are when
    they are not. */
module PlaylistCounts {
  import opened Options
  import opened PlaylistTables

  predicate CountRight(db: Db, pl: int) {
    pl in db.playlists ==> db.playlists[pl].songCount == |Contents(db, pl)|
  }

  /** Whether op rewrites the cached figures of playlist pl, or removes them. */
  predicate Rewrites(op: Op, pl: int) {
    (op.SetSongs? || op.AddSongs? || op.RemoveAt? || op.Delete?) && op.pl == pl
  }

  /** From the operations alone: is the count of pl right after them, if `was` says whether it was before? */
  predicate Settled(ops: seq<Op>, next: int, pl: int, was: bool)
    decreases |ops|
  {
    if ops == [] then was
    else
      var op := ops[0];
      Settled(ops[1..], if op.Create? then next + 1 else next, pl,
              if op.Create? && pl == next then op.p.songCount == 0 else was || Rewrites(op, pl))
  }

  /** What one operation does to playlist pl. */
  lemma StepOnOne(db: Db, op: Op, pl: int)
    requires Valid(db)
    ensures var end := Step(db, op);
            && Valid(end)
            && (Rewrites(op, pl) && pl in end.playlists ==> CountsAgree(end, pl) && end.durations == db.durations)
            && (op.Create? && pl == db.nextPlaylist ==>
                  pl in end.playlists && end.playlists[pl] == op.p && Contents(end, pl) == [])
            && (!Rewrites(op, pl) && !(op.Create? && pl == db.nextPlaylist) ==>
                  && (pl in end.playlists <==> pl in db.playlists) && Contents(end, pl) == Contents(db, pl)
                  && (pl in db.playlists ==> end.playlists[pl] == db.playlists[pl]))
  {
    StepRefines(db, op);
    hide Contents, Renumbered, NotOf, Without, Valid;
    match op
    case Create(p) => CreateMeaning(db, p);
    case SetSongs(q, songs) => SetMeaning(db, q, songs);
    case AddSongs(q, songs) => AddMeaning(db, q, songs);
    case RemoveAt(q, indices) => RemoveMeaning(db, q, indices);
    case Delete(q) => DeleteMeaning(db, q);
    case SongTable(durations) => SongTableKeepsContents(db, durations, pl);
  }

  lemma SongTableKeepsContents(db: Db, durations: map<int, int>, pl: int)
    ensures Contents(db.(durations := durations), pl) == Contents(db, pl)
  {
  }

  /** The exact condition, for any run from any valid store and any playlist: the cached count is right if and only
      if the playlist has been set, added to or removed from since it was created, or was created with count 0;
      and, where it was there before the run and none of this happened, if it was right then. */
  lemma {:induction false} CountRightIff(db: Db, ops: seq<Op>, pl: int)
    requires Valid(db)
    ensures CountRight(RunOps(db, ops), pl) <==> Settled(ops, db.nextPlaylist, pl, CountRight(db, pl))
    decreases |ops|
  {
    if ops != [] {
      StepOnOne(db, ops[0], pl);
      StepRefines(db, ops[0]);
      hide Contents, Step, Valid;
      CountRightIff(Step(db, ops[0]), ops[1..], pl);
    }
  }

  /** The song table in force when the figures of pl were last worked out, or were written as 0 at its creation;
      None if others were written then. `now` is the table in force before the operations. */
  function LastTable(ops: seq<Op>, next: int, pl: int, now: map<int, int>, was: Option<map<int, int>>): Option<map<int, int>>
    decreases |ops|
  {
    if ops == [] then was
    else
      var op := ops[0];
      LastTable(ops[1..], if op.Create? then next + 1 else next, pl, if op.SongTable? then op.durations else now,
                if op.Create? && pl == next then (if op.p == Playlist(0, 0) then Some(now) else None)
                else if Rewrites(op, pl) then Some(now) else was)
  }

  /** The cached figures of pl are those of its songs under this song table. */
  predicate FiguresUnder(db: Db, pl: int, table: Option<map<int, int>>) {
    table.Some? && pl in db.playlists ==>
      db.playlists[pl] == Playlist(|Contents(db, pl)|, TotalDuration(Contents(db, pl), table.value))
  }

  /** After any run the cached figures are those of the playlist's songs under the song table that was in force when
      it was last set, added to or removed from, or created with figures 0. */
  lemma {:induction false} FiguresAreOfLastTable(db: Db, ops: seq<Op>, pl: int, was: Option<map<int, int>>)
    requires Valid(db) && FiguresUnder(db, pl, was)
    ensures FiguresUnder(RunOps(db, ops), pl, LastTable(ops, db.nextPlaylist, pl, db.durations, was))
    decreases |ops|
  {
    if ops != [] {
      StepOnOne(db, ops[0], pl);
      StepRefines(db, ops[0]);
      StepTable(db, ops[0]);
      assert TotalDuration([], db.durations) == 0;
      hide Contents, Step, Valid, TotalDuration;
      var next := if ops[0].Create? && pl == db.nextPlaylist
                  then (if ops[0].p == Playlist(0, 0) then Some(db.durations) else None)
                  else if Rewrites(ops[0], pl) then Some(db.durations) else was;
      FiguresAreOfLastTable(Step(db, ops[0]), ops[1..], pl, next);
    }
  }

  lemma StepTable(db: Db, op: Op)
    requires Valid(db)
    ensures Step(db, op).durations == if op.SongTable? then op.durations else db.durations
  {
    match op
    case SetSongs(q, songs) => SetMeaning(db, q, songs);
    case AddSongs(q, songs) => AddMeaning(db, q, songs);
    case _ =>
  }

  /** So count and duration are both right if and only if the changes of the song table since then leave the sum of
      the playlist's durations what it was. */
  lemma DurationRightIff(db: Db, ops: seq<Op>, pl: int, was: Option<map<int, int>>)
    requires Valid(db) && FiguresUnder(db, pl, was)
    requires pl in RunOps(db, ops).playlists && LastTable(ops, db.nextPlaylist, pl, db.durations, was).Some?
    ensures var end := RunOps(db, ops);
            var table := LastTable(ops, db.nextPlaylist, pl, db.durations, was).value;
            CountsAgree(end, pl) <==>
            TotalDuration(Contents(end, pl), table) == TotalDuration(Contents(end, pl), end.durations)
  {
    FiguresAreOfLastTable(db, ops, pl, was);
    hide Contents, RunOps, LastTable, TotalDuration, Valid;
  }

  // ----- the two ways to be wrong

  function NoPlaylists(durations: map<int, int>): (db: Db)
    ensures Valid(db)
  {
    Db([], 1, map[], 1, durations)
  }

  /** A playlist created with a count for songs it does not get keeps the wrong count. */
  lemma CreatedCountStays(n: int)
    requires n != 0
    ensures !CountRight(RunOps(NoPlaylists(map[]), [Create(Playlist(n, 0))]), 1)
  {
    var db, ops := NoPlaylists(map[]), [Create(Playlist(n, 0))];
    CountRightIff(db, ops, 1);
    assert ops[1..] == [];
  }

  lemma RunThree(db: Db, a: Op, b: Op, c: Op)
    ensures RunOps(db, [a, b, c]) == Step(Step(Step(db, a), b), c)
  {
    hide Step;
    var ops := [a, b, c];
    assert ops[1..] == [b, c] && [b, c][1..] == [c] && [c][1..] == [];
    assert RunOps(Step(Step(db, a), b), [c]) == Step(Step(Step(db, a), b), c);
  }

  /** A song whose duration changes leaves the playlists it is in with the old sum. */
  lemma OldDurationStays(before: int, after: int)
    requires before != after
    ensures var ops := [Create(Playlist(0, 0)), SetSongs(1, [7]), SongTable(map[7 := after])];
            !CountsAgree(RunOps(NoPlaylists(map[7 := before]), ops), 1)
  {
    var db := NoPlaylists(map[7 := before]);
    var ops := [Create(Playlist(0, 0)), SetSongs(1, [7]), SongTable(map[7 := after])];
    var d1 := Step(db, ops[0]);
    StepRefines(db, ops[0]);
    var d2 := Step(d1, ops[1]);
    SetMeaning(d1, 1, [7]);
    StepRefines(d1, ops[1]);
    var d3 := Step(d2, ops[2]);
    SongTableKeepsContents(d2, map[7 := after], 1);
    RunThree(db, ops[0], ops[1], ops[2]);
    assert TotalDuration([7], map[7 := before]) == before && TotalDuration([7], map[7 := after]) == after;
  }
}
