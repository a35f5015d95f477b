/** Exactly when a cancelled scan can leave its forwarder behind, waiting for ever. */
module ScanStranding {
  import opened MusicTables
  import opened ScanMachine
  import opened ScanProtocol

  /** Some run from this store leads to s. */
  ghost predicate LeadsTo(c: Config, db: Db, s: State) {
    exists acts :: CanRun(c, Init(c, db), acts) && s == Run(c, Init(c, db), acts)
  }

  lemma {:induction false} Extend(c: Config, s: State, acts: seq<Action>, a: Action)
    requires CanRun(c, s, acts) && Enabled(c, Run(c, s, acts), a)
    ensures CanRun(c, s, acts + [a]) && Run(c, s, acts + [a]) == Apply(c, Run(c, s, acts), a)
    decreases |acts|
  {
    hide Work;
    if acts == [] {
      assert [] + [a] == [a];
    } else {
      assert (acts + [a])[1..] == acts[1..] + [a] && (acts + [a])[0] == acts[0];
      Extend(c, Apply(c, s, acts[0]), acts[1..], a);
    }
  }

  lemma OneMore(c: Config, db: Db, s: State, a: Action)
    requires LeadsTo(c, db, s) && Enabled(c, s, a)
    ensures LeadsTo(c, db, Apply(c, s, a))
  {
    var acts :| CanRun(c, Init(c, db), acts) && s == Run(c, Init(c, db), acts);
    Extend(c, Init(c, db), acts, a);
    var all := acts + [a];
    assert CanRun(c, Init(c, db), all) && Apply(c, s, a) == Run(c, Init(c, db), all);
  }

  /** Nothing has gone wrong yet, and the walker has at least n paths to go. */
  predicate Calm(c: Config, s: State, n: int) {
    && !s.cancelled && s.main.Pooling? && |s.workers| == c.workers
    && s.walker.Emitting? && !s.walker.checked && n <= |s.walker.rest|
  }

  /** The next path is walked into results. */
  lemma WalkOne(c: Config, db: Db, s: State) returns (t: State)
    requires LeadsTo(c, db, s) && Calm(c, s, 1) && |s.results| < c.Capacity()
    ensures LeadsTo(c, db, t) && Calm(c, t, |s.walker.rest| - 1)
    ensures |t.results| == |s.results| + 1 && t.forwarder == s.forwarder && t.jobs == s.jobs && t.workers == s.workers
  {
    OneMore(c, db, s, WalkCheck);
    var s1 := Apply(c, s, WalkCheck);
    OneMore(c, db, s1, WalkSend);
    t := Apply(c, s1, WalkSend);
  }

  /** The next path is walked and handed on to the jobs channel. */
  lemma Feed(c: Config, db: Db, s: State) returns (t: State)
    requires LeadsTo(c, db, s) && Calm(c, s, 1) && s.results == [] && s.forwarder.Ready? && |s.jobs| < c.Capacity()
    ensures LeadsTo(c, db, t) && Calm(c, t, |s.walker.rest| - 1)
    ensures t.results == [] && t.forwarder.Ready? && |t.jobs| == |s.jobs| + 1 && t.workers == s.workers
  {
    var s1 := WalkOne(c, db, s);
    OneMore(c, db, s1, Receive);
    var s2 := Apply(c, s1, Receive);
    OneMore(c, db, s2, Enqueue);
    t := Apply(c, s2, Enqueue);
  }

  lemma {:induction false} FeedMany(c: Config, db: Db, s: State, k: nat) returns (t: State)
    requires LeadsTo(c, db, s) && Calm(c, s, k) && s.results == [] && s.forwarder.Ready?
    requires |s.jobs| + k <= c.Capacity()
    ensures LeadsTo(c, db, t) && Calm(c, t, |s.walker.rest| - k)
    ensures t.results == [] && t.forwarder.Ready? && |t.jobs| == |s.jobs| + k && t.workers == s.workers
    decreases k
  {
    t := s;
    if k > 0 {
      var s1 := Feed(c, db, s);
      t := FeedMany(c, db, s1, k - 1);
    }
  }

  /** The workers below i have a path they have not looked at, the others wait. */
  predicate StaffedUpTo(ws: seq<Worker>, i: nat) {
    forall j :: 0 <= j < |ws| ==> if j < i then ws[j].Picked? else ws[j].Waiting?
  }

  /** Worker after worker takes a path. */
  lemma {:induction false} Staff(c: Config, db: Db, s: State, i: nat) returns (t: State)
    requires LeadsTo(c, db, s) && i <= c.workers && Calm(c, s, c.workers - i)
    requires s.results == [] && s.jobs == [] && s.forwarder.Ready? && StaffedUpTo(s.workers, i)
    ensures LeadsTo(c, db, t) && Calm(c, t, |s.walker.rest| - (c.workers - i))
    ensures t.results == [] && t.jobs == [] && t.forwarder.Ready? && StaffedUpTo(t.workers, c.workers)
    decreases c.workers - i
  {
    t := s;
    if i < c.workers {
      var s1 := Feed(c, db, s);
      OneMore(c, db, s1, Take(i));
      var s2 := Apply(c, s1, Take(i));
      t := Staff(c, db, s2, i + 1);
    }
  }

  /** The pipeline is full: every worker with a path in hand, jobs full, and the forwarder holding one more. */
  predicate Full(c: Config, s: State) {
    StaffedUpTo(s.workers, c.workers) && s.forwarder.Holding? && |s.jobs| == c.Capacity()
  }

  lemma FillUp(c: Config, db: Db) returns (t: State)
    requires c.workers > 0 && |c.paths| >= 5 * c.workers + 1
    ensures LeadsTo(c, db, t) && Calm(c, t, 0) && Full(c, t)
  {
    var init := Init(c, db);
    assert CanRun(c, init, []) && Run(c, init, []) == init;
    var s1 := Staff(c, db, init, 0);
    var s2 := FeedMany(c, db, s1, 4 * c.workers);
    var s3 := WalkOne(c, db, s2);
    OneMore(c, db, s3, Receive);
    t := Apply(c, s3, Receive);
  }

  /** After the cancellation the workers from i on drop what they hold and leave. */
  lemma {:induction false} Desert(c: Config, db: Db, s: State, i: nat) returns (t: State)
    requires LeadsTo(c, db, s) && s.cancelled && i <= |s.workers|
    requires forall j :: 0 <= j < |s.workers| ==> if j < i then s.workers[j].Exited? else s.workers[j].Picked?
    ensures LeadsTo(c, db, t) && AllExited(t.workers) && t.cancelled
    ensures t.walker == s.walker && t.forwarder == s.forwarder && t.jobs == s.jobs && t.main == s.main
    decreases |s.workers| - i
  {
    t := s;
    if i < |s.workers| {
      OneMore(c, db, s, Drop(i));
      var s1 := Apply(c, s, Drop(i));
      t := Desert(c, db, s1, i + 1);
    }
  }

  /** The caller sees the workers gone, and the walk's error. */
  lemma GoHome(c: Config, db: Db, s: State) returns (t: State)
    requires LeadsTo(c, db, s) && s.cancelled && AllExited(s.workers) && s.main.Pooling? && s.walker.Emitting?
    ensures LeadsTo(c, db, t) && t.main.Returned?
    ensures t.workers == s.workers && t.forwarder == s.forwarder && t.jobs == s.jobs
  {
    OneMore(c, db, s, Join);
    var s1 := Apply(c, s, Join);
    OneMore(c, db, s1, WalkCancelled);
    var s2 := Apply(c, s1, WalkCancelled);
    OneMore(c, db, s2, WalkReport);
    var s3 := Apply(c, s2, WalkReport);
    OneMore(c, db, s3, Return(false));
    t := Apply(c, s3, Return(false));
  }

  lemma Strand(c: Config, db: Db) returns (t: State)
    requires c.workers > 0 && |c.paths| >= 5 * c.workers + 1
    ensures LeadsTo(c, db, t) && t.main.Returned? && Stranded(c, t)
  {
    var full := FillUp(c, db);
    OneMore(c, db, full, Cancel);
    var cancelled := Apply(c, full, Cancel);
    var left := Desert(c, db, cancelled, 0);
    t := GoHome(c, db, left);
  }

  /** From any store and whatever the files hold, some run ends with ScanLibrary returned and the forwarder
      stranded if and only if the walk has at least five paths a worker and one more: a full jobs channel, one
      path for each worker to drop, and one in the forwarder's hand. */
  lemma StrandingIff(c: Config, db: Db)
    requires c.workers > 0
    ensures (exists s :: LeadsTo(c, db, s) && s.main.Returned? && Stranded(c, s)) <==> |c.paths| >= 5 * c.workers + 1
  {
    if s :| LeadsTo(c, db, s) && s.main.Returned? && Stranded(c, s) {
      StrandedPaths(c, s);
      ReachableInv(c, s);
    }
    if |c.paths| >= 5 * c.workers + 1 {
      var s := Strand(c, db);
    }
  }
}
