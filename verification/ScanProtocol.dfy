/** The pipeline of a library scan: every path is always in exactly one place, no interleaving deadlocks,
    every run is finite, and without cancellation everything walked is processed. */
module ScanProtocol {
  import opened MusicTables
  import opened SongMetadata
  import opened ScanMachine

  // ----- where the paths are

  function Count(q: seq<string>, p: string): nat {
    multiset(q)[p]
  }

  function InHand(w: Worker, p: string): nat {
    if (w.Picked? || w.Running?) && w.path == p then 1 else 0
  }

  function Hands(ws: seq<Worker>, p: string): nat {
    if ws == [] then 0 else InHand(ws[0], p) + Hands(ws[1..], p)
  }

  function Held(f: Forwarder, p: string): nat {
    if f.Holding? && f.path == p then 1 else 0
  }

  /** How often p is in the pipeline: in results, in the forwarder's hand, in jobs, with a worker, finished
      or dropped. */
  function Occurrences(s: State, p: string): nat {
    Count(s.results, p) + Held(s.forwarder, p) + Count(s.jobs, p) + Hands(s.workers, p)
    + Count(s.finished, p) + Count(s.dropped, p)
  }

  lemma {:induction false} HandsUpdate(ws: seq<Worker>, i: nat, w: Worker, p: string)
    requires i < |ws|
    ensures Hands(ws[i := w], p) + InHand(ws[i], p) == Hands(ws, p) + InHand(w, p)
  {
    var us := ws[i := w];
    if i == 0 {
      assert us[1..] == ws[1..];
    } else {
      HandsUpdate(ws[1..], i - 1, w, p);
      assert us[1..] == ws[1..][i - 1 := w];
    }
  }

  lemma Pushed(q: seq<string>, x: string, p: string)
    ensures Count(q + [x], p) == Count(q, p) + if x == p then 1 else 0
  {
  }

  lemma Popped(q: seq<string>, p: string)
    requires q != []
    ensures Count(q, p) == Count(q[1..], p) + if q[0] == p then 1 else 0
  {
    assert q == [q[0]] + q[1..];
  }

  lemma TakeConserves(c: Config, s: State, w: nat, p: string)
    requires Enabled(c, s, Take(w))
    ensures Occurrences(Apply(c, s, Take(w)), p) == Occurrences(s, p)
  {
    HandsUpdate(s.workers, w, Picked(s.jobs[0]), p);
    Popped(s.jobs, p);
    hide Hands, Count;
  }

  lemma DropConserves(c: Config, s: State, w: nat, p: string)
    requires Enabled(c, s, Drop(w))
    ensures Occurrences(Apply(c, s, Drop(w)), p) == Occurrences(s, p)
  {
    HandsUpdate(s.workers, w, Exited, p);
    Pushed(s.dropped, s.workers[w].path, p);
    hide Hands, Count;
  }

  lemma FinishConserves(c: Config, s: State, w: nat, p: string)
    requires Enabled(c, s, Finish(w))
    ensures Occurrences(Apply(c, s, Finish(w)), p) == Occurrences(s, p)
  {
    HandsUpdate(s.workers, w, Waiting, p);
    Pushed(s.finished, s.workers[w].path, p);
    hide Hands, Count;
  }

  lemma HoldConserves(c: Config, s: State, a: Action, p: string)
    requires Enabled(c, s, a) && (a.Quit? || a.Begin? || a.DoWork?)
    ensures Occurrences(Apply(c, s, a), p) == Occurrences(s, p)
  {
    hide Work;
    HandsUpdate(s.workers, a.w, Apply(c, s, a).workers[a.w], p);
    hide Hands, Count;
  }

  predicate WorkerStep(a: Action) {
    a.Take? || a.Quit? || a.Drop? || a.Begin? || a.DoWork? || a.Finish?
  }

  lemma WorkerStepConserves(c: Config, s: State, a: Action, p: string)
    requires Enabled(c, s, a) && WorkerStep(a)
    ensures Occurrences(Apply(c, s, a), p) == Occurrences(s, p)
  {
    hide Apply, Enabled, Occurrences;
    match a
    case Take(w) => TakeConserves(c, s, w, p);
    case Drop(w) => DropConserves(c, s, w, p);
    case Finish(w) => FinishConserves(c, s, w, p);
    case _ => HoldConserves(c, s, a, p);
  }

  lemma WalkSendConserves(c: Config, s: State, p: string)
    requires Enabled(c, s, WalkSend) && Count(s.walked, p) == Occurrences(s, p)
    ensures Count(Apply(c, s, WalkSend).walked, p) == Occurrences(Apply(c, s, WalkSend), p)
  {
    Pushed(s.results, s.walker.rest[0], p);
    Pushed(s.walked, s.walker.rest[0], p);
    hide Count, Hands;
  }

  lemma HandOnConserves(c: Config, s: State, p: string)
    ensures Enabled(c, s, Receive) ==> Occurrences(Apply(c, s, Receive), p) == Occurrences(s, p)
    ensures Enabled(c, s, Enqueue) ==> Occurrences(Apply(c, s, Enqueue), p) == Occurrences(s, p)
  {
    if Enabled(c, s, Receive) {
      Popped(s.results, p);
    }
    if Enabled(c, s, Enqueue) {
      Pushed(s.jobs, s.forwarder.path, p);
    }
    hide Count, Hands;
  }

  lemma QuietStepConserves(c: Config, s: State, a: Action, p: string)
    requires Enabled(c, s, a) && !WorkerStep(a) && !a.WalkSend? && !a.Receive? && !a.Enqueue?
    ensures Occurrences(Apply(c, s, a), p) == Occurrences(s, p)
  {
    hide Count, Hands, Work;
  }

  /** No step loses, duplicates or invents a path. */
  lemma StepConserves(c: Config, s: State, a: Action, p: string)
    requires Enabled(c, s, a) && Count(s.walked, p) == Occurrences(s, p)
    ensures Count(Apply(c, s, a).walked, p) == Occurrences(Apply(c, s, a), p)
  {
    if a.WalkSend? {
      WalkSendConserves(c, s, p);
    } else {
      OnlyWalkSendWalks(c, s, a);
      if WorkerStep(a) {
        WorkerStepConserves(c, s, a, p);
      } else if a.Receive? || a.Enqueue? {
        HandOnConserves(c, s, p);
      } else {
        QuietStepConserves(c, s, a, p);
      }
    }
    hide Apply, Enabled, Occurrences, Count;
  }

  lemma OnlyWalkSendWalks(c: Config, s: State, a: Action)
    requires Enabled(c, s, a) && !a.WalkSend?
    ensures Apply(c, s, a).walked == s.walked
  {
    hide Work;
  }

  // ----- what holds in every reachable state

  ghost predicate WalkerOk(c: Config, s: State) {
    match s.walker
    case Emitting(rest, _) => s.walked + rest == c.paths
    case Reporting(err) => if err then s.cancelled && s.walked <= c.paths else s.walked == c.paths
    case Closing(err) => if err then s.cancelled && s.walked <= c.paths else s.walked == c.paths
    case Gone(err) => if err then s.cancelled && s.walked <= c.paths else s.walked == c.paths
  }

  ghost predicate WorkersOk(c: Config, s: State) {
    && |s.workers| == c.workers
    && (forall i :: 0 <= i < |s.workers| && s.workers[i].Exited? ==> s.cancelled || (s.forwarder.Over? && s.jobs == []))
  }

  ghost predicate ProtocolInv(c: Config, s: State) {
    && |s.results| <= c.Capacity()
    && |s.jobs| <= c.Capacity()
    && WalkerOk(c, s)
    && WorkersOk(c, s)
    && (s.forwarder.Over? ==> s.walker.Gone? && s.results == [])
    && (!s.main.Pooling? ==> AllExited(s.workers))
    && (s.main.Returned? ==> s.walker.Closing? || s.walker.Gone?)
    && (s.main.Returned? && s.main.ok ==> !s.walker.err)
    && (!s.cancelled ==> s.dropped == [])
    && (forall p :: Count(s.walked, p) == Occurrences(s, p))
    && s.scanned + s.errors + s.skipped == |s.finished|
  }

  lemma {:induction false} NoHands(ws: seq<Worker>)
    requires forall i :: 0 <= i < |ws| ==> ws[i].Waiting? || ws[i].Exited?
    ensures forall p :: Hands(ws, p) == 0
  {
    if ws != [] {
      NoHands(ws[1..]);
    }
  }

  lemma InitInv(c: Config, db: Db)
    ensures ProtocolInv(c, Init(c, db))
  {
    NoHands(Init(c, db).workers);
  }

  lemma StepKeepsWalker(c: Config, s: State, a: Action)
    requires Enabled(c, s, a) && WalkerOk(c, s)
    ensures WalkerOk(c, Apply(c, s, a))
  {
    if a.WalkSend? {
      var rest := s.walker.rest;
      assert s.walked + rest == s.walked + [rest[0]] + rest[1..];
    }
  }

  lemma StepKeepsWorkers(c: Config, s: State, a: Action)
    requires Enabled(c, s, a) && WorkersOk(c, s)
    ensures WorkersOk(c, Apply(c, s, a))
  {
    hide Work;
  }

  lemma StepKeepsInv(c: Config, s: State, a: Action)
    requires Enabled(c, s, a) && ProtocolInv(c, s)
    ensures ProtocolInv(c, Apply(c, s, a))
  {
    forall p ensures Count(Apply(c, s, a).walked, p) == Occurrences(Apply(c, s, a), p) {
      StepConserves(c, s, a, p);
    }
    StepKeepsWalker(c, s, a);
    StepKeepsWorkers(c, s, a);
    hide Occurrences, Count, WalkerOk, WorkersOk, Work;
  }

  lemma {:induction false} RunKeepsInv(c: Config, s: State, acts: seq<Action>)
    requires CanRun(c, s, acts) && ProtocolInv(c, s)
    ensures ProtocolInv(c, Run(c, s, acts))
    decreases |acts|
  {
    hide ProtocolInv;
    if acts != [] {
      StepKeepsInv(c, s, acts[0]);
      RunKeepsInv(c, Apply(c, s, acts[0]), acts[1..]);
    }
  }

  ghost predicate Reachable(c: Config, s: State) {
    exists db, acts :: CanRun(c, Init(c, db), acts) && s == Run(c, Init(c, db), acts)
  }

  lemma ReachableInv(c: Config, s: State)
    requires Reachable(c, s)
    ensures ProtocolInv(c, s)
  {
    var db, acts :| CanRun(c, Init(c, db), acts) && s == Run(c, Init(c, db), acts);
    InitInv(c, db);
    RunKeepsInv(c, Init(c, db), acts);
  }

  /** In every reachable state a path is in the pipeline exactly as often as it has been walked, what has
      been walked is a prefix of the walk, and every finished file has been counted once. */
  lemma EveryPathInOnePlace(c: Config, s: State)
    requires Reachable(c, s)
    ensures forall p :: Count(s.walked, p) == Occurrences(s, p)
    ensures s.walked <= c.paths
    ensures s.scanned + s.errors + s.skipped == |s.finished|
  {
    ReachableInv(c, s);
  }

  // ----- no deadlock

  /** The worker that can do something: it holds a path, or it waits and there is a job or none will come. */
  lemma WorkerCanAct(c: Config, s: State, w: nat)
    requires w < |s.workers| && !s.workers[w].Exited?
    requires s.workers[w].Waiting? ==> s.jobs != [] || s.forwarder.Over?
    ensures exists a: Action :: !a.Cancel? && Enabled(c, s, a)
  {
    match s.workers[w]
    case Waiting =>
      if s.jobs != [] {
        assert Enabled(c, s, Take(w));
      } else {
        assert Enabled(c, s, Quit(w));
      }
    case Picked(_) =>
      if s.cancelled {
        assert Enabled(c, s, Drop(w));
      } else {
        assert Enabled(c, s, Begin(w));
      }
    case Running(_, pc) =>
      if pc.Ended? {
        assert Enabled(c, s, Finish(w));
      } else {
        assert Enabled(c, s, DoWork(w, Fine, 0));
      }
  }

  /** With room in both channels something upstream can move until jobs is closed. */
  lemma UpstreamCanAct(c: Config, s: State)
    requires s.jobs == [] && !s.forwarder.Over? && c.workers > 0
    ensures exists a: Action :: !a.Cancel? && Enabled(c, s, a)
  {
    if s.forwarder.Holding? {
      assert Enabled(c, s, Enqueue);
    } else if s.results != [] {
      assert Enabled(c, s, Receive);
    } else {
      match s.walker
      case Emitting(rest, checked) =>
        if rest == [] {
          assert Enabled(c, s, WalkEnd);
        } else if checked {
          assert Enabled(c, s, WalkSend);
        } else if s.cancelled {
          assert Enabled(c, s, WalkCancelled);
        } else {
          assert Enabled(c, s, WalkCheck);
        }
      case Reporting(_) => assert Enabled(c, s, WalkReport);
      case Closing(_) => assert Enabled(c, s, WalkClose);
      case Gone(_) => assert Enabled(c, s, CloseJobs);
    }
  }

  lemma WaitingMainCanAct(c: Config, s: State)
    requires ProtocolInv(c, s) && c.workers > 0 && s.main.AwaitingWalk?
    ensures exists a: Action :: !a.Cancel? && Enabled(c, s, a)
  {
    match s.walker
    case Emitting(_, _) =>
      assert s.workers[0].Exited?;
      assert Enabled(c, s, WalkCancelled);
    case Reporting(_) => assert Enabled(c, s, WalkReport);
    case Closing(_) => assert Enabled(c, s, Return(false));
    case Gone(_) => assert Enabled(c, s, Return(false));
  }

  /** Until ScanLibrary has returned some step other than a cancellation is always possible, in whatever order
      the goroutines have run and whenever the context was cancelled. */
  lemma NeverDeadlocks(c: Config, s: State)
    requires Reachable(c, s) && c.workers > 0 && !s.main.Returned?
    ensures exists a: Action :: !a.Cancel? && Enabled(c, s, a)
  {
    ReachableInv(c, s);
    if s.main.AwaitingWalk? {
      WaitingMainCanAct(c, s);
    } else if AllExited(s.workers) {
      assert Enabled(c, s, Join);
    } else {
      var w :| 0 <= w < |s.workers| && !s.workers[w].Exited?;
      if s.workers[w].Waiting? && s.jobs == [] && !s.forwarder.Over? {
        UpstreamCanAct(c, s);
      } else {
        WorkerCanAct(c, s, w);
      }
    }
  }

  // ----- every run is finite

  function WalkerWeight(w: Walker): nat {
    match w
    case Emitting(rest, checked) => 3 + 14 * |rest| + if checked then 0 else 1
    case Reporting(_) => 2
    case Closing(_) => 1
    case Gone(_) => 0
  }

  function ForwarderWeight(f: Forwarder): nat {
    match f
    case Ready => 1
    case Holding(_) => 12
    case Over => 0
  }

  function PcWeight(pc: Pc): nat {
    match pc
    case Start => 8
    case Chosen => 7
    case HasArtist(_) => 6
    case HasAlbumArtist(_, _) => 5
    case HasAlbum(_, _, _) => 4
    case Ended(_) => 3
  }

  function WorkerWeight(w: Worker): nat {
    match w
    case Waiting => 1
    case Picked(_) => 10
    case Running(_, pc) => 1 + PcWeight(pc)
    case Exited => 0
  }

  function Weights(ws: seq<Worker>): nat {
    if ws == [] then 0 else WorkerWeight(ws[0]) + Weights(ws[1..])
  }

  function MainWeight(m: Main): nat {
    match m
    case Pooling => 2
    case AwaitingWalk => 1
    case Returned(_) => 0
  }

  /** What is left to do, at most. */
  function Budget(s: State): nat {
    WalkerWeight(s.walker) + 12 * |s.results| + ForwarderWeight(s.forwarder) + 10 * |s.jobs|
    + Weights(s.workers) + MainWeight(s.main) + if s.cancelled then 0 else 1
  }

  lemma {:induction false} WeightsUpdate(ws: seq<Worker>, i: nat, w: Worker)
    requires i < |ws|
    ensures Weights(ws[i := w]) + WorkerWeight(ws[i]) == Weights(ws) + WorkerWeight(w)
  {
    var us := ws[i := w];
    if i == 0 {
      assert us[1..] == ws[1..];
    } else {
      WeightsUpdate(ws[1..], i - 1, w);
      assert us[1..] == ws[1..][i - 1 := w];
    }
  }

  lemma WorkAdvances(c: Config, db: Db, p: string, pc: Pc, fault: Fault, cover: Id)
    requires !pc.Ended?
    ensures PcWeight(Work(c, db, p, pc, fault, cover).1) < PcWeight(pc)
  {
    hide UpsertArtist, UpsertAlbum, UpsertSong, Unchanged, ScannedSong, MetaMap;
  }

  lemma WorkerStepCosts(c: Config, s: State, a: Action)
    requires Enabled(c, s, a) && WorkerStep(a)
    ensures Budget(Apply(c, s, a)) < Budget(s)
  {
    var w := s.workers[a.w];
    if a.DoWork? {
      WorkAdvances(c, s.db, w.path, w.pc, a.fault, a.cover);
    }
    hide Work, Weights;
    var w' := match a
      case Take(_) => Picked(s.jobs[0])
      case Begin(_) => Running(w.path, Start)
      case DoWork(_, fault, cover) => Running(w.path, Work(c, s.db, w.path, w.pc, fault, cover).1)
      case Finish(_) => Waiting
      case _ => Exited;
    WeightsUpdate(s.workers, a.w, w');
  }

  lemma StepCosts(c: Config, s: State, a: Action)
    requires Enabled(c, s, a)
    ensures Budget(Apply(c, s, a)) < Budget(s)
  {
    if WorkerStep(a) {
      WorkerStepCosts(c, s, a);
    } else {
      hide Weights, Work;
    }
  }

  lemma {:induction false} RunCosts(c: Config, s: State, acts: seq<Action>)
    requires CanRun(c, s, acts)
    ensures |acts| + Budget(Run(c, s, acts)) <= Budget(s)
    decreases |acts|
  {
    hide Budget;
    if acts != [] {
      StepCosts(c, s, acts[0]);
      RunCosts(c, Apply(c, s, acts[0]), acts[1..]);
    }
  }

  lemma {:induction false} IdleWeights(n: nat)
    ensures Weights(seq(n, _ => Waiting)) == n
  {
    if n > 0 {
      IdleWeights(n - 1);
      assert seq(n, _ => Waiting)[1..] == seq(n - 1, _ => Waiting);
    }
  }

  /** Every run of a scan of n paths by k workers has at most 14n + k + 8 steps. So runs cannot go on for
      ever, and since they cannot stop before ScanLibrary returns either, it returns. */
  lemma RunsAreFinite(c: Config, db: Db, acts: seq<Action>)
    requires CanRun(c, Init(c, db), acts)
    ensures |acts| <= 14 * |c.paths| + c.workers + 8
    ensures c.workers > 0 && (forall a: Action :: Enabled(c, Run(c, Init(c, db), acts), a) ==> a.Cancel?)
            ==> Run(c, Init(c, db), acts).main.Returned?
  {
    RunCosts(c, Init(c, db), acts);
    IdleWeights(c.workers);
    var s := Run(c, Init(c, db), acts);
    assert Reachable(c, s);
    if c.workers > 0 && !s.main.Returned? {
      NeverDeadlocks(c, s);
    }
  }

  // ----- what has been done when ScanLibrary returns

  /** Without cancellation every walked path has been processed when ScanLibrary returns, as often as it was
      emitted, and nothing is left in the pipeline; and a scan that reports success has walked everything. */
  lemma ReturnMeansProcessed(c: Config, s: State)
    requires Reachable(c, s) && c.workers > 0 && s.main.Returned?
    ensures !s.cancelled ==> multiset(s.finished) == multiset(c.paths)
    ensures !s.cancelled ==> s.scanned + s.errors + s.skipped == |c.paths|
    ensures s.main.ok ==> s.walked == c.paths
  {
    ReachableInv(c, s);
    if !s.cancelled {
      assert s.workers[0].Exited?;
      NoHands(s.workers);
      forall p ensures multiset(s.finished)[p] == multiset(c.paths)[p] {
        assert Count(s.walked, p) == Occurrences(s, p);
      }
      assert multiset(s.finished) == multiset(c.paths);
      assert |s.finished| == |multiset(s.finished)| && |c.paths| == |multiset(c.paths)|;
    }
  }

  /** Once the context is cancelled the walker sends at most the one path it was about to send. */
  lemma {:induction false} AtMostOneMore(c: Config, s: State, acts: seq<Action>)
    requires CanRun(c, s, acts) && s.cancelled
    ensures |Run(c, s, acts).walked| <= |s.walked| + if s.walker.Emitting? && s.walker.checked then 1 else 0
    decreases |acts|
  {
    if acts != [] {
      hide Work;
      AtMostOneMore(c, Apply(c, s, acts[0]), acts[1..]);
    }
  }

  /** After the workers have left, nothing touches the store any more. */
  lemma {:induction false} NoWorkAfterExit(c: Config, s: State, acts: seq<Action>)
    requires CanRun(c, s, acts) && AllExited(s.workers)
    ensures AllExited(Run(c, s, acts).workers) && Run(c, s, acts).db == s.db
    decreases |acts|
  {
    if acts != [] {
      hide Work;
      NoWorkAfterExit(c, Apply(c, s, acts[0]), acts[1..]);
    }
  }

  // ----- how many paths are where

  function Busy(w: Worker): nat {
    if w.Picked? || w.Running? then 1 else 0
  }

  function BusyWorkers(ws: seq<Worker>): nat {
    if ws == [] then 0 else Busy(ws[0]) + BusyWorkers(ws[1..])
  }

  function ExitedWorkers(ws: seq<Worker>): nat {
    if ws == [] then 0 else (if ws[0].Exited? then 1 else 0) + ExitedWorkers(ws[1..])
  }

  lemma {:induction false} WorkersUpdate(ws: seq<Worker>, i: nat, w: Worker)
    requires i < |ws|
    ensures BusyWorkers(ws[i := w]) + Busy(ws[i]) == BusyWorkers(ws) + Busy(w)
    ensures ExitedWorkers(ws[i := w]) + (if ws[i].Exited? then 1 else 0) == ExitedWorkers(ws) + (if w.Exited? then 1 else 0)
  {
    var us := ws[i := w];
    if i == 0 {
      assert us[1..] == ws[1..];
    } else {
      WorkersUpdate(ws[1..], i - 1, w);
      assert us[1..] == ws[1..][i - 1 := w];
    }
  }

  /** Every walked path is counted once, and while jobs is open a worker only leaves by dropping a path. */
  predicate Numbers(s: State) {
    && |s.walked| == |s.results| + (if s.forwarder.Holding? then 1 else 0) + |s.jobs| + BusyWorkers(s.workers)
                     + |s.finished| + |s.dropped|
    && (s.forwarder.Over? || ExitedWorkers(s.workers) == |s.dropped|)
  }

  lemma StepKeepsNumbers(c: Config, s: State, a: Action)
    requires Enabled(c, s, a) && Numbers(s)
    ensures Numbers(Apply(c, s, a))
  {
    hide Work;
    if WorkerStep(a) {
      WorkersUpdate(s.workers, a.w, Apply(c, s, a).workers[a.w]);
    }
    hide BusyWorkers, ExitedWorkers;
  }

  lemma {:induction false} RunKeepsNumbers(c: Config, s: State, acts: seq<Action>)
    requires CanRun(c, s, acts) && Numbers(s)
    ensures Numbers(Run(c, s, acts))
    decreases |acts|
  {
    hide Numbers;
    if acts != [] {
      StepKeepsNumbers(c, s, acts[0]);
      RunKeepsNumbers(c, Apply(c, s, acts[0]), acts[1..]);
    }
  }

  lemma {:induction false} IdleNumbers(ws: seq<Worker>)
    requires forall i :: 0 <= i < |ws| ==> ws[i].Waiting?
    ensures BusyWorkers(ws) == 0 && ExitedWorkers(ws) == 0
  {
    if ws != [] {
      IdleNumbers(ws[1..]);
    }
  }

  lemma {:induction false} GoneNumbers(ws: seq<Worker>)
    requires AllExited(ws)
    ensures BusyWorkers(ws) == 0 && ExitedWorkers(ws) == |ws|
  {
    if ws != [] {
      GoneNumbers(ws[1..]);
    }
  }

  // ----- what may be left behind

  /** The forwarder waits for room in jobs, and every worker has left. */
  predicate Stranded(c: Config, s: State) {
    AllExited(s.workers) && s.forwarder.Holding? && |s.jobs| >= c.Capacity()
  }

  /** A stranded forwarder has a full jobs channel behind it, a path in its hand, and a path dropped by each
      worker: five paths a worker and one have been walked. */
  lemma StrandedPaths(c: Config, s: State)
    requires Reachable(c, s) && Stranded(c, s)
    ensures |s.walked| >= 5 * c.workers + 1
  {
    ReachableInv(c, s);
    var db, acts :| CanRun(c, Init(c, db), acts) && s == Run(c, Init(c, db), acts);
    IdleNumbers(Init(c, db).workers);
    RunKeepsNumbers(c, Init(c, db), acts);
    GoneNumbers(s.workers);
  }

  /** When nothing but a cancellation can happen any more, ScanLibrary has returned and the walker and the
      workers have ended. The forwarder has ended too, unless the scan was cancelled, it is stranded, and there
      are at least five paths a worker and one. */
  lemma AtRest(c: Config, s: State)
    requires Reachable(c, s) && c.workers > 0
    requires forall a: Action :: Enabled(c, s, a) ==> a.Cancel?
    ensures s.main.Returned? && AllExited(s.workers) && s.walker.Gone?
    ensures s.forwarder.Over? || (s.cancelled && Stranded(c, s) && |c.paths| >= 5 * c.workers + 1)
  {
    ReachableInv(c, s);
    if !s.main.Returned? {
      NeverDeadlocks(c, s);
    }
    assert !Enabled(c, s, WalkClose);
    assert !Enabled(c, s, Enqueue) && !Enabled(c, s, Receive) && !Enabled(c, s, CloseJobs);
    assert s.workers[0].Exited?;
    if !s.forwarder.Over? {
      StrandedPaths(c, s);
    }
  }

  /** A stranded forwarder never moves again. */
  lemma {:induction false} StrandedForEver(c: Config, s: State, acts: seq<Action>)
    requires CanRun(c, s, acts) && Stranded(c, s)
    ensures Stranded(c, Run(c, s, acts)) && Run(c, s, acts).forwarder == s.forwarder
    decreases |acts|
  {
    if acts != [] {
      hide Work;
      StrandedForEver(c, Apply(c, s, acts[0]), acts[1..]);
    }
  }
}
