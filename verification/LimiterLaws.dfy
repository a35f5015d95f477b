/** What the limiter lets through, exactly: how many calls at one instant, how many once some time has passed, and
    calls that come no faster than the rate; and which keys it still holds a bucket for. */
module LimiterLaws {
  import opened TokenBucket

  // ----- bursts

  /** Of n calls at one instant as many succeed as there are whole tokens. */
  lemma {:induction false} BurstCount(st: Buckets, l: Limits, key: string, n: nat, at: real)
    requires Refilled(st, l, key, at) >= 0.0
    ensures var tokens := Refilled(st, l, key, at).Floor;
            Successes(st, l, Burst(key, n, at), key) == if n <= tokens then n else tokens
    decreases n
  {
    hide Inflow;
    NoTimeNoFlow(l.rate);
    if n > 0 {
      var b := Burst(key, n, at);
      assert b[0] == Allow(key, at) && b[1..] == Burst(key, n - 1, at);
      BurstCount(Step(st, l, b[0]), l, key, n - 1, at);
    }
  }

  /** A key never seen before gets a full burst and no more. */
  lemma FreshBurst(st: Buckets, l: Limits, key: string, n: nat, at: real)
    requires key !in st && l.burst >= 0
    ensures Successes(st, l, Burst(key, n, at), key) == if n <= l.burst then n else l.burst
  {
    BurstCount(st, l, key, n, at);
    hide Successes;
  }

  /** What one call leaves. */
  lemma AfterOne(st: Buckets, l: Limits, key: string, at: real)
    ensures var t, st' := Refilled(st, l, key, at), Step(st, l, Allow(key, at));
            var left := if t >= 1.0 then t - 1.0 else t;
            key in st' && st'[key] == Bucket(left, at) && Refilled(st', l, key, at) == left
  {
    hide Inflow;
    NoTimeNoFlow(l.rate);
  }

  lemma {:induction false} DrainedTo(st: Buckets, l: Limits, key: string, n: nat, at: real)
    requires Refilled(st, l, key, at) >= 0.0 && n >= Refilled(st, l, key, at).Floor && n > 0
    ensures var t, end := Refilled(st, l, key, at), Run(st, l, Burst(key, n, at));
            key in end && end[key] == Bucket(t - t.Floor as real, at)
    decreases n
  {
    hide Refilled, Step;
    var b := Burst(key, n, at);
    assert b[0] == Allow(key, at) && b[1..] == Burst(key, n - 1, at);
    AfterOne(st, l, key, at);
    var t, st' := Refilled(st, l, key, at), Step(st, l, b[0]);
    assert Run(st, l, b) == Run(st', l, b[1..]);
    if n > 1 {
      DrainedTo(st', l, key, n - 1, at);
    }
  }

  lemma {:induction false} SuccessesConcat(st: Buckets, l: Limits, a: seq<Event>, b: seq<Event>, key: string)
    ensures Successes(st, l, a + b, key) == Successes(st, l, a, key) + Successes(Run(st, l, a), l, b, key)
    decreases |a|
  {
    if a == [] {
      assert a + b == b;
    } else {
      assert (a + b)[1..] == a[1..] + b && (a + b)[0] == a[0];
      SuccessesConcat(Step(st, l, a[0]), l, a[1..], b, key);
    }
  }

  /** Once a burst has emptied the bucket, the tokens of dt seconds are let through after dt seconds: rate * dt of
      them, in whole tokens, and at most another burst. */
  lemma RefillIsExact(l: Limits, key: string, n: nat, at: real, dt: real)
    requires l.rate >= 0.0 && l.burst >= 0 && dt >= 0.0 && n >= l.burst && n > 0
    ensures var earned := (l.rate * dt).Floor;
            Successes(map[], l, Burst(key, n, at) + Burst(key, n, at + dt), key)
            == l.burst + if earned <= l.burst then earned else l.burst
  {
    var first, second := Burst(key, n, at), Burst(key, n, at + dt);
    SuccessesConcat(map[], l, first, second, key);
    FreshBurst(map[], l, key, n, at);
    DrainedTo(map[], l, key, n, at);
    var st := Run(map[], l, first);
    Earned(st, l, key, at, dt);
    BurstCount(st, l, key, n, at + dt);
    hide Successes, Run, Burst;
  }

  lemma Earned(st: Buckets, l: Limits, key: string, at: real, dt: real)
    requires l.rate >= 0.0 && l.burst >= 0 && dt >= 0.0 && key in st && st[key] == Bucket(0.0, at)
    ensures var earned := (l.rate * dt).Floor;
            && Refilled(st, l, key, at + dt) >= 0.0
            && Refilled(st, l, key, at + dt).Floor == if earned <= l.burst then earned else l.burst
  {
    Grows(dt, l.rate);
    assert at + dt - st[key].lastRefill == dt;
    assert Inflow(dt, l.rate) == l.rate * dt;
  }

  // ----- calls no faster than the rate

  /** A token flows in between the two instants. */
  predicate Apart(l: Limits, from: real, to: real) {
    l.rate * (to - from) >= 1.0
  }

  /** So it does between any two calls of the key. */
  predicate Spaced(l: Limits, es: seq<Event>, key: string) {
    forall i, j :: 0 <= i < j < |es| && es[i] == Allow(key, es[i].at) && es[j] == Allow(key, es[j].at)
                   ==> Apart(l, es[i].at, es[j].at)
  }

  /** So it has, by any call of the key, since its bucket was last refilled. */
  predicate SpacedFrom(st: Buckets, l: Limits, es: seq<Event>, key: string) {
    key in st ==> forall j :: 0 <= j < |es| && es[j] == Allow(key, es[j].at)
                              ==> Apart(l, st[key].lastRefill, es[j].at)
  }

  lemma SpacedStep(st: Buckets, l: Limits, es: seq<Event>, key: string)
    requires es != [] && Spaced(l, es, key) && SpacedFrom(st, l, es, key)
    ensures Spaced(l, es[1..], key) && SpacedFrom(Step(st, l, es[0]), l, es[1..], key)
  {
    hide Refilled, Apart;
    var rest := es[1..];
    forall i, j | 0 <= i < j < |rest| && rest[i] == Allow(key, rest[i].at) && rest[j] == Allow(key, rest[j].at)
      ensures Apart(l, rest[i].at, rest[j].at)
    {
      assert es[i + 1] == rest[i] && es[j + 1] == rest[j];
    }
    var st' := Step(st, l, es[0]);
    if key in st' {
      forall j | 0 <= j < |rest| && rest[j] == Allow(key, rest[j].at)
        ensures Apart(l, st'[key].lastRefill, rest[j].at)
      {
        assert es[j + 1] == rest[j];
      }
    }
  }

  lemma EnoughTokens(st: Buckets, l: Limits, es: seq<Event>, key: string, t: real)
    requires l.burst >= 1 && Sound(st, l, t) && SpacedFrom(st, l, es, key)
    requires es != [] && es[0] == Allow(key, es[0].at)
    ensures Answer(st, l, key, es[0].at)
  {
    hide Inflow;
    if key in st {
      var dt := es[0].at - st[key].lastRefill;
      FlowIs(dt, l.rate);
      assert Apart(l, st[key].lastRefill, es[0].at);
    }
  }

  lemma {:induction false} SteadyFrom(st: Buckets, l: Limits, es: seq<Event>, key: string, t: real)
    requires l.rate >= 0.0 && l.burst >= 1 && Sound(st, l, t) && Timely(es, t)
    requires Spaced(l, es, key) && SpacedFrom(st, l, es, key)
    ensures forall i :: 0 <= i < |KeyAnswers(st, l, es, key)| ==> KeyAnswers(st, l, es, key)[i]
    decreases |es|
  {
    hide Spaced, SpacedFrom, Sound, Step, Answer;
    if es != [] {
      if es[0].Allow? && es[0].key == key {
        EnoughTokens(st, l, es, key, t);
      }
      StepKeepsSound(st, l, es[0], t);
      SpacedStep(st, l, es, key);
      SteadyFrom(Step(st, l, es[0]), l, es[1..], key, es[0].at);
    }
  }

  /** A key whose calls come no faster than the rate is never refused, whatever the other keys do and whenever
      buckets are cleaned up. */
  lemma SteadyCallsSucceed(l: Limits, es: seq<Event>, key: string, t: real)
    requires l.rate >= 0.0 && l.burst >= 1 && Timely(es, t) && Spaced(l, es, key)
    ensures forall i :: 0 <= i < |KeyAnswers(map[], l, es, key)| ==> KeyAnswers(map[], l, es, key)[i]
  {
    SteadyFrom(map[], l, es, key, t);
  }

  // ----- which buckets are held

  /** Event i is the key's last call, and every later cleanup came within 300 seconds of it. */
  predicate HeldSince(es: seq<Event>, key: string, i: nat) {
    && i < |es| && es[i] == Allow(key, es[i].at)
    && (forall j :: i < j < |es| ==> if es[j].Allow? then es[j].key != key else es[j].at <= es[i].at + 300.0)
  }

  lemma RunSnoc(st: Buckets, l: Limits, es: seq<Event>)
    requires es != []
    ensures Run(st, l, es) == Step(Run(st, l, es[..|es| - 1]), l, es[|es| - 1])
  {
    var n := |es| - 1;
    assert es == es[..n] + [es[n]];
    RunConcat(st, l, es[..n], [es[n]]);
    assert Run(Run(st, l, es[..n]), l, [es[n]]) == Step(Run(st, l, es[..n]), l, es[n]);
  }

  lemma HeldNext(es: seq<Event>, key: string, i: nat)
    requires es != []
    ensures var n, last := |es| - 1, es[|es| - 1];
            HeldSince(es, key, i) <==>
            if last.Allow? && last.key == key then i == n
            else HeldSince(es[..n], key, i) && (last.Cleanup? ==> last.at <= es[i].at + 300.0)
  {
    var n := |es| - 1;
    assert forall j :: 0 <= j < n ==> es[..n][j] == es[j];
    if HeldSince(es, key, i) && i < n {
      assert if es[n].Allow? then es[n].key != key else es[n].at <= es[i].at + 300.0;
    }
  }

  /** After any run a key has a bucket if and only if it has made a call and every cleanup since its last one came
      within 300 seconds of it; and the bucket was last refilled by that call. */
  lemma {:induction false} BucketIff(l: Limits, es: seq<Event>, key: string)
    ensures var st := Run(map[], l, es);
            && (key in st <==> exists i: nat :: HeldSince(es, key, i))
            && (forall i: nat :: HeldSince(es, key, i) ==> key in st && st[key].lastRefill == es[i].at)
  {
    hide Refilled, Run;
    if es == [] {
      NothingHeld(l, key);
    } else {
      var n := |es| - 1;
      BucketIff(l, es[..n], key);
      RunSnoc(map[], l, es);
      forall i: nat ensures HeldSince(es, key, i) <==>
                       if es[n].Allow? && es[n].key == key then i == n
                       else HeldSince(es[..n], key, i) && (es[n].Cleanup? ==> es[n].at <= es[i].at + 300.0)
      {
        HeldNext(es, key, i);
      }
      BucketNext(l, es, es[..n], key, Run(map[], l, es[..n]));
    }
  }

  lemma NothingHeld(l: Limits, key: string)
    ensures Run(map[], l, []) == map[] && forall i: nat :: !HeldSince([], key, i)
  {
  }

  lemma BucketNext(l: Limits, es: seq<Event>, front: seq<Event>, key: string, st: Buckets)
    requires es != [] && front == es[..|es| - 1]
    requires key in st <==> exists i: nat :: HeldSince(front, key, i)
    requires forall i: nat :: HeldSince(front, key, i) ==> key in st && st[key].lastRefill == front[i].at
    requires forall i: nat :: HeldSince(es, key, i) <==>
                       if es[|es| - 1].Allow? && es[|es| - 1].key == key then i == |es| - 1
                       else HeldSince(front, key, i) && (es[|es| - 1].Cleanup? ==> es[|es| - 1].at <= es[i].at + 300.0)
    ensures var st' := Step(st, l, es[|es| - 1]);
            && (key in st' <==> exists i: nat :: HeldSince(es, key, i))
            && (forall i: nat :: HeldSince(es, key, i) ==> key in st' && st'[key].lastRefill == es[i].at)
  {
    hide Refilled;
    var last := es[|es| - 1];
    var st' := Step(st, l, last);
    if last.Allow? && last.key == key {
      assert HeldSince(es, key, |es| - 1);
    } else if key in st' {
      var i: nat :| HeldSince(front, key, i);
      assert HeldSince(es, key, i);
    }
  }
}
