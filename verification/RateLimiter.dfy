/** The per-key token bucket. Time and tokens are reals; a limiter's state is a map from keys to buckets. */
module TokenBucket {

  /** How long a bucket may idle before Cleanup drops it, in seconds. */
  const IDLE: real := 300.0

  datatype Bucket = Bucket(tokens: real, lastRefill: real)

  type Buckets = map<string, Bucket>

  /** The rate is in tokens a second; burst is the most a bucket holds. */
  datatype Limits = Limits(rate: real, burst: int)

  function Min(a: real, b: real): real {
    if a > b then b else a
  }

  /** The tokens that flow in during dt seconds. */
  function Inflow(dt: real, rate: real): real {
    dt * rate
  }

  /** The tokens key holds once refilled at `now`; a key without a bucket starts full. */
  function Refilled(st: Buckets, l: Limits, key: string, now: real): real {
    if key in st then Min(st[key].tokens + Inflow(now - st[key].lastRefill, l.rate), l.burst as real)
    else l.burst as real
  }

  function Answer(st: Buckets, l: Limits, key: string, now: real): bool {
    Refilled(st, l, key, now) >= 1.0
  }

  function AllowSpec(st: Buckets, l: Limits, key: string, now: real): Buckets {
    var t := Refilled(st, l, key, now);
    st[key := Bucket(if t >= 1.0 then t - 1.0 else t, now)]
  }

  function CleanupSpec(st: Buckets, now: real): Buckets {
    map k | k in st && st[k].lastRefill >= now - IDLE :: st[k]
  }

  // ----- runs

  datatype Event = Allow(key: string, at: real) | Cleanup(at: real)

  function Step(st: Buckets, l: Limits, e: Event): Buckets {
    match e
    case Allow(key, at) => AllowSpec(st, l, key, at)
    case Cleanup(at) => CleanupSpec(st, at)
  }

  function Run(st: Buckets, l: Limits, es: seq<Event>): Buckets
    decreases |es|
  {
    if es == [] then st else Run(Step(st, l, es[0]), l, es[1..])
  }

  /** The answers of the Allow calls of a run, in order. */
  function Answers(st: Buckets, l: Limits, es: seq<Event>): seq<bool>
    decreases |es|
  {
    if es == [] then []
    else
      var rest := Answers(Step(st, l, es[0]), l, es[1..]);
      if es[0].Allow? then [Answer(st, l, es[0].key, es[0].at)] + rest else rest
  }

  function WithoutCleanups(es: seq<Event>): (r: seq<Event>)
    ensures |r| <= |es|
  {
    if es == [] then []
    else if es[0].Cleanup? then WithoutCleanups(es[1..])
    else [es[0]] + WithoutCleanups(es[1..])
  }

  /** The clock never runs backwards from t on. */
  predicate Timely(es: seq<Event>, t: real) {
    es == [] || (t <= es[0].at && Timely(es[1..], es[0].at))
  }

  /** Buckets hold between 0 and burst tokens and were refilled no later than t. */
  predicate Sound(st: Buckets, l: Limits, t: real) {
    forall k :: k in st ==> 0.0 <= st[k].tokens <= l.burst as real && st[k].lastRefill <= t
  }

  /** Allow in two steps: find the bucket, or make a full one; then refill it and take a token. */
  lemma AllowInSteps(st: Buckets, l: Limits, key: string, now: real, found: Buckets)
    requires found == if key in st then st else st[key := Bucket(l.burst as real, now)]
    ensures var t := Min(found[key].tokens + Inflow(now - found[key].lastRefill, l.rate), l.burst as real);
            && Answer(st, l, key, now) == (t >= 1.0)
            && AllowSpec(st, l, key, now) == found[key := Bucket(if t >= 1.0 then t - 1.0 else t, now)]
  {
    hide Inflow;
    NoTimeNoFlow(l.rate);
  }

  lemma RefilledInRange(st: Buckets, l: Limits, key: string, now: real, t: real)
    requires l.rate >= 0.0 && l.burst >= 0 && Sound(st, l, t) && t <= now
    ensures 0.0 <= Refilled(st, l, key, now) <= l.burst as real
    ensures key in st ==> st[key].tokens <= Refilled(st, l, key, now) <= st[key].tokens + Inflow(now - st[key].lastRefill, l.rate)
  {
    if key in st {
      Grows(now - st[key].lastRefill, l.rate);
    }
  }

  lemma Grows(dt: real, rate: real)
    requires dt >= 0.0 && rate >= 0.0
    ensures Inflow(dt, rate) >= 0.0
  {
  }

  lemma NoTimeNoFlow(rate: real)
    ensures Inflow(0.0, rate) == 0.0
  {
  }

  lemma FlowIs(dt: real, rate: real)
    ensures Inflow(dt, rate) == rate * dt
  {
  }

  lemma IdleFlow(dt: real, rate: real, burst: real)
    requires dt >= IDLE && rate >= 0.0 && rate * IDLE >= burst
    ensures Inflow(dt, rate) >= burst
  {
    Grows(dt - IDLE, rate);
  }

  lemma SplitFlow(t: real, s: real, u: real, rate: real)
    ensures Inflow(u - t, rate) == Inflow(s - t, rate) + Inflow(u - s, rate)
  {
  }

  lemma StepKeepsSound(st: Buckets, l: Limits, e: Event, t: real)
    requires l.rate >= 0.0 && l.burst >= 0 && Sound(st, l, t) && t <= e.at
    ensures Sound(Step(st, l, e), l, e.at)
  {
    if e.Allow? {
      RefilledInRange(st, l, e.key, e.at, t);
    }
  }

  /** The time of the last event, or t when there is none. */
  function EndTime(es: seq<Event>, t: real): real {
    if es == [] then t else EndTime(es[1..], es[0].at)
  }

  /** Tokens stay between 0 and burst over any run. */
  lemma {:induction false} RunKeepsSound(st: Buckets, l: Limits, es: seq<Event>, t: real)
    requires l.rate >= 0.0 && l.burst >= 0 && Sound(st, l, t) && Timely(es, t)
    ensures Sound(Run(st, l, es), l, EndTime(es, t))
    decreases |es|
  {
    if es != [] {
      StepKeepsSound(st, l, es[0], t);
      RunKeepsSound(Step(st, l, es[0]), l, es[1..], es[0].at);
    }
  }

  // ----- cleanup cannot be observed

  /** `swept` lacks only buckets that have been idle so long that they are full again. */
  predicate SameButIdle(swept: Buckets, kept: Buckets, t: real) {
    && (forall k :: k in swept ==> k in kept && swept[k] == kept[k])
    && (forall k :: k in kept && k !in swept ==> kept[k].lastRefill < t - IDLE)
  }

  lemma IdleIsFull(kept: Buckets, l: Limits, key: string, now: real, t: real)
    requires l.rate >= 0.0 && l.burst >= 0 && Sound(kept, l, t) && t <= now
    requires l.rate * IDLE >= l.burst as real
    requires key in kept && kept[key].lastRefill < t - IDLE
    ensures Refilled(kept, l, key, now) == l.burst as real
  {
    IdleFlow(now - kept[key].lastRefill, l.rate, l.burst as real);
  }

  lemma SameStep(swept: Buckets, kept: Buckets, l: Limits, e: Event, t: real)
    requires l.rate >= 0.0 && l.burst >= 0 && Sound(kept, l, t) && t <= e.at
    requires l.rate * IDLE >= l.burst as real
    requires SameButIdle(swept, kept, t)
    ensures e.Allow? ==> Answer(swept, l, e.key, e.at) == Answer(kept, l, e.key, e.at)
    ensures SameButIdle(Step(swept, l, e), if e.Allow? then Step(kept, l, e) else kept, e.at)
  {
    if e.Allow? && e.key in kept && e.key !in swept {
      IdleIsFull(kept, l, e.key, e.at, t);
    }
  }

  lemma {:induction false} CleanupUnobservableFrom(swept: Buckets, kept: Buckets, l: Limits, es: seq<Event>, t: real)
    requires l.rate >= 0.0 && l.burst >= 0 && l.rate * IDLE >= l.burst as real
    requires Sound(kept, l, t) && SameButIdle(swept, kept, t) && Timely(es, t)
    ensures Answers(swept, l, es) == Answers(kept, l, WithoutCleanups(es))
    decreases |es|
  {
    if es != [] {
      var e := es[0];
      SameStep(swept, kept, l, e, t);
      StepKeepsSound(kept, l, e, t);
      if e.Allow? {
        CleanupUnobservableFrom(Step(swept, l, e), Step(kept, l, e), l, es[1..], e.at);
        var rest := WithoutCleanups(es[1..]);
        assert WithoutCleanups(es) == [e] + rest && ([e] + rest)[1..] == rest;
      } else {
        assert Sound(kept, l, e.at);
        CleanupUnobservableFrom(Step(swept, l, e), kept, l, es[1..], e.at);
      }
    }
  }

  /** Cleanups inserted anywhere in a run change none of its answers when 300 idle seconds refill a bucket. */
  lemma CleanupUnobservable(l: Limits, es: seq<Event>, t: real)
    requires l.rate >= 0.0 && l.burst >= 0 && l.rate * IDLE >= l.burst as real
    requires Timely(es, t)
    ensures Answers(map[], l, es) == Answers(map[], l, WithoutCleanups(es))
  {
    CleanupUnobservableFrom(map[], map[], l, es, t);
  }

  // ----- how many calls get through

  /** How many of key's Allow calls in the run succeed. */
  function Successes(st: Buckets, l: Limits, es: seq<Event>, key: string): nat
    decreases |es|
  {
    if es == [] then 0
    else
      var rest := Successes(Step(st, l, es[0]), l, es[1..], key);
      if es[0].Allow? && es[0].key == key && Answer(st, l, key, es[0].at) then 1 + rest else rest
  }

  lemma RefillSlope(st: Buckets, l: Limits, key: string, t: real, s: real)
    requires l.rate >= 0.0 && t <= s
    ensures Refilled(st, l, key, t) <= Refilled(st, l, key, s) <= Refilled(st, l, key, t) + Inflow(s - t, l.rate)
  {
    Grows(s - t, l.rate);
    if key in st {
      SplitFlow(st[key].lastRefill, t, s, l.rate);
    }
  }

  /** There are no cleanups, or 300 idle seconds refill a bucket. */
  predicate CleanupsKeepQuiet(l: Limits, es: seq<Event>) {
    l.rate * IDLE >= l.burst as real || forall i :: 0 <= i < |es| ==> es[i].Allow?
  }

  /** What one event may take from key's tokens: what was there, plus what flows in, minus the call let through. */
  lemma Outflow(st: Buckets, l: Limits, e: Event, key: string, t: real)
    requires l.rate >= 0.0 && l.burst >= 0 && (e.Allow? || l.rate * IDLE >= l.burst as real)
    requires Sound(st, l, t) && t <= e.at
    ensures var out := if e.Allow? && e.key == key && Answer(st, l, key, e.at) then 1.0 else 0.0;
            out + Refilled(Step(st, l, e), l, key, e.at) <= Refilled(st, l, key, t) + Inflow(e.at - t, l.rate)
  {
    hide Inflow;
    NoTimeNoFlow(l.rate);
    RefillSlope(st, l, key, t, e.at);
    RefilledInRange(st, l, key, e.at, t);
    if e.Cleanup? && key in st && key !in Step(st, l, e) {
      IdleIsFull(st, l, key, e.at, e.at);
    }
  }

  lemma {:induction false} TotalOutflow(st: Buckets, l: Limits, es: seq<Event>, key: string, t: real)
    requires l.rate >= 0.0 && l.burst >= 0 && CleanupsKeepQuiet(l, es)
    requires Sound(st, l, t) && Timely(es, t)
    ensures t <= EndTime(es, t)
    ensures Successes(st, l, es, key) as real + Refilled(Run(st, l, es), l, key, EndTime(es, t))
            <= Refilled(st, l, key, t) + Inflow(EndTime(es, t) - t, l.rate)
    decreases |es|
  {
    hide Inflow;
    NoTimeNoFlow(l.rate);
    if es != [] {
      var e, rest := es[0], es[1..];
      var st' := Step(st, l, e);
      Outflow(st, l, e, key, t);
      StepKeepsSound(st, l, e, t);
      TotalOutflow(st', l, rest, key, e.at);
      var through := e.Allow? && e.key == key && Answer(st, l, key, e.at);
      var n := Successes(st', l, rest, key);
      assert Successes(st, l, es, key) == if through then 1 + n else n;
      Telescope(through, n, Refilled(st, l, key, t), Refilled(st', l, key, e.at),
                Refilled(Run(st', l, rest), l, key, EndTime(rest, e.at)), t, e.at, EndTime(rest, e.at), l.rate);
    }
  }

  lemma Telescope(through: bool, n: nat, r0: real, r1: real, r2: real, t: real, s: real, u: real, rate: real)
    requires (if through then 1.0 else 0.0) + r1 <= r0 + Inflow(s - t, rate)
    requires n as real + r2 <= r1 + Inflow(u - s, rate)
    ensures (if through then 1 + n else n) as real + r2 <= r0 + Inflow(u - t, rate)
  {
    SplitFlow(t, s, u, rate);
  }

  lemma {:induction false} TimelyConcat(a: seq<Event>, b: seq<Event>, t: real)
    requires Timely(a + b, t)
    ensures Timely(a, t) && Timely(b, EndTime(a, t))
  {
    if a == [] {
      assert a + b == b;
    } else {
      assert (a + b)[1..] == a[1..] + b;
      TimelyConcat(a[1..], b, a[0].at);
    }
  }

  lemma {:induction false} EndTimeIn(es: seq<Event>, t: real)
    requires es != []
    ensures exists i :: 0 <= i < |es| && EndTime(es, t) == es[i].at
  {
    if |es| == 1 {
      assert EndTime(es, t) == es[0].at;
    } else {
      EndTimeIn(es[1..], es[0].at);
      var i :| 0 <= i < |es[1..]| && EndTime(es[1..], es[0].at) == es[1..][i].at;
      assert es[1..][i] == es[i + 1];
    }
  }

  lemma WindowInflow(l: Limits, before: seq<Event>, window: seq<Event>, after: seq<Event>, key: string,
                     t: real, from: real, length: real)
    requires l.rate >= 0.0 && l.burst >= 0 && CleanupsKeepQuiet(l, window) && length >= 0.0
    requires Timely(before + (window + after), t)
    requires forall i :: 0 <= i < |window| ==> from <= window[i].at <= from + length
    ensures Successes(Run(map[], l, before), l, window, key) as real <= l.burst as real + Inflow(length, l.rate)
  {
    hide Inflow;
    TimelyConcat(before, window + after, t);
    TimelyConcat(window, after, EndTime(before, t));
    Grows(length, l.rate);
    if window != [] {
      var st, start := Run(map[], l, before), window[0].at;
      RunKeepsSound(map[], l, before, t);
      TotalOutflow(st, l, window, key, start);
      RefilledInRange(st, l, key, start, start);
      RunKeepsSound(st, l, window, start);
      var end := EndTime(window, start);
      RefilledInRange(Run(st, l, window), l, key, end, end);
      EndTimeIn(window, start);
      Grows(length - (end - start), l.rate);
      SplitFlow(start, end, start + length, l.rate);
    }
  }

  /** In any run, the calls of one key that succeed within a window of `length` seconds are at most
      burst + rate * length, whatever other keys do and whatever was cleaned up before. */
  lemma WindowBound(l: Limits, before: seq<Event>, window: seq<Event>, after: seq<Event>, key: string,
                    t: real, from: real, length: real)
    requires l.rate >= 0.0 && l.burst >= 0 && CleanupsKeepQuiet(l, window) && length >= 0.0
    requires Timely(before + (window + after), t)
    requires forall i :: 0 <= i < |window| ==> from <= window[i].at <= from + length
    ensures Successes(Run(map[], l, before), l, window, key) as real <= l.burst as real + l.rate * length
  {
    hide *;
    WindowInflow(l, before, window, after, key, t, from, length);
    FlowIs(length, l.rate);
  }

  // ----- keys do not interfere

  predicate Concerns(e: Event, key: string) {
    e.Cleanup? || e.key == key
  }

  function OnlyKey(es: seq<Event>, key: string): (r: seq<Event>)
    ensures |r| <= |es|
  {
    if es == [] then []
    else if Concerns(es[0], key) then [es[0]] + OnlyKey(es[1..], key)
    else OnlyKey(es[1..], key)
  }

  function KeyAnswers(st: Buckets, l: Limits, es: seq<Event>, key: string): seq<bool>
    decreases |es|
  {
    if es == [] then []
    else
      var rest := KeyAnswers(Step(st, l, es[0]), l, es[1..], key);
      if es[0].Allow? && es[0].key == key then [Answer(st, l, key, es[0].at)] + rest else rest
  }

  predicate AgreeOn(a: Buckets, b: Buckets, key: string) {
    (key in a <==> key in b) && (key in a ==> a[key] == b[key])
  }

  /** The answers one key gets do not depend on what other keys ask: they are all the answers of the run without
      the other keys' calls. */
  lemma {:induction false} KeysAreIndependent(a: Buckets, b: Buckets, l: Limits, es: seq<Event>, key: string)
    requires AgreeOn(a, b, key)
    ensures KeyAnswers(a, l, es, key) == KeyAnswers(b, l, OnlyKey(es, key), key) == Answers(b, l, OnlyKey(es, key))
    decreases |es|
  {
    if es != [] {
      var e, rest := es[0], OnlyKey(es[1..], key);
      if Concerns(e, key) {
        KeysAreIndependent(Step(a, l, e), Step(b, l, e), l, es[1..], key);
        assert ([e] + rest)[1..] == rest;
      } else {
        KeysAreIndependent(Step(a, l, e), b, l, es[1..], key);
      }
    }
  }

  // ----- exactly when cleanup cannot be observed

  function Burst(key: string, n: nat, at: real): (r: seq<Event>)
    ensures |r| == n
  {
    if n == 0 then [] else [Allow(key, at)] + Burst(key, n - 1, at)
  }

  function Trues(n: nat): (r: seq<bool>)
    ensures |r| == n
  {
    if n == 0 then [] else [true] + Trues(n - 1)
  }

  lemma {:induction false} RunConcat(st: Buckets, l: Limits, a: seq<Event>, b: seq<Event>)
    ensures Run(st, l, a + b) == Run(Run(st, l, a), l, b)
    ensures Answers(st, l, a + b) == Answers(st, l, a) + Answers(Run(st, l, a), l, b)
    decreases |a|
  {
    if a == [] {
      assert a + b == b;
    } else {
      assert (a + b)[1..] == a[1..] + b && (a + b)[0] == a[0];
      RunConcat(Step(st, l, a[0]), l, a[1..], b);
    }
  }

  /** Calls at one instant succeed as long as there are tokens for them. */
  lemma {:induction false} BurstDrains(st: Buckets, l: Limits, key: string, n: nat, at: real)
    requires n as real <= Refilled(st, l, key, at)
    ensures Answers(st, l, Burst(key, n, at)) == Trues(n)
    ensures var end := Run(st, l, Burst(key, n, at));
            && Refilled(end, l, key, at) == Refilled(st, l, key, at) - n as real
            && (n > 0 ==> key in end && end[key] == Bucket(Refilled(st, l, key, at) - n as real, at))
    decreases n
  {
    hide Inflow;
    NoTimeNoFlow(l.rate);
    if n > 0 {
      var b := Burst(key, n, at);
      assert b[0] == Allow(key, at) && b[1..] == Burst(key, n - 1, at);
      BurstDrains(Step(st, l, b[0]), l, key, n - 1, at);
    }
  }

  /** If every call of a burst succeeds there were tokens for all of them. */
  lemma {:induction false} DrainedBurst(st: Buckets, l: Limits, key: string, n: nat, at: real)
    requires l.burst >= 0 && Answers(st, l, Burst(key, n, at)) == Trues(n) && n > 0
    ensures n as real <= Refilled(st, l, key, at)
    decreases n
  {
    hide Inflow;
    NoTimeNoFlow(l.rate);
    var b := Burst(key, n, at);
    assert b[0] == Allow(key, at) && b[1..] == Burst(key, n - 1, at);
    var st' := Step(st, l, b[0]);
    assert Answers(st, l, b)[0] && Answers(st, l, b)[1..] == Answers(st', l, b[1..]);
    assert Trues(n)[0] && Trues(n)[1..] == Trues(n - 1);
    if n > 1 {
      DrainedBurst(st', l, key, n - 1, at);
    }
  }

  /** A run in which a cleanup shows: empty the bucket, wait a little over 300 seconds, clean up, and ask
      again for everything a full bucket holds. */
  function Telltale(key: string, n: nat, at: real): seq<Event> {
    Burst(key, n, 0.0) + ([Cleanup(at)] + Burst(key, n, at))
  }

  lemma {:induction false} BurstTimely(key: string, n: nat, at: real, t: real)
    requires t <= at
    ensures Timely(Burst(key, n, at), t)
    ensures WithoutCleanups(Burst(key, n, at)) == Burst(key, n, at)
    ensures n > 0 ==> EndTime(Burst(key, n, at), t) == at
  {
    if n > 0 {
      BurstTimely(key, n - 1, at, at);
      assert Burst(key, n, at)[1..] == Burst(key, n - 1, at);
    }
  }

  lemma {:induction false} ConcatTimely(a: seq<Event>, b: seq<Event>, t: real)
    requires Timely(a, t) && Timely(b, EndTime(a, t))
    ensures Timely(a + b, t)
    ensures WithoutCleanups(a + b) == WithoutCleanups(a) + WithoutCleanups(b)
  {
    if a == [] {
      assert a + b == b;
    } else {
      assert (a + b)[1..] == a[1..] + b && (a + b)[0] == a[0];
      ConcatTimely(a[1..], b, a[0].at);
    }
  }

  lemma TelltaleTimely(key: string, n: nat, at: real)
    requires n > 0 && at >= 0.0
    ensures Timely(Telltale(key, n, at), 0.0)
    ensures WithoutCleanups(Telltale(key, n, at)) == Burst(key, n, 0.0) + Burst(key, n, at)
  {
    var first, last := Burst(key, n, 0.0), Burst(key, n, at);
    BurstTimely(key, n, 0.0, 0.0);
    BurstTimely(key, n, at, at);
    var tail := [Cleanup(at)] + last;
    assert tail[1..] == last;
    ConcatTimely(first, tail, 0.0);
  }

  lemma TelltaleShows(l: Limits, key: string, at: real)
    requires l.rate >= 0.0 && l.burst > 0 && at > IDLE && Inflow(at, l.rate) < l.burst as real
    ensures Answers(map[], l, Telltale(key, l.burst, at))
            != Answers(map[], l, WithoutCleanups(Telltale(key, l.burst, at)))
  {
    hide Inflow;
    var n := l.burst;
    var first, last := Burst(key, n, 0.0), Burst(key, n, at);
    TelltaleTimely(key, n, at);
    BurstDrains(map[], l, key, n, 0.0);
    var st := Run(map[], l, first);
    var tail := [Cleanup(at)] + last;
    RunConcat(map[], l, first, tail);
    RunConcat(map[], l, first, last);
    assert tail[1..] == last;
    var swept := CleanupSpec(st, at);
    assert key !in swept;
    BurstDrains(swept, l, key, n, at);
    assert Answers(st, l, tail) == Trues(n);
    assert at - st[key].lastRefill == at;
    if Answers(map[], l, first + tail) == Answers(map[], l, first + last) {
      SameTail(Trues(n), Trues(n), Answers(st, l, last));
      DrainedBurst(st, l, key, n, at);
    }
  }

  lemma SameTail<T>(a: seq<T>, b: seq<T>, c: seq<T>)
    requires a + b == a + c
    ensures b == c
  {
    assert (a + b)[|a|..] == b && (a + c)[|a|..] == c;
  }

  /** A limiter whose bucket can hold nothing refuses everything, cleaned up or not. */
  lemma {:induction false} EmptyLimiter(a: Buckets, b: Buckets, l: Limits, es: seq<Event>)
    requires l.burst <= 0
    ensures Answers(a, l, es) == Answers(b, l, WithoutCleanups(es))
    decreases |es|
  {
    if es != [] {
      var e, rest := es[0], WithoutCleanups(es[1..]);
      if e.Allow? {
        EmptyLimiter(Step(a, l, e), Step(b, l, e), l, es[1..]);
        assert ([e] + rest)[1..] == rest;
      } else {
        EmptyLimiter(Step(a, l, e), b, l, es[1..]);
      }
    }
  }

  /** Between 300 seconds and the time a bucket needs to fill up there is room for a telltale run. */
  lemma TelltaleTime(l: Limits) returns (at: real)
    requires l.rate >= 0.0 && l.burst > 0 && l.rate * IDLE < l.burst as real
    ensures at > IDLE && Inflow(at, l.rate) < l.burst as real
  {
    if l.rate == 0.0 {
      at := IDLE + 1.0;
    } else {
      var slack := (l.burst as real - l.rate * IDLE) / (2.0 * l.rate);
      assert slack > 0.0 && slack * (2.0 * l.rate) == l.burst as real - l.rate * IDLE;
      at := IDLE + slack;
      assert at * l.rate == IDLE * l.rate + slack * l.rate;
    }
  }

  /** Cleanups are unobservable in every run exactly when 300 idle seconds refill a bucket, or nothing is
      ever let through. */
  lemma CleanupUnobservableIff(l: Limits)
    requires l.rate >= 0.0
    ensures (forall es :: Timely(es, 0.0) ==> Answers(map[], l, es) == Answers(map[], l, WithoutCleanups(es)))
            <==> l.burst <= 0 || l.rate * IDLE >= l.burst as real
  {
    if l.burst <= 0 {
      forall es ensures Answers(map[], l, es) == Answers(map[], l, WithoutCleanups(es)) {
        EmptyLimiter(map[], map[], l, es);
      }
    } else if l.rate * IDLE >= l.burst as real {
      forall es | Timely(es, 0.0) ensures Answers(map[], l, es) == Answers(map[], l, WithoutCleanups(es)) {
        CleanupUnobservable(l, es, 0.0);
      }
    } else {
      var at := TelltaleTime(l);
      TelltaleTimely("k", l.burst, at);
      TelltaleShows(l, "k", at);
    }
  }
}

/** The limiter as the program keeps it: bucket objects updated in place, found through a map. */
module RateLimiting {
  import opened TokenBucket

  class BucketObject {
    var tokens: real
    var lastRefill: real

    constructor (tokens: real, lastRefill: real)
      ensures this.tokens == tokens && this.lastRefill == lastRefill
    {
      this.tokens, this.lastRefill := tokens, lastRefill;
    }

    /** Refills the bucket up to now and takes one token if there is one. */
    method Spend(now: real, rate: real, burst: int) returns (ok: bool)
      modifies this
      ensures var t := Min(old(tokens) + Inflow(now - old(lastRefill), rate), burst as real);
              ok == (t >= 1.0) && tokens == (if ok then t - 1.0 else t) && lastRefill == now
    {
      var elapsed := now - lastRefill;
      tokens := tokens + elapsed * rate;
      if tokens > burst as real {
        tokens := burst as real;
      }
      lastRefill := now;
      if tokens < 1.0 {
        return false;
      }
      tokens := tokens - 1.0;
      return true;
    }
  }

  class RateLimiter {
    const rate: real
    const burst: int
    var buckets: map<string, BucketObject>

    ghost function Repr(): set<object>
      reads this
    {
      buckets.Values
    }

    /** No two keys share a bucket. */
    ghost predicate Valid()
      reads this
    {
      forall k, m :: k in buckets && m in buckets && k != m ==> buckets[k] != buckets[m]
    }

    ghost function Limit(): Limits {
      Limits(rate, burst)
    }

    ghost function View(): Buckets
      reads this, Repr()
    {
      map k | k in buckets :: Bucket(buckets[k].tokens, buckets[k].lastRefill)
    }

    constructor (rate: real, burst: int)
      ensures Valid() && View() == map[] && Limit() == Limits(rate, burst)
    {
      this.rate, this.burst, this.buckets := rate, burst, map[];
    }

    /** Key's bucket, made full if it had none. */
    method BucketFor(key: string, now: real) returns (b: BucketObject)
      requires Valid()
      modifies this
      ensures Valid() && key in buckets && b == buckets[key]
      ensures forall k :: k in buckets ==> buckets[k] in old(Repr()) || fresh(buckets[k])
      ensures View() == if key in old(buckets) then old(View()) else old(View())[key := Bucket(burst as real, now)]
    {
      if key !in buckets {
        b := new BucketObject(burst as real, now);
        buckets := buckets[key := b];
      } else {
        b := buckets[key];
      }
    }

    method Allow(key: string, now: real) returns (ok: bool)
      requires Valid()
      modifies this, Repr()
      ensures Valid() && forall k :: k in buckets ==> buckets[k] in old(Repr()) || fresh(buckets[k])
      ensures ok == Answer(old(View()), Limit(), key, now)
      ensures View() == AllowSpec(old(View()), Limit(), key, now)
    {
      hide Inflow;
      var b := BucketFor(key, now);
      AllowInSteps(old(View()), Limit(), key, now, View());
      ok := SpendFrom(key, b, now);
    }

    /** Refills key's bucket and takes a token from it; no other bucket changes. */
    method SpendFrom(key: string, b: BucketObject, now: real) returns (ok: bool)
      requires Valid() && key in buckets && buckets[key] == b
      modifies b
      ensures var was := old(View())[key];
              var t := Min(was.tokens + Inflow(now - was.lastRefill, rate), burst as real);
              ok == (t >= 1.0) && View() == old(View())[key := Bucket(if t >= 1.0 then t - 1.0 else t, now)]
    {
      hide Inflow;
      assert forall k :: k in buckets && k != key ==> buckets[k] != b;
      ok := b.Spend(now, rate, burst);
    }

    method Cleanup(now: real)
      requires Valid()
      modifies this
      ensures Valid() && Repr() <= old(Repr())
      ensures View() == CleanupSpec(old(View()), now)
    {
      var cutoff := now - IDLE;
      var keys := buckets.Keys;
      while keys != {}
        invariant Valid() && Repr() <= old(Repr())
        invariant keys <= buckets.Keys <= old(buckets).Keys
        invariant forall k :: k in buckets ==> buckets[k] == old(buckets)[k]
        invariant forall k :: k in old(buckets) && k !in keys ==> (k in buckets <==> old(buckets)[k].lastRefill >= cutoff)
        decreases keys
      {
        var key :| key in keys;
        keys := keys - {key};
        if buckets[key].lastRefill < cutoff {
          buckets := buckets - {key};
        }
      }
    }
  }
}
