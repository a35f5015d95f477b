/** Whole runs of the cache: what a larger capacity guarantees, and how long a key stays. */
module LruRuns {
  import opened Seqs
  import opened Options
  import opened LruSpec

  datatype Op<K, V> =
    | Set(key: K, value: V, ttl: int)
    | Get(key: K)
    | Delete(key: K)
    | Clear
    | Evict(clock: nat -> int)

  datatype Event<K, V> = Event(op: Op<K, V>, at: int)

  ghost function Step<K, V>(s: seq<Item<K, V>>, capacity: nat, e: Event<K, V>): seq<Item<K, V>> {
    match e.op
    case Set(k, v, ttl) => SetSpec(s, capacity, Item(k, v, ExpiryFor(ttl, e.at)))
    case Get(k) => GetSpec(s, k, e.at)
    case Delete(k) => Without(s, k)
    case Clear => []
    case Evict(clock) => EvictSpec(s, clock)
  }

  ghost function Run<K, V>(s: seq<Item<K, V>>, capacity: nat, es: seq<Event<K, V>>): seq<Item<K, V>>
    decreases |es|
  {
    if es == [] then s else Run(Step(s, capacity, es[0]), capacity, es[1..])
  }

  lemma StepKeepsWellFormed<K, V>(s: seq<Item<K, V>>, capacity: nat, e: Event<K, V>)
    requires WellFormed(s, capacity)
    ensures WellFormed(Step(s, capacity, e), capacity)
  {
    match e.op
    case Set(k, v, ttl) => SetKeepsWellFormed(s, capacity, Item(k, v, ExpiryFor(ttl, e.at)));
    case Get(k) => GetKeepsWellFormed(s, capacity, k, e.at);
    case Delete(k) => KeepDistinctKeys(s, (x: Item<K, V>) => x.key != k);
    case Clear =>
    case Evict(clock) => EvictDistinctKeys(s, clock, 0);
  }

  // ----- inclusion: a larger cache holds everything a smaller one holds

  /** The sweep reads the same instant at every item. */
  ghost predicate Frozen(clock: nat -> int) {
    forall i: nat :: clock(i) == clock(0)
  }

  ghost predicate SharedTrace<K, V>(es: seq<Event<K, V>>) {
    forall i :: 0 <= i < |es| && es[i].op.Evict? ==> Frozen(es[i].op.clock)
  }

  ghost predicate Included<K, V>(small: seq<Item<K, V>>, c: nat, large: seq<Item<K, V>>, d: nat) {
    && WellFormed(small, c)
    && WellFormed(large, d)
    && Subsequence(small, large)
    && c - |small| <= d - |large|
  }

  lemma {:induction false} FrozenEvict<K, V>(s: seq<Item<K, V>>, clock: nat -> int, at: nat)
    requires Frozen(clock)
    ensures EvictFrom(s, clock, at) == Keep(s, (x: Item<K, V>) => !Expired(x.expiry, clock(0)))
  {
    if s != [] {
      assert clock(at) == clock(0);
      FrozenEvict(s[1..], clock, at + 1);
    }
  }

  /** An item of the small list sits in the large one too, and no other item there has its key. */
  lemma {:induction false} SharedItem<K, V>(small: seq<Item<K, V>>, large: seq<Item<K, V>>, k: K)
    requires DistinctKeys(large) && Subsequence(small, large) && Has(small, k)
    ensures Has(large, k) && large[IndexOf(large, k)] == small[IndexOf(small, k)]
  {
    if small[0] != large[0] {
      SharedItem(small, large[1..], k);
    } else if small[0].key != k {
      SharedItem(small[1..], large[1..], k);
    }
  }

  lemma IncludedSet<K, V>(small: seq<Item<K, V>>, c: nat, large: seq<Item<K, V>>, d: nat, item: Item<K, V>)
    requires Included(small, c, large, d)
    ensures Included(SetSpec(small, c, item), c, SetSpec(large, d, item), d)
  {
    SetKeepsWellFormed(small, c, item);
    SetKeepsWellFormed(large, d, item);
    var a, b := [item] + Without(small, item.key), [item] + Without(large, item.key);
    SubsequenceKeep(small, large, (x: Item<K, V>) => x.key != item.key);
    SubsequenceCons(item, Without(small, item.key), Without(large, item.key));
    WithoutLength(small, item.key);
    WithoutLength(large, item.key);
    if Has(small, item.key) {
      SharedItem(small, large, item.key);
    }
    SubsequenceDropLast(a, b);
    assert Take(a, c) == a || Take(a, c) == a[..|a| - 1];
    assert Take(b, d) == b || Take(b, d) == b[..|b| - 1];
  }

  lemma IncludedGet<K, V>(small: seq<Item<K, V>>, c: nat, large: seq<Item<K, V>>, d: nat, k: K, now: int)
    requires Included(small, c, large, d)
    ensures Included(GetSpec(small, k, now), c, GetSpec(large, k, now), d)
  {
    GetKeepsWellFormed(small, c, k, now);
    GetKeepsWellFormed(large, d, k, now);
    SubsequenceKeep(small, large, (x: Item<K, V>) => x.key != k);
    WithoutLength(small, k);
    WithoutLength(large, k);
    var i, j := IndexOf(small, k), IndexOf(large, k);
    if i < |small| {
      SharedItem(small, large, k);
      SubsequenceCons(small[i], Without(small, k), Without(large, k));
    } else {
      WithoutAbsent(small, k);
      if j < |large| {
        SubsequenceSkip(small, large[j], Without(large, k));
      }
    }
  }

  lemma IncludedStep<K, V>(small: seq<Item<K, V>>, c: nat, large: seq<Item<K, V>>, d: nat, e: Event<K, V>)
    requires Included(small, c, large, d) && c <= d
    requires e.op.Evict? ==> Frozen(e.op.clock)
    ensures Included(Step(small, c, e), c, Step(large, d, e), d)
  {
    StepKeepsWellFormed(small, c, e);
    StepKeepsWellFormed(large, d, e);
    match e.op
    case Set(k, v, ttl) => IncludedSet(small, c, large, d, Item(k, v, ExpiryFor(ttl, e.at)));
    case Get(k) => IncludedGet(small, c, large, d, k, e.at);
    case Delete(k) => SubsequenceKeep(small, large, (x: Item<K, V>) => x.key != k);
    case Clear =>
    case Evict(clock) =>
      FrozenEvict(small, clock, 0);
      FrozenEvict(large, clock, 0);
      SubsequenceKeep(small, large, (x: Item<K, V>) => !Expired(x.expiry, clock(0)));
  }

  lemma {:induction false} IncludedRun<K, V>(small: seq<Item<K, V>>, c: nat, large: seq<Item<K, V>>, d: nat,
                                            es: seq<Event<K, V>>)
    requires Included(small, c, large, d) && c <= d && SharedTrace(es)
    ensures Included(Run(small, c, es), c, Run(large, d, es), d)
    decreases |es|
  {
    if es != [] {
      IncludedStep(small, c, large, d, es[0]);
      IncludedRun(Step(small, c, es[0]), c, Step(large, d, es[0]), d, es[1..]);
    }
  }

  /** On one trace from empty, the smaller cache's list is a subsequence of the larger one's, item for
      item, so whatever the smaller one would answer the larger one answers too. */
  lemma Inclusion<K, V>(c: nat, d: nat, es: seq<Event<K, V>>)
    requires c <= d && SharedTrace(es)
    ensures Subsequence(Run([], c, es), Run([], d, es))
    ensures forall k, now ::
              Lookup(Run([], c, es), k, now).Some? ==> Lookup(Run([], d, es), k, now) == Lookup(Run([], c, es), k, now)
  {
    IncludedRun([], c, [], d, es);
    var small, large := Run([], c, es), Run([], d, es);
    forall k, now | Lookup(small, k, now).Some? ensures Lookup(large, k, now) == Lookup(small, k, now) {
      SharedItem(small, large, k);
    }
  }

  // ----- recency: how long a key stays

  /** The keys in front of key k. */
  function Ahead<K(==), V>(s: seq<Item<K, V>>, k: K): set<K> {
    if s == [] || s[0].key == k then {} else {s[0].key} + Ahead(s[1..], k)
  }

  lemma {:induction false} AheadPresent<K, V>(s: seq<Item<K, V>>, k: K, other: K)
    requires other in Ahead(s, k)
    ensures Has(s, other)
  {
    if s[0].key != other {
      AheadPresent(s[1..], k, other);
    }
  }

  lemma {:induction false} AheadCount<K, V>(s: seq<Item<K, V>>, k: K)
    requires DistinctKeys(s)
    ensures |Ahead(s, k)| == IndexOf(s, k)
  {
    if s != [] && s[0].key != k {
      AheadCount(s[1..], k);
      if s[0].key in Ahead(s[1..], k) {
        AheadPresent(s[1..], k, s[0].key);
      }
    }
  }

  lemma {:induction false} AheadWithout<K, V>(s: seq<Item<K, V>>, k: K, other: K)
    requires other != k && Has(s, k)
    ensures Ahead(Without(s, other), k) == Ahead(s, k) - {other}
    ensures Has(Without(s, other), k)
    ensures Without(s, other)[IndexOf(Without(s, other), k)] == s[IndexOf(s, k)]
  {
    if s[0].key != k {
      AheadWithout(s[1..], k, other);
    }
  }

  lemma {:induction false} AheadEvict<K, V>(s: seq<Item<K, V>>, k: K, clock: nat -> int, at: nat)
    requires Has(s, k)
    requires !Expired(s[IndexOf(s, k)].expiry, clock(at + IndexOf(s, k)))
    ensures var t := EvictFrom(s, clock, at);
            && Ahead(t, k) <= Ahead(s, k)
            && Has(t, k)
            && t[IndexOf(t, k)] == s[IndexOf(s, k)]
  {
    if s[0].key != k {
      AheadEvict(s[1..], k, clock, at + 1);
    }
  }

  lemma {:induction false} TakeKeepsIndex<K, V>(s: seq<Item<K, V>>, n: nat, k: K)
    ensures IndexOf(s, k) < n && Has(s, k) ==>
              && IndexOf(Take(s, n), k) == IndexOf(s, k)
              && Ahead(Take(s, n), k) == Ahead(s, k)
              && Take(s, n)[IndexOf(s, k)] == s[IndexOf(s, k)]
    ensures n <= IndexOf(s, k) ==> IndexOf(Take(s, n), k) == |Take(s, n)|
  {
    if s != [] && n > 0 && s[0].key != k {
      TakeKeepsIndex(s[1..], n - 1, k);
      assert Take(s, n) == [s[0]] + Take(s[1..], n - 1);
    }
  }

  /** The keys a step inserts or hits. */
  ghost function Touches<K, V>(s: seq<Item<K, V>>, e: Event<K, V>): set<K> {
    match e.op
    case Set(k, _, _) => {k}
    case Get(k) => if Lookup(s, k, e.at).Some? then {k} else {}
    case _ => {}
  }

  ghost function Touched<K, V>(s: seq<Item<K, V>>, capacity: nat, es: seq<Event<K, V>>): set<K>
    decreases |es|
  {
    if es == [] then {} else Touches(s, es[0]) + Touched(Step(s, capacity, es[0]), capacity, es[1..])
  }

  /** The event neither stores, looks up, deletes nor clears the item's key, and a sweep does not read a time
      past its expiry; it makes at most `capacity` readings. */
  ghost predicate LeavesAlone<K, V>(e: Event<K, V>, item: Item<K, V>, capacity: nat) {
    match e.op
    case Set(k, _, _) => k != item.key
    case Get(k) => k != item.key
    case Delete(k) => k != item.key
    case Clear => false
    case Evict(clock) => forall i: nat :: i < capacity ==> !Expired(item.expiry, clock(i))
  }

  ghost predicate AllLeaveAlone<K, V>(es: seq<Event<K, V>>, item: Item<K, V>, capacity: nat) {
    forall i :: 0 <= i < |es| ==> LeavesAlone(es[i], item, capacity)
  }

  ghost predicate Holds<K, V>(s: seq<Item<K, V>>, item: Item<K, V>) {
    Has(s, item.key) && s[IndexOf(s, item.key)] == item
  }

  lemma AheadCons<K, V>(x: Item<K, V>, t: seq<Item<K, V>>, k: K)
    requires x.key != k
    ensures Ahead([x] + t, k) == {x.key} + Ahead(t, k)
    ensures IndexOf([x] + t, k) == 1 + IndexOf(t, k)
  {
    assert ([x] + t)[1..] == t;
  }

  lemma AheadFront<K, V>(x: Item<K, V>, s: seq<Item<K, V>>, k: K)
    requires x.key != k && Has(s, k)
    ensures Ahead([x] + Without(s, x.key), k) == Ahead(s, k) + {x.key}
    ensures IndexOf([x] + Without(s, x.key), k) == 1 + IndexOf(Without(s, x.key), k)
    ensures Holds([x] + Without(s, x.key), s[IndexOf(s, k)])
  {
    var rest := Without(s, x.key);
    AheadWithout(s, k, x.key);
    AheadCons(x, rest, k);
  }

  /** Storing another key puts it in front of k; k survives exactly if the keys in front still fit. */
  lemma AheadSet<K, V>(s: seq<Item<K, V>>, capacity: nat, x: Item<K, V>, k: K)
    requires WellFormed(s, capacity) && x.key != k && Has(s, k)
    ensures var t, ahead := SetSpec(s, capacity, x), Ahead(s, k) + {x.key};
            if |ahead| < capacity then Holds(t, s[IndexOf(s, k)]) && Ahead(t, k) == ahead
            else !Has(t, k)
  {
    var u := [x] + Without(s, x.key);
    AheadFront(x, s, k);
    ConsDistinctKeys(x, s);
    AheadTake(u, capacity, k);
  }

  lemma AheadTake<K, V>(u: seq<Item<K, V>>, capacity: nat, k: K)
    requires DistinctKeys(u) && Has(u, k)
    ensures var t, ahead := Take(u, capacity), Ahead(u, k);
            if |ahead| < capacity then Holds(t, u[IndexOf(u, k)]) && Ahead(t, k) == ahead
            else !Has(t, k)
  {
    AheadCount(u, k);
    TakeKeepsIndex(u, capacity, k);
  }

  lemma AheadGet<K, V>(s: seq<Item<K, V>>, other: K, now: int, k: K)
    requires DistinctKeys(s) && other != k && Has(s, k)
    ensures var t := GetSpec(s, other, now);
            && Holds(t, s[IndexOf(s, k)])
            && (Lookup(s, other, now).Some? ==> Ahead(t, k) == Ahead(s, k) + {other})
            && (Lookup(s, other, now).None? ==> Ahead(t, k) <= Ahead(s, k))
  {
    var i := IndexOf(s, other);
    if i == |s| {
      assert Lookup(s, other, now).None? && GetSpec(s, other, now) == s;
    } else if Expired(s[i].expiry, now) {
      assert Lookup(s, other, now).None? && GetSpec(s, other, now) == Without(s, other);
      AheadWithout(s, k, other);
    } else {
      var t := [s[i]] + Without(s, other);
      assert Lookup(s, other, now).Some? && GetSpec(s, other, now) == t;
      AheadFront(s[i], s, k);
    }
  }

  /** One step that leaves the item alone: it stays as long as fewer than `capacity` keys get in front,
      and only touched keys get in front. */
  lemma AheadStep<K, V>(s: seq<Item<K, V>>, capacity: nat, e: Event<K, V>, item: Item<K, V>)
    requires WellFormed(s, capacity) && Holds(s, item) && LeavesAlone(e, item, capacity)
    ensures |Ahead(s, item.key) + Touches(s, e)| < capacity ==>
              && Holds(Step(s, capacity, e), item)
              && Ahead(Step(s, capacity, e), item.key) <= Ahead(s, item.key) + Touches(s, e)
  {
    var k := item.key;
    match e.op
    case Set(other, v, ttl) => AheadSet(s, capacity, Item(other, v, ExpiryFor(ttl, e.at)), k);
    case Get(other) => AheadGet(s, other, e.at, k);
    case Delete(other) => AheadWithout(s, k, other);
    case Clear =>
    case Evict(clock) => AheadEvict(s, k, clock, 0);
  }

  lemma {:induction false} RecencyFrom<K, V>(s: seq<Item<K, V>>, capacity: nat, es: seq<Event<K, V>>,
                                            item: Item<K, V>, before: set<K>)
    requires WellFormed(s, capacity) && Holds(s, item) && AllLeaveAlone(es, item, capacity)
    requires Ahead(s, item.key) <= before && |before + Touched(s, capacity, es)| < capacity
    ensures Holds(Run(s, capacity, es), item)
    decreases |es|
  {
    if es != [] {
      var s' := Step(s, capacity, es[0]);
      var before' := before + Touches(s, es[0]);
      var all := before + Touched(s, capacity, es);
      assert all == before' + Touched(s', capacity, es[1..]);
      SubsetCount(Ahead(s, item.key) + Touches(s, es[0]), all);
      AheadStep(s, capacity, es[0], item);
      StepKeepsWellFormed(s, capacity, es[0]);
      RecencyFrom(s', capacity, es[1..], item, before');
    }
  }

  /** Recency. After a key has just been stored or hit it is at the front. If fewer than `capacity`
      distinct other keys are inserted or hit afterwards, and it is not stored again, deleted, cleared
      or expired, looking it up still gives the value it had. */
  lemma Recency<K, V>(s: seq<Item<K, V>>, capacity: nat, es: seq<Event<K, V>>, now: int)
    requires WellFormed(s, capacity) && s != []
    requires AllLeaveAlone(es, s[0], capacity)
    requires |Touched(s, capacity, es)| < capacity
    requires !Expired(s[0].expiry, now)
    ensures Lookup(Run(s, capacity, es), s[0].key, now) == Some(s[0].value)
  {
    assert {} + Touched(s, capacity, es) == Touched(s, capacity, es);
    RecencyFrom(s, capacity, es, s[0], {});
  }

  /** Storing or hitting a key does put it at the front with the value stored or returned. */
  lemma TouchedKeyIsAtFront<K, V>(s: seq<Item<K, V>>, capacity: nat, e: Event<K, V>)
    requires capacity >= 1
    requires e.op.Set? || (e.op.Get? && Lookup(s, e.op.key, e.at).Some?)
    ensures var t := Step(s, capacity, e);
            && t != [] && t[0].key == e.op.key
            && (e.op.Set? ==> t[0].value == e.op.value && t[0].expiry == ExpiryFor(e.op.ttl, e.at))
            && (e.op.Get? ==> Lookup(s, e.op.key, e.at) == Some(t[0].value))
  {
  }

  // ----- runs in parts

  lemma {:induction false} RunKeepsWellFormed<K, V>(s: seq<Item<K, V>>, capacity: nat, es: seq<Event<K, V>>)
    requires WellFormed(s, capacity)
    ensures WellFormed(Run(s, capacity, es), capacity)
    decreases |es|
  {
    if es != [] {
      StepKeepsWellFormed(s, capacity, es[0]);
      RunKeepsWellFormed(Step(s, capacity, es[0]), capacity, es[1..]);
    }
  }

  lemma {:induction false} RunConcat<K, V>(s: seq<Item<K, V>>, capacity: nat, a: seq<Event<K, V>>, b: seq<Event<K, V>>)
    ensures Run(s, capacity, a + b) == Run(Run(s, capacity, a), capacity, b)
    decreases |a|
  {
    if a == [] {
      assert a + b == b;
    } else {
      hide Step;
      RunConcat(Step(s, capacity, a[0]), capacity, a[1..], b);
      assert (a + b)[1..] == a[1..] + b;
    }
  }

  lemma {:induction false} EvictMembers<K, V>(s: seq<Item<K, V>>, clock: nat -> int, at: nat)
    ensures forall x :: x in EvictFrom(s, clock, at) ==> x in s
  {
    if s != [] {
      EvictMembers(s[1..], clock, at + 1);
      Uncons(s);
    }
  }

  lemma OneThenRest<K, V>(s: seq<Item<K, V>>, capacity: nat, e: Event<K, V>, rest: seq<Event<K, V>>)
    ensures Run(s, capacity, [e] + rest) == Run(Step(s, capacity, e), capacity, rest)
  {
    assert ([e] + rest)[1..] == rest;
  }

  // ----- the bound is exact

  ghost predicate NothingExpires<K, V>(s: seq<Item<K, V>>) {
    forall i :: 0 <= i < |s| ==> s[i].expiry.Never?
  }

  /** Only stores without a ttl, and lookups, of keys other than k. */
  ghost predicate PlainTraffic<K, V>(es: seq<Event<K, V>>, k: K) {
    forall i :: 0 <= i < |es| ==>
      || (es[i].op.Set? && es[i].op.ttl <= 0 && es[i].op.key != k)
      || (es[i].op.Get? && es[i].op.key != k)
  }

  lemma {:induction false} WithoutNeverExpires<K, V>(s: seq<Item<K, V>>, k: K)
    requires NothingExpires(s)
    ensures NothingExpires(Without(s, k))
  {
    if s != [] {
      WithoutNeverExpires(s[1..], k);
    }
  }

  lemma ConsAbsent<K, V>(x: Item<K, V>, s: seq<Item<K, V>>, k: K)
    requires x.key != k && !Has(s, k)
    ensures !Has([x] + s, k)
  {
    assert ([x] + s)[1..] == s;
  }

  lemma PlainMembers<K, V>(s: seq<Item<K, V>>, capacity: nat, e: Event<K, V>, k: K)
    requires NothingExpires(s) && PlainTraffic([e], k)
    ensures NothingExpires(Step(s, capacity, e))
    ensures !Has(s, k) ==> !Has(Step(s, capacity, e), k)
  {
    assert e == [e][0];
    var other := e.op.key;
    WithoutNeverExpires(s, other);
    if !Has(s, k) {
      KeepAbsent(s, (x: Item<K, V>) => x.key != other, k);
      if e.op.Set? {
        var x := Item(other, e.op.value, ExpiryFor(e.op.ttl, e.at));
        ConsAbsent(x, Without(s, other), k);
        TakeAbsent([x] + Without(s, other), capacity, k);
      } else if Has(s, other) {
        ConsAbsent(s[IndexOf(s, other)], Without(s, other), k);
      }
    }
  }

  lemma PlainStep<K, V>(s: seq<Item<K, V>>, capacity: nat, e: Event<K, V>, k: K)
    requires WellFormed(s, capacity) && NothingExpires(s) && PlainTraffic([e], k)
    ensures Has(s, k) ==>
              var t, ahead := Step(s, capacity, e), Ahead(s, k) + Touches(s, e);
              if |ahead| < capacity then Has(t, k) && Ahead(t, k) == ahead
              else !Has(t, k)
  {
    assert e == [e][0];
    var other := e.op.key;
    if Has(s, k) {
      if e.op.Set? {
        AheadSet(s, capacity, Item(other, e.op.value, ExpiryFor(e.op.ttl, e.at)), k);
      } else {
        var t := Step(s, capacity, e);
        AheadGet(s, other, e.at, k);
        GetKeepsWellFormed(s, capacity, other, e.at);
        AheadCount(t, k);
        assert Lookup(s, other, e.at).None? ==> t == s;
        assert Ahead(s, k) + {} == Ahead(s, k);
      }
    }
  }

  lemma {:induction false} PlainGone<K, V>(s: seq<Item<K, V>>, capacity: nat, es: seq<Event<K, V>>, k: K)
    requires WellFormed(s, capacity) && NothingExpires(s) && PlainTraffic(es, k)
    requires !Has(s, k)
    ensures !Has(Run(s, capacity, es), k)
    decreases |es|
  {
    if es != [] {
      assert PlainTraffic([es[0]], k);
      PlainMembers(s, capacity, es[0], k);
      StepKeepsWellFormed(s, capacity, es[0]);
      PlainGone(Step(s, capacity, es[0]), capacity, es[1..], k);
    }
  }

  lemma {:induction false} PlainRun<K, V>(s: seq<Item<K, V>>, capacity: nat, es: seq<Event<K, V>>, k: K)
    requires WellFormed(s, capacity) && NothingExpires(s) && PlainTraffic(es, k)
    requires Has(s, k)
    ensures Has(Run(s, capacity, es), k)
            <==> |Ahead(s, k) + Touched(s, capacity, es)| < capacity
    decreases |es|
  {
    if es == [] {
      assert Ahead(s, k) + {} == Ahead(s, k);
      AheadCount(s, k);
    } else {
      var s' := Step(s, capacity, es[0]);
      assert PlainTraffic([es[0]], k);
      PlainMembers(s, capacity, es[0], k);
      PlainStep(s, capacity, es[0], k);
      StepKeepsWellFormed(s, capacity, es[0]);
      var ahead := Ahead(s, k) + Touches(s, es[0]);
      assert ahead + Touched(s', capacity, es[1..]) == Ahead(s, k) + Touched(s, capacity, es);
      if |ahead| < capacity {
        PlainRun(s', capacity, es[1..], k);
      } else {
        SubsetCount(ahead, ahead + Touched(s', capacity, es[1..]));
        PlainGone(s', capacity, es[1..], k);
      }
    }
  }

  /** Without deletes and expiries the bound is exact: the key at the front is still there after the run
      if and only if fewer than `capacity` distinct other keys were inserted or hit. */
  lemma RecencyIsExact<K, V>(s: seq<Item<K, V>>, capacity: nat, es: seq<Event<K, V>>)
    requires WellFormed(s, capacity) && s != [] && NothingExpires(s)
    requires PlainTraffic(es, s[0].key)
    ensures Has(Run(s, capacity, es), s[0].key) <==> |Touched(s, capacity, es)| < capacity
  {
    var k := s[0].key;
    assert {} + Touched(s, capacity, es) == Touched(s, capacity, es);
    PlainRun(s, capacity, es, k);
  }
}
