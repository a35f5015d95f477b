/** Times to live over whole runs, told by the store that set them: its instant, its ttl, and the clock readings. */
module LruExpiry {
  import opened Seqs
  import opened Options
  import opened LruSpec
  import opened LruRuns

  /** A store of a key: what was stored, for how long, and when. */
  datatype Store<V> = Store(value: V, ttl: int, at: int)

  /** The last store of k in a run, if there is one. */
  function LastStore<K(==), V>(es: seq<Event<K, V>>, k: K): Option<Store<V>> {
    if es == [] then None
    else
      var e := es[|es| - 1];
      if e.op.Set? && e.op.key == k then Some(Store(e.op.value, e.op.ttl, e.at)) else LastStore(es[..|es| - 1], k)
  }

  /** The store is without a limit, or its limit has not passed at this reading. */
  predicate InTime<V>(st: Store<V>, reading: int) {
    st.ttl <= 0 || reading <= st.at + st.ttl
  }

  /** Right after a store: found for as long as its ttl says, for ever if the ttl is not positive, and no longer. */
  lemma StoredForItsTime<K, V>(s: seq<Item<K, V>>, capacity: nat, k: K, v: V, ttl: int, t0: int, now: int)
    requires capacity >= 1
    ensures Lookup(Step(s, capacity, Event(Set(k, v, ttl), t0)), k, now)
         == if ttl <= 0 || now <= t0 + ttl then Some(v) else None
  {
    var t := Step(s, capacity, Event(Set(k, v, ttl), t0));
    assert t[0] == Item(k, v, ExpiryFor(ttl, t0));
  }

  ghost predicate Dated<K, V>(s: seq<Item<K, V>>, es: seq<Event<K, V>>) {
    forall x :: x in s ==>
      LastStore(es, x.key).Some?
      && var st := LastStore(es, x.key).value; x.value == st.value && x.expiry == ExpiryFor(st.ttl, st.at)
  }

  /** A step brings in no item but the one it stores, with its ttl. */
  lemma StepItems<K, V>(s: seq<Item<K, V>>, capacity: nat, e: Event<K, V>)
    ensures forall x :: x in Step(s, capacity, e) ==>
              if e.op.Set? && x.key == e.op.key then x == Item(e.op.key, e.op.value, ExpiryFor(e.op.ttl, e.at)) else x in s
  {
    match e.op
    case Set(k, v, ttl) => KeepMembers(s, (x: Item<K, V>) => x.key != k);
    case Get(k) => KeepMembers(s, (x: Item<K, V>) => x.key != k);
    case Delete(k) => KeepMembers(s, (x: Item<K, V>) => x.key != k);
    case Clear =>
    case Evict(clock) => EvictMembers(s, clock, 0);
  }

  /** Every item of a run from empty has the value and the expiry of the last store of its key. */
  lemma {:induction false} ItemsAreDated<K, V>(capacity: nat, es: seq<Event<K, V>>)
    ensures Dated(Run([], capacity, es), es)
  {
    if es != [] {
      hide Step, ExpiryFor;
      var n := |es| - 1;
      var before := Run([], capacity, es[..n]);
      ItemsAreDated(capacity, es[..n]);
      assert es == es[..n] + [es[n]];
      RunConcat([], capacity, es[..n], [es[n]]);
      OneThenRest(before, capacity, es[n], []);
      assert [es[n]] + [] == [es[n]];
      StepItems(before, capacity, es[n]);
    }
  }

  /** After any run from empty, a lookup of a key that is held answers with the last value stored for it if that
      store is in time at the reading, and with nothing otherwise. */
  lemma LookupByTime<K, V>(capacity: nat, es: seq<Event<K, V>>, k: K, now: int)
    ensures var r := Lookup(Run([], capacity, es), k, now);
            if !Has(Run([], capacity, es), k) then r == None
            else LastStore(es, k).Some?
                 && var st := LastStore(es, k).value; r == if InTime(st, now) then Some(st.value) else None
  {
    ItemsAreDated(capacity, es);
    var s := Run([], capacity, es);
    if Has(s, k) {
      assert s[IndexOf(s, k)] in s;
    }
  }

  /** The event does nothing to k, and the readings a sweep makes, at most `capacity`, are in time. */
  ghost predicate Spares<K, V>(e: Event<K, V>, k: K, st: Store<V>, capacity: nat) {
    match e.op
    case Set(other, _, _) => other != k
    case Get(other) => other != k
    case Delete(other) => other != k
    case Clear => false
    case Evict(clock) => forall i: nat :: i < capacity ==> InTime(st, clock(i))
  }

  /** Recency over runs from empty, told by time: `e` stores key k or hits it, afterwards fewer than `capacity`
      distinct other keys are inserted or hit and k is left alone, and every reading, those of sweeps included, is
      within the ttl of the last store of k. Then Get returns the value of that store. */
  lemma RecencyInTime<K, V>(capacity: nat, before: seq<Event<K, V>>, e: Event<K, V>, after: seq<Event<K, V>>, now: int)
    requires capacity >= 1
    requires e.op.Set? || (e.op.Get? && Lookup(Run([], capacity, before), e.op.key, e.at).Some?)
    requires |Touched(Step(Run([], capacity, before), capacity, e), capacity, after)| < capacity
    requires LastStore(before + [e], e.op.key).Some? ==>
               var st := LastStore(before + [e], e.op.key).value;
               InTime(st, now) && forall i :: 0 <= i < |after| ==> Spares(after[i], e.op.key, st, capacity)
    ensures LastStore(before + [e], e.op.key).Some?
    ensures Lookup(Run([], capacity, before + ([e] + after)), e.op.key, now)
         == Some(LastStore(before + [e], e.op.key).value.value)
  {
    var k, start := e.op.key, Run([], capacity, before);
    var s := Step(start, capacity, e);
    TouchedKeyIsAtFront(start, capacity, e);
    RunConcat([], capacity, before, [e]);
    OneThenRest(start, capacity, e, []);
    assert [e] + [] == [e];
    ItemsAreDated(capacity, before + [e]);
    assert s[0] in s;
    var st := LastStore(before + [e], k).value;
    forall i | 0 <= i < |after| ensures LeavesAlone(after[i], s[0], capacity) {
      assert Spares(after[i], k, st, capacity);
    }
    RunKeepsWellFormed([], capacity, before);
    StepKeepsWellFormed(start, capacity, e);
    Recency(s, capacity, after, now);
    RunConcat([], capacity, before, [e] + after);
    OneThenRest(start, capacity, e, after);
  }

  lemma {:induction false} AllExpiredGo<K, V>(s: seq<Item<K, V>>, clock: nat -> int, at: nat, k: K)
    requires forall i :: 0 <= i < |s| && s[i].key == k ==> Expired(s[i].expiry, clock(at + i))
    ensures !Has(EvictFrom(s, clock, at), k)
  {
    if s != [] {
      AllExpiredGo(s[1..], clock, at + 1, k);
    }
  }

  /** A sweep all of whose readings are past the ttl of the last store of k removes k. */
  lemma SweepRemovesLate<K, V>(capacity: nat, es: seq<Event<K, V>>, k: K, clock: nat -> int, at: int)
    requires LastStore(es, k).Some?
    requires forall i: nat :: i < capacity ==> !InTime(LastStore(es, k).value, clock(i))
    ensures !Has(Step(Run([], capacity, es), capacity, Event(Evict(clock), at)), k)
  {
    var s := Run([], capacity, es);
    ItemsAreDated(capacity, es);
    RunKeepsWellFormed([], capacity, es);
    forall i | 0 <= i < |s| && s[i].key == k ensures Expired(s[i].expiry, clock(0 + i)) {
      assert s[i] in s;
    }
    AllExpiredGo(s, clock, 0, k);
  }
}
