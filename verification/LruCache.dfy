/** The cache seen as a plain sequence of items, most recently used first. */
module LruSpec {
  import opened Options
  import opened Seqs

  /** A zero time.Time is Never; any other expiry is an instant. */
  datatype Expiry = Never | At(t: int)

  datatype Item<K, V> = Item(key: K, value: V, expiry: Expiry)

  predicate Expired(e: Expiry, now: int) {
    e.At? && now > e.t
  }

  function ExpiryFor(ttl: int, now: int): Expiry {
    if ttl > 0 then At(now + ttl) else Never
  }

  /** The position of key k, or |s| when no item has it. */
  function IndexOf<K(==), V>(s: seq<Item<K, V>>, k: K): (i: nat)
    ensures i <= |s|
    ensures i < |s| ==> s[i].key == k
  {
    if s == [] then 0 else if s[0].key == k then 0 else 1 + IndexOf(s[1..], k)
  }

  predicate Has<K(==), V>(s: seq<Item<K, V>>, k: K) {
    IndexOf(s, k) < |s|
  }

  predicate DistinctKeys<K(==), V>(s: seq<Item<K, V>>) {
    s == [] || (!Has(s[1..], s[0].key) && DistinctKeys(s[1..]))
  }

  predicate WellFormed<K(==), V>(s: seq<Item<K, V>>, capacity: nat) {
    DistinctKeys(s) && |s| <= capacity
  }

  /** Every item except those with key k. */
  function Without<K(==), V>(s: seq<Item<K, V>>, k: K): seq<Item<K, V>> {
    Keep(s, (x: Item<K, V>) => x.key != k)
  }

  /** Storing a key: it becomes the front, any older item of that key goes, and only the first
      `capacity` items survive. */
  function SetSpec<K(==), V>(s: seq<Item<K, V>>, capacity: nat, item: Item<K, V>): seq<Item<K, V>> {
    Take([item] + Without(s, item.key), capacity)
  }

  /** What a lookup answers. */
  function Lookup<K(==), V>(s: seq<Item<K, V>>, k: K, now: int): Option<V> {
    var i := IndexOf(s, k);
    if i < |s| && !Expired(s[i].expiry, now) then Some(s[i].value) else None
  }

  /** The list after a lookup: a live hit moves to the front, an expired item goes. */
  function GetSpec<K(==), V>(s: seq<Item<K, V>>, k: K, now: int): seq<Item<K, V>> {
    var i := IndexOf(s, k);
    if i == |s| then s
    else if Expired(s[i].expiry, now) then Without(s, k)
    else [s[i]] + Without(s, k)
  }

  /** The sweep visits the items front to back and reads the clock once per item: `clock(at + i)` is
      the reading made at the i-th item. */
  function EvictFrom<K, V>(s: seq<Item<K, V>>, clock: nat -> int, at: nat): (r: seq<Item<K, V>>)
    ensures |r| <= |s|
  {
    if s == [] then []
    else if Expired(s[0].expiry, clock(at)) then EvictFrom(s[1..], clock, at + 1)
    else [s[0]] + EvictFrom(s[1..], clock, at + 1)
  }

  function EvictSpec<K, V>(s: seq<Item<K, V>>, clock: nat -> int): (r: seq<Item<K, V>>)
    ensures |r| <= |s|
  {
    EvictFrom(s, clock, 0)
  }

  // ----- keys

  lemma {:induction false} HasMeaning<K, V>(s: seq<Item<K, V>>, k: K)
    ensures Has(s, k) <==> exists i :: 0 <= i < |s| && s[i].key == k
  {
    if s != [] {
      HasMeaning(s[1..], k);
      if Has(s[1..], k) {
        var i :| 0 <= i < |s[1..]| && s[1..][i].key == k;
        assert s[i + 1].key == k;
      } else {
        assert forall i :: 0 < i < |s| ==> s[i] == s[1..][i - 1];
      }
    }
  }

  lemma {:induction false} DistinctKeysMeaning<K, V>(s: seq<Item<K, V>>)
    ensures DistinctKeys(s) <==> forall i, j :: 0 <= i < j < |s| ==> s[i].key != s[j].key
  {
    if s != [] {
      var tail := s[1..];
      DistinctKeysMeaning(tail);
      HasMeaning(tail, s[0].key);
      assert forall i :: 0 <= i < |tail| ==> tail[i] == s[i + 1];
      if DistinctKeys(s) {
        forall i, j | 0 <= i < j < |s| ensures s[i].key != s[j].key {
          assert s[j] == tail[j - 1];
          assert i > 0 ==> s[i] == tail[i - 1];
        }
      }
    }
  }

  lemma {:induction false} IndexUnique<K, V>(s: seq<Item<K, V>>, i: nat)
    requires i < |s| && DistinctKeys(s)
    ensures IndexOf(s, s[i].key) == i
  {
    if i > 0 {
      IndexUnique(s[1..], i - 1);
    }
  }

  lemma {:induction false} WithoutAbsent<K, V>(s: seq<Item<K, V>>, k: K)
    requires !Has(s, k)
    ensures Without(s, k) == s
  {
    if s != [] {
      WithoutAbsent(s[1..], k);
    }
  }

  lemma {:induction false} WithoutAt<K, V>(s: seq<Item<K, V>>, i: nat)
    requires i < |s| && DistinctKeys(s)
    ensures Without(s, s[i].key) == s[..i] + s[i + 1..]
  {
    var tail := s[1..];
    if i == 0 {
      WithoutAbsent(tail, s[0].key);
    } else {
      IndexUnique(s, i);
      WithoutAt(tail, i - 1);
      assert s[..i] + s[i + 1..] == [s[0]] + (tail[..i - 1] + tail[i..]);
    }
  }

  lemma WithoutLength<K, V>(s: seq<Item<K, V>>, k: K)
    requires DistinctKeys(s)
    ensures |Without(s, k)| == |s| - (if Has(s, k) then 1 else 0)
  {
    if Has(s, k) {
      WithoutAt(s, IndexOf(s, k));
    } else {
      WithoutAbsent(s, k);
    }
  }

  lemma {:induction false} WithoutGone<K, V>(s: seq<Item<K, V>>, k: K)
    ensures !Has(Without(s, k), k)
  {
    if s != [] {
      WithoutGone(s[1..], k);
    }
  }

  lemma {:induction false} KeepAbsent<K, V>(s: seq<Item<K, V>>, p: Item<K, V> -> bool, k: K)
    requires !Has(s, k)
    ensures !Has(Keep(s, p), k)
  {
    if s != [] {
      KeepAbsent(s[1..], p, k);
    }
  }

  lemma {:induction false} TakeAbsent<K, V>(s: seq<Item<K, V>>, n: nat, k: K)
    requires !Has(s, k)
    ensures !Has(Take(s, n), k)
  {
    if s != [] && n > 0 {
      TakeAbsent(s[1..], n - 1, k);
      assert Take(s, n)[1..] == Take(s[1..], n - 1);
    }
  }

  lemma {:induction false} EvictAbsent<K, V>(s: seq<Item<K, V>>, clock: nat -> int, at: nat, k: K)
    requires !Has(s, k)
    ensures !Has(EvictFrom(s, clock, at), k)
  {
    if s != [] {
      EvictAbsent(s[1..], clock, at + 1, k);
    }
  }

  // ----- the operations keep keys distinct and the size bounded

  lemma {:induction false} KeepDistinctKeys<K, V>(s: seq<Item<K, V>>, p: Item<K, V> -> bool)
    requires DistinctKeys(s)
    ensures DistinctKeys(Keep(s, p))
  {
    if s != [] {
      KeepDistinctKeys(s[1..], p);
      KeepAbsent(s[1..], p, s[0].key);
    }
  }

  lemma {:induction false} TakeDistinctKeys<K, V>(s: seq<Item<K, V>>, n: nat)
    requires DistinctKeys(s)
    ensures DistinctKeys(Take(s, n))
  {
    if s != [] && n > 0 {
      TakeDistinctKeys(s[1..], n - 1);
      TakeAbsent(s[1..], n - 1, s[0].key);
      assert Take(s, n)[1..] == Take(s[1..], n - 1);
    }
  }

  lemma {:induction false} EvictDistinctKeys<K, V>(s: seq<Item<K, V>>, clock: nat -> int, at: nat)
    requires DistinctKeys(s)
    ensures DistinctKeys(EvictFrom(s, clock, at))
  {
    if s != [] {
      EvictDistinctKeys(s[1..], clock, at + 1);
      EvictAbsent(s[1..], clock, at + 1, s[0].key);
    }
  }

  lemma ConsDistinctKeys<K, V>(x: Item<K, V>, s: seq<Item<K, V>>)
    requires DistinctKeys(s)
    ensures DistinctKeys([x] + Without(s, x.key))
  {
    WithoutGone(s, x.key);
    KeepDistinctKeys(s, (y: Item<K, V>) => y.key != x.key);
    assert ([x] + Without(s, x.key))[1..] == Without(s, x.key);
  }

  lemma SetKeepsWellFormed<K, V>(s: seq<Item<K, V>>, capacity: nat, item: Item<K, V>)
    requires WellFormed(s, capacity)
    ensures WellFormed(SetSpec(s, capacity, item), capacity)
  {
    ConsDistinctKeys(item, s);
    TakeDistinctKeys([item] + Without(s, item.key), capacity);
  }

  lemma GetKeepsWellFormed<K, V>(s: seq<Item<K, V>>, capacity: nat, k: K, now: int)
    requires WellFormed(s, capacity)
    ensures WellFormed(GetSpec(s, k, now), capacity)
  {
    var i := IndexOf(s, k);
    if i < |s| {
      ConsDistinctKeys(s[i], s);
      KeepDistinctKeys(s, (x: Item<K, V>) => x.key != k);
      WithoutLength(s, k);
    }
  }

  /** Updating a key that is present: nothing is evicted. */
  lemma ReplaceMeaning<K, V>(s: seq<Item<K, V>>, capacity: nat, i: nat, item: Item<K, V>)
    requires WellFormed(s, capacity) && i < |s| && s[i].key == item.key
    ensures var u := s[i := item];
            SetSpec(s, capacity, item) == [u[i]] + (u[..i] + u[i + 1..])
  {
    WithoutAt(s, i);
  }

  /** Looking up the key at place i. */
  lemma HitMeaning<K, V>(s: seq<Item<K, V>>, i: nat, now: int)
    requires DistinctKeys(s) && i < |s|
    ensures var rest := s[..i] + s[i + 1..];
            if Expired(s[i].expiry, now) then Lookup(s, s[i].key, now) == None && GetSpec(s, s[i].key, now) == rest
            else Lookup(s, s[i].key, now) == Some(s[i].value) && GetSpec(s, s[i].key, now) == [s[i]] + rest
  {
    IndexUnique(s, i);
    WithoutAt(s, i);
  }

  // ----- the sweep

  predicate NonDecreasing(clock: nat -> int, from: nat, to: nat) {
    forall i, j :: from <= i <= j <= to ==> clock(i) <= clock(j)
  }

  /** The sweep keeps order, removes everything already expired at its first clock reading and nothing
      still live at its last one. */
  lemma {:induction false} EvictMeaning<K, V>(s: seq<Item<K, V>>, clock: nat -> int, at: nat)
    requires NonDecreasing(clock, at, at + |s|)
    ensures Subsequence(EvictFrom(s, clock, at), s)
    ensures forall x :: x in EvictFrom(s, clock, at) ==> x in s && !Expired(x.expiry, clock(at))
    ensures forall x :: x in s && !Expired(x.expiry, clock(at + |s|)) ==> x in EvictFrom(s, clock, at)
  {
    if s != [] {
      EvictMeaning(s[1..], clock, at + 1);
      Uncons(s);
      var rest := EvictFrom(s[1..], clock, at + 1);
      assert clock(at) <= clock(at + 1) && clock(at) <= clock(at + |s|);
      if Expired(s[0].expiry, clock(at)) {
        SubsequenceSkip(rest, s[0], s[1..]);
      } else {
        SubsequenceCons(s[0], rest, s[1..]);
      }
    }
  }
}
