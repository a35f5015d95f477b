/** The cache as the program keeps it: a map from keys to nodes and a doubly linked list between two
    sentinels, relinked in place. */
module Cache {
  import opened Seqs
  import opened Options
  import opened LruSpec

  /** One turn of the sweep: `kept` is behind the cursor and `rest` still to be read. */
  lemma SweepTurn<K, V>(kept: seq<Item<K, V>>, rest: seq<Item<K, V>>, clock: nat -> int, at: nat)
    requires rest != []
    ensures var kept' := if Expired(rest[0].expiry, clock(at)) then kept else kept + [rest[0]];
            kept' + EvictFrom(rest[1..], clock, at + 1) == kept + EvictFrom(rest, clock, at)
  {
    Regroup(kept, [rest[0]], EvictFrom(rest[1..], clock, at + 1));
  }

  lemma CursorSplit<T>(all: seq<T>, kept: seq<T>, rest: seq<T>)
    requires all == kept + rest && rest != []
    ensures all[|kept|] == rest[0]
    ensures all[..|kept|] + all[|kept| + 1..] == kept + rest[1..]
    ensures kept + [rest[0]] + rest[1..] == all
  {
  }

  /** A map in which every node is stored under its own key has as many keys as nodes. */
  lemma {:induction false} NodesAreKeys<K(0), V(0)>(m: map<K, Node<K, V>>, nodes: set<Node<K, V>>)
    requires forall k :: k in m ==> m[k] in nodes && m[k].key == k
    requires forall n :: n in nodes ==> n.key in m && m[n.key] == n
    ensures |m| == |nodes|
  {
    if nodes == {} {
      assert m == map[];
    } else {
      var n :| n in nodes;
      var m' := m - {n.key};
      assert m'.Keys == m.Keys - {n.key};
      NodesAreKeys(m', nodes - {n});
    }
  }

  class Node<K(0), V(0)> {
    var key: K
    var value: V
    var expiry: Expiry
    var prev: Node?<K, V>
    var next: Node?<K, V>

    constructor (key: K, value: V, expiry: Expiry)
      ensures this.key == key && this.value == value && this.expiry == expiry
    {
      this.key, this.value, this.expiry := key, value, expiry;
      prev, next := null, null;
    }

    constructor Sentinel() {
      prev, next := null, null;
    }
  }

  class Cache<K(==,0), V(0)> {
    const capacity: int
    const ttl: int
    var items: map<K, Node<K, V>>
    const head: Node<K, V>
    const tail: Node<K, V>
    /** The nodes from head to tail, both sentinels included. */
    ghost var chain: seq<Node<K, V>>

    /** Head to tail is a chain of distinct nodes in which prev and next are inverse. */
    ghost predicate Linked()
      reads this, chain
    {
      && |chain| >= 2
      && chain[0] == head
      && chain[|chain| - 1] == tail
      && (forall i, j :: 0 <= i < j < |chain| ==> chain[i] != chain[j])
      && (forall i :: 0 <= i < |chain| - 1 ==> chain[i].next == chain[i + 1])
      && (forall i :: 0 < i < |chain| ==> chain[i].prev == chain[i - 1])
    }

    /** The map leads to exactly the nodes between the sentinels, each under its own key. */
    ghost predicate Indexed()
      reads this, chain
    {
      && (forall n :: n in chain && n != head && n != tail ==> n.key in items && items[n.key] == n)
      && (forall k :: k in items ==> items[k] in chain && items[k] != head && items[k] != tail && items[k].key == k)
    }

    ghost predicate Valid()
      reads this, chain
    {
      Linked() && Indexed() && capacity >= 1 && |chain| - 2 <= capacity
    }

    /** The items from most to least recently used. */
    ghost function Contents(): (s: seq<Item<K, V>>)
      requires |chain| >= 2
      reads this, chain
      ensures |s| == |chain| - 2
      ensures forall i :: 0 <= i < |s| ==> s[i] == Item(chain[i + 1].key, chain[i + 1].value, chain[i + 1].expiry)
    {
      seq(|chain| - 2, i requires 0 <= i < |chain| - 2 reads this, chain =>
        Item(chain[i + 1].key, chain[i + 1].value, chain[i + 1].expiry))
    }

    ghost function NodeAt(i: int): Node<K, V>
      requires 0 <= i < |chain|
      reads `chain
    {
      chain[i]
    }

    constructor (capacity: int, ttl: int)
      ensures Valid() && fresh(chain)
      ensures Contents() == []
      ensures this.capacity == (if capacity < 1 then 1 else capacity) && this.ttl == ttl
    {
      var h := new Node<K, V>.Sentinel();
      var t := new Node<K, V>.Sentinel();
      h.next := t;
      t.prev := h;
      this.capacity := if capacity < 1 then 1 else capacity;
      this.ttl := ttl;
      items := map[];
      head, tail := h, t;
      chain := [h, t];
    }

    lemma ContentsDistinct()
      requires Linked() && Indexed()
      ensures DistinctKeys(Contents())
    {
      var s := Contents();
      forall i, j | 0 <= i < j < |s| ensures s[i].key != s[j].key {
        assert items[s[i].key] == chain[i + 1] && items[s[j].key] == chain[j + 1];
      }
      DistinctKeysMeaning(s);
    }

    lemma ContentsCount()
      requires Linked() && Indexed()
      ensures |items| == |Contents()|
    {
      var nodes := chain[1..|chain| - 1];
      DistinctCount(nodes);
      NodesAreKeys(items, Elements(nodes));
    }

    /** The node of key k and its place in the chain. */
    lemma Locate(k: K) returns (i: nat)
      requires Linked() && Indexed() && k in items
      ensures 0 < i < |chain| - 1 && chain[i] == items[k] && chain[i].key == k
      ensures IndexOf(Contents(), k) == i - 1
    {
      i :| 0 <= i < |chain| && chain[i] == items[k];
      ContentsDistinct();
      IndexUnique(Contents(), i - 1);
    }

    lemma Absent(k: K)
      requires Linked() && Indexed() && k !in items
      ensures !Has(Contents(), k)
    {
      HasMeaning(Contents(), k);
    }

    /** Unlinks the i-th node of the chain; its own pointers are left as they were. */
    method RemoveNode(n: Node<K, V>, ghost i: nat)
      requires Linked() && 0 < i < |chain| - 1 && chain[i] == n
      modifies `chain, NodeAt(i - 1)`next, NodeAt(i + 1)`prev
      ensures Linked() && chain == old(chain[..i] + chain[i + 1..])
      ensures forall m :: m in chain <==> m in old(chain) && m != n
      ensures Contents() == old(Contents()[..i - 1] + Contents()[i..])
    {
      assert n.prev == chain[i - 1] && n.next == chain[i + 1];
      n.prev.next := n.next;
      n.next.prev := n.prev;
      chain := chain[..i] + chain[i + 1..];
    }

    /** Links a node that is not in the chain right after the head sentinel. */
    method PushFront(n: Node<K, V>)
      requires Linked() && n !in chain
      modifies `chain, n`prev, n`next, head`next, NodeAt(1)`prev
      ensures Linked() && chain == old([chain[0], n] + chain[1..])
      ensures forall m :: m in chain <==> m in old(chain) || m == n
      ensures Contents() == [Item(n.key, n.value, n.expiry)] + old(Contents())
    {
      assert head == chain[0] && head.next == chain[1] && chain[1].prev == head;
      n.prev := head;
      n.next := head.next;
      head.next.prev := n;
      head.next := n;
      chain := [chain[0], n] + chain[1..];
    }

    method MoveToFront(n: Node<K, V>, ghost i: nat)
      requires Linked() && 0 < i < |chain| - 1 && chain[i] == n
      modifies `chain, n`prev, n`next, head`next, NodeAt(1)`prev, NodeAt(i - 1)`next, NodeAt(i + 1)`prev
      ensures Linked() && |chain| == old(|chain|)
      ensures forall m :: m in chain <==> m in old(chain)
      ensures Contents() == [Item(n.key, n.value, n.expiry)] + old(Contents()[..i - 1] + Contents()[i..])
    {
      RemoveNode(n, i);
      PushFront(n);
    }

    /** Unlinks a node and deletes its key from the map. */
    method Unlink(n: Node<K, V>, ghost i: nat)
      requires Linked() && Indexed() && 0 < i < |chain| - 1 && chain[i] == n
      modifies `items, `chain, NodeAt(i - 1)`next, NodeAt(i + 1)`prev
      ensures Linked() && Indexed() && chain == old(chain[..i] + chain[i + 1..])
      ensures forall m :: m in chain <==> m in old(chain) && m != n
      ensures Contents() == old(Contents()[..i - 1] + Contents()[i..])
    {
      RemoveNode(n, i);
      items := items - {n.key};
    }

    /** Drops the node before the tail sentinel, if there is one. */
    method RemoveLRU()
      requires Linked() && Indexed()
      modifies `items, `chain, NodeAt(if |chain| > 2 then |chain| - 3 else 0)`next, tail`prev
      ensures Linked() && Indexed()
      ensures forall m :: m in chain ==> m in old(chain)
      ensures Contents() == old(if |chain| > 2 then Contents()[..|Contents()| - 1] else [])
    {
      var lru := tail.prev;
      assert lru == chain[|chain| - 2];
      if lru == head {
        assert |chain| == 2;
        return;
      }
      Unlink(lru, |chain| - 2);
    }

    /** Stores a new entry in a linked node. */
    method Overwrite(n: Node<K, V>, value: V, expiresAt: Expiry, ghost i: nat)
      requires Linked() && Indexed() && 0 < i < |chain| - 1 && chain[i] == n
      modifies n`value, n`expiry
      ensures Linked() && Indexed()
      ensures Contents() == old(Contents())[i - 1 := Item(n.key, value, expiresAt)]
    {
      n.value, n.expiry := value, expiresAt;
    }

    /** The update branch of SetTTL. */
    method Replace(key: K, value: V, expiresAt: Expiry)
      requires Valid() && key in items
      modifies `chain, chain
      ensures Valid() && forall m :: m in chain ==> m in old(chain)
      ensures Contents() == SetSpec(old(Contents()), capacity, Item(key, value, expiresAt))
    {
      var n := items[key];
      ghost var i := Locate(key);
      ContentsDistinct();
      ghost var s := Contents();
      ReplaceMeaning(s, capacity, i - 1, Item(key, value, expiresAt));
      Overwrite(n, value, expiresAt, i);
      MoveToFront(n, i);
    }

    /** The insertion branch of SetTTL, with its eviction. */
    method Insert(key: K, value: V, expiresAt: Expiry)
      requires Valid() && key !in items
      modifies this, chain
      ensures Valid() && forall m :: m in chain ==> m in old(chain) || fresh(m)
      ensures Contents() == SetSpec(old(Contents()), capacity, Item(key, value, expiresAt))
    {
      ghost var s := Contents();
      Absent(key);
      WithoutAbsent(s, key);
      var n := new Node(key, value, expiresAt);
      assert Contents() == s;
      AddFresh(n);
      assert |chain| > 2 && NodeAt(|chain| - 3) in chain && tail in old(chain);
      Trim();
    }

    /** Evicts one item if there are more than `capacity`. */
    method Trim()
      requires Linked() && Indexed() && capacity >= 1 && 2 < |chain| <= capacity + 3
      modifies `items, `chain, NodeAt(|chain| - 3)`next, tail`prev
      ensures Linked() && Indexed()
      ensures forall m :: m in chain ==> m in old(chain)
      ensures Contents() == Take(old(Contents()), capacity)
    {
      ContentsCount();
      if |items| > capacity {
        RemoveLRU();
      }
    }

    /** Enters a new node in the map and at the front of the list. */
    method AddFresh(n: Node<K, V>)
      requires Linked() && Indexed() && n.key !in items && n !in chain
      modifies `items, `chain, n`prev, n`next, head`next, NodeAt(1)`prev
      ensures Linked() && Indexed()
      ensures forall m :: m in chain <==> m in old(chain) || m == n
      ensures Contents() == [Item(n.key, n.value, n.expiry)] + old(Contents())
    {
      items := items[n.key := n];
      PushFront(n);
    }

    /** Adds or replaces a value with its own time to live; `now` is the clock reading. */
    method SetTTL(key: K, value: V, ttl: int, now: int)
      requires Valid()
      modifies this, chain
      ensures Valid() && forall m :: m in chain ==> m in old(chain) || fresh(m)
      ensures Contents() == SetSpec(old(Contents()), capacity, Item(key, value, ExpiryFor(ttl, now)))
    {
      var expiresAt := Never;
      if ttl > 0 {
        expiresAt := At(now + ttl);
      }
      if key in items {
        Replace(key, value, expiresAt);
        return;
      }
      Insert(key, value, expiresAt);
    }

    method Set(key: K, value: V, now: int)
      requires Valid()
      modifies this, chain
      ensures Valid() && forall m :: m in chain ==> m in old(chain) || fresh(m)
      ensures Contents() == SetSpec(old(Contents()), capacity, Item(key, value, ExpiryFor(ttl, now)))
    {
      SetTTL(key, value, ttl, now);
    }

    /** None stands for the zero value and false. */
    method Get(key: K, now: int) returns (r: Option<V>)
      requires Valid()
      modifies this, chain
      ensures Valid() && forall m :: m in chain ==> m in old(chain)
      ensures r == Lookup(old(Contents()), key, now)
      ensures Contents() == GetSpec(old(Contents()), key, now)
    {
      if key !in items {
        Absent(key);
        return None;
      }
      var n := items[key];
      ghost var i := Locate(key);
      ContentsDistinct();
      HitMeaning(Contents(), i - 1, now);
      if Expired(n.expiry, now) {
        Unlink(n, i);
        return None;
      }
      MoveToFront(n, i);
      return Some(n.value);
    }

    method Delete(key: K)
      requires Valid()
      modifies this, chain
      ensures Valid() && forall m :: m in chain ==> m in old(chain)
      ensures Contents() == Without(old(Contents()), key)
    {
      if key in items {
        var n := items[key];
        ghost var i := Locate(key);
        ContentsDistinct();
        WithoutAt(Contents(), i - 1);
        Unlink(n, i);
      } else {
        Absent(key);
        WithoutAbsent(Contents(), key);
      }
    }

    method Clear()
      requires Valid()
      modifies this, head, tail
      ensures Valid() && chain == [head, tail]
      ensures Contents() == []
    {
      items := map[];
      head.next := tail;
      tail.prev := head;
      chain := [head, tail];
    }

    method Len() returns (n: nat)
      requires Valid()
      ensures n == |Contents()|
    {
      ContentsCount();
      n := |items|;
    }

    /** The body of the sweep's loop: drops the node under the cursor if it has expired. */
    method Visit(cur: Node<K, V>, clock: nat -> int, visited: nat, ghost kept: seq<Item<K, V>>, ghost rest: seq<Item<K, V>>)
      returns (ghost kept': seq<Item<K, V>>)
      requires Linked() && Indexed() && Contents() == kept + rest && rest != [] && chain[|kept| + 1] == cur
      modifies `items, `chain, NodeAt(|kept|)`next, NodeAt(|kept| + 2)`prev
      ensures Linked() && Indexed() && forall m :: m in chain ==> m in old(chain)
      ensures Contents() == kept' + rest[1..] && |Contents()| <= |kept| + |rest|
      ensures chain[|kept'| + 1] == old(chain[|kept| + 2])
      ensures kept' + EvictFrom(rest[1..], clock, visited + 1) == kept + EvictFrom(rest, clock, visited)
    {
      SweepTurn(kept, rest, clock, visited);
      CursorSplit(Contents(), kept, rest);
      if Expired(cur.expiry, clock(visited)) {
        kept' := kept;
        Unlink(cur, |kept| + 1);
      } else {
        kept' := kept + [rest[0]];
      }
    }

    /** Walks the list with a cursor and drops what has expired; `clock(i)` is the reading at the i-th node. */
    method Evict(clock: nat -> int)
      requires Valid()
      modifies this, chain
      ensures Valid() && forall m :: m in chain ==> m in old(chain)
      ensures Contents() == EvictSpec(old(Contents()), clock)
    {
      var cur := head.next;
      var visited := 0;
      ghost var kept, rest := [], Contents();
      while cur != tail
        invariant Linked() && Indexed() && |chain| <= old(|chain|)
        invariant forall m :: m in chain ==> m in old(chain)
        invariant Contents() == kept + rest && chain[|kept| + 1] == cur
        invariant kept + EvictFrom(rest, clock, visited) == EvictSpec(old(Contents()), clock)
        decreases |rest|
      {
        var next := cur.next;
        assert next == chain[|kept| + 2] && NodeAt(|kept|) in chain && NodeAt(|kept| + 2) in chain;
        kept := Visit(cur, clock, visited, kept, rest);
        rest := rest[1..];
        cur := next;
        visited := visited + 1;
      }
    }
  }
}
