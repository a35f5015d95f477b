/** The resolver's state, changed in place as the program does it, against the relations of DomainLearning. */
module DomainState {
  import opened Seqs
  import opened Text
  import opened DomainLearning

  lemma {:induction false} CountAppend(s: Settings, os: seq<Observation>, o: Observation, b: string)
    ensures Count(s, os + [o], b) == Count(s, os, b) + if s.baseOf(o.host) == b then 1 else 0
  {
    if os == [] {
      assert os + [o] == [o];
    } else {
      CountAppend(s, os[1..], o, b);
      assert (os + [o])[1..] == os[1..] + [o];
    }
  }

  lemma LiveAppend(os: seq<Observation>, o: Observation, cutoff: int)
    ensures Live(os + [o], cutoff) == if o.at > cutoff then Live(os, cutoff) + [o] else Live(os, cutoff)
  {
    KeepConcat(os, [o], (x: Observation) => x.at > cutoff);
  }

  /** The hosts observed with base b. */
  function HostsOf(s: Settings, os: seq<Observation>, b: string): set<string> {
    set i | 0 <= i < |os| && s.baseOf(os[i].host) == b :: os[i].host
  }

  lemma HostsAppend(s: Settings, os: seq<Observation>, o: Observation, b: string)
    ensures HostsOf(s, os + [o], b) == HostsOf(s, os, b) + if s.baseOf(o.host) == b then {o.host} else {}
  {
    var all := os + [o];
    forall h | h in HostsOf(s, os, b) ensures h in HostsOf(s, all, b) {
      var i :| 0 <= i < |os| && s.baseOf(os[i].host) == b && os[i].host == h;
      assert all[i] == os[i];
    }
    assert all[|os|] == o;
  }

  lemma TwoMembers<T>(hs: set<T>, x: T, y: T)
    requires x in hs && y in hs && x != y
    ensures |hs| > 1
  {
    assert |hs| == |hs - {x}| + 1;
    assert y in hs - {x};
  }

  /** Counting the different hosts of a base decides whether two hosts share it. */
  lemma SharedByCount(s: Settings, os: seq<Observation>, b: string)
    ensures Shared(s, os, b) <==> |HostsOf(s, os, b)| > 1
  {
    var hs := HostsOf(s, os, b);
    if Shared(s, os, b) {
      var i, j :| 0 <= i < |os| && 0 <= j < |os| && os[i].host != os[j].host
                  && s.baseOf(os[i].host) == b && s.baseOf(os[j].host) == b;
      TwoMembers(hs, os[i].host, os[j].host);
    }
    if |hs| > 1 {
      var x :| x in hs;
      var rest := hs - {x};
      assert |rest| > 0;
      var y :| y in rest;
      var i :| 0 <= i < |os| && s.baseOf(os[i].host) == b && os[i].host == x;
      var j :| 0 <= j < |os| && s.baseOf(os[j].host) == b && os[j].host == y;
      assert Shared(s, os, b);
    }
  }

  /** m holds the count of every base that occurs in os, and nothing else. */
  ghost predicate Tallies(s: Settings, os: seq<Observation>, m: map<string, nat>) {
    forall b :: (b in m <==> Count(s, os, b) > 0) && (b in m ==> m[b] == Count(s, os, b))
  }

  class DomainLearner {
    var settings: Settings
    var buf: array<Observation>
    var n: nat
    var base: string
    var wildcard: string

    ghost predicate Valid()
      reads this
    {
      n <= buf.Length && settings.minSamples > 0 && settings.window > 0
    }

    ghost function Contents(): State
      reads this, buf
      requires Valid()
    {
      State(buf[..n], base, wildcard)
    }

    /** Init: the state before anything is observed. */
    constructor (c: Config, lower: string -> string, baseOf: string -> string)
      ensures Valid() && fresh(buf)
      ensures settings == Configure(c, lower, baseOf)
      ensures Contents() == Initial(settings)
    {
      var domains := Cleaned(c.domains, lower);
      var s := Settings(domains, c.learning,
                        if c.minSamples <= 0 then 3 else c.minSamples,
                        if c.window.None? || c.window.value <= 0 then FIVE_MINUTES else c.window.value,
                        baseOf);
      var w := InferWildcardFromList(s);
      settings := s;
      buf := new Observation[0];
      n := 0;
      base := if |domains| > 0 then baseOf(domains[0]) else "";
      wildcard := if |domains| > 0 then w else "";
      new;
      assert buf[..n] == [];
    }

    static method Cleaned(raw: seq<string>, lower: string -> string) returns (r: seq<string>)
      ensures r == CleanDomains(raw, lower)
    {
      r := [];
      var i := 0;
      while i < |raw|
        invariant 0 <= i <= |raw|
        invariant r == CleanDomains(raw[..i], lower)
      {
        hide *;
        var d := lower(TrimSpace(raw[i]));
        assert raw[..i + 1] == raw[..i] + [raw[i]];
        CleanAppend(raw[..i], raw[i], lower);
        if d != "" {
          r := r + [d];
        }
        i := i + 1;
      }
      assert raw[..i] == raw;
    }

    static lemma {:induction false} CleanAppend(raw: seq<string>, next: string, lower: string -> string)
      ensures CleanDomains(raw + [next], lower)
           == CleanDomains(raw, lower) + var d := lower(TrimSpace(next)); if d != "" then [d] else []
    {
      hide TrimSpace;
      if raw == [] {
        assert raw + [next] == [next];
      } else {
        CleanAppend(raw[1..], next, lower);
        assert (raw + [next])[1..] == raw[1..] + [next];
      }
    }

    /** The first sibling found decides; every sibling would give the same answer. */
    static method InferWildcardFromList(s: Settings) returns (w: string)
      ensures w == if HasSibling(s) then "*." + s.baseOf(s.domains[0]) else ""
    {
      if |s.domains| < 2 {
        return "";
      }
      var base := s.baseOf(s.domains[0]);
      var i := 1;
      while i < |s.domains|
        invariant 1 <= i <= |s.domains|
        invariant forall k :: 0 < k < i ==> s.domains[k] == base || s.baseOf(s.domains[k]) != base
      {
        if s.domains[i] != base && s.baseOf(s.domains[i]) == base {
          return "*." + base;
        }
        i := i + 1;
      }
      return "";
    }

    /** In place while there is room, into a larger array otherwise. */
    method Append(o: Observation)
      requires Valid()
      modifies this`buf, this`n, buf
      ensures Valid() && (buf == old(buf) || fresh(buf))
      ensures buf[..n] == old(buf[..n]) + [o]
    {
      if n == buf.Length {
        var bigger := new Observation[2 * n + 1];
        forall i | 0 <= i < n {
          bigger[i] := buf[i];
        }
        buf := bigger;
      }
      buf[n] := o;
      n := n + 1;
    }

    /** The live ones are moved down, in order, over elements that have been read already. */
    method Compact(cutoff: int)
      requires Valid()
      modifies this`n, buf
      ensures Valid()
      ensures buf[..n] == Live(old(buf[..n]), cutoff)
    {
      ghost var was := buf[..n];
      ghost var kept := [];
      assert was[..0] == [] && Live([], cutoff) == [];
      var k := 0;
      var i := 0;
      while i < n
        invariant 0 <= k <= i <= n
        invariant n == old(n)
        invariant forall j :: i <= j < n ==> buf[j] == was[j]
        invariant k == |kept| && forall j :: 0 <= j < k ==> buf[j] == kept[j]
        invariant kept == Live(was[..i], cutoff)
      {
        hide Live;
        var o := buf[i];
        assert was[..i + 1] == was[..i] + [o];
        LiveAppend(was[..i], o, cutoff);
        if o.at > cutoff {
          buf[k] := o;
          k := k + 1;
          kept := kept + [o];
        }
        i := i + 1;
      }
      hide Live;
      assert was[..i] == was;
      n := k;
      assert buf[..n] == kept;
    }

    method Tally() returns (m: map<string, nat>)
      requires Valid()
      ensures Tallies(settings, buf[..n], m)
    {
      m := map[];
      var i := 0;
      while i < n
        invariant 0 <= i <= n
        invariant Tallies(settings, buf[..i], m)
      {
        var b := settings.baseOf(buf[i].host);
        ghost var before := m;
        m := m[b := (if b in m then m[b] else 0) + 1];
        TalliesAppend(settings, buf[..i], buf[i], before);
        assert buf[..i + 1] == buf[..i] + [buf[i]];
        i := i + 1;
      }
    }

    static lemma TalliesAppend(s: Settings, os: seq<Observation>, o: Observation, m: map<string, nat>)
      requires Tallies(s, os, m)
      ensures var b := s.baseOf(o.host);
              Tallies(s, os + [o], m[b := (if b in m then m[b] else 0) + 1])
    {
      forall x ensures Count(s, os + [o], x) == Count(s, os, x) + if s.baseOf(o.host) == x then 1 else 0 {
        CountAppend(s, os, o, x);
      }
    }

    /** Ranges over the tally in no particular order, keeping the first of the largest counts. */
    method TopOf(m: map<string, nat>) returns (topBase: string)
      requires exists b :: b in m && m[b] > 0
      ensures topBase in m && m[topBase] > 0
      ensures forall b :: b in m ==> m[b] <= m[topBase]
    {
      topBase := "";
      var topCount := 0;
      var unseen := m.Keys;
      while unseen != {}
        invariant unseen <= m.Keys
        invariant topCount > 0 ==> topBase in m && m[topBase] == topCount
        invariant forall b :: b in m && b !in unseen ==> m[b] <= topCount
        decreases |unseen|
      {
        var b :| b in unseen;
        if m[b] > topCount {
          topBase, topCount := b, m[b];
        }
        unseen := unseen - {b};
      }
    }

    method HostsWith(b: string) returns (distinct: set<string>)
      requires Valid()
      ensures distinct == HostsOf(settings, buf[..n], b)
    {
      distinct := {};
      var i := 0;
      while i < n
        invariant 0 <= i <= n
        invariant distinct == HostsOf(settings, buf[..i], b)
      {
        HostsAppend(settings, buf[..i], buf[i], b);
        assert buf[..i + 1] == buf[..i] + [buf[i]];
        if settings.baseOf(buf[i].host) == b {
          distinct := distinct + {buf[i].host};
        }
        i := i + 1;
      }
    }

    /** What is published from a non-empty window. */
    method Infer() returns (topBase: string, newWildcard: string)
      requires Valid() && n > 0
      ensures Inferred(settings, buf[..n], topBase, newWildcard)
    {
      var m := Tally();
      assert Count(settings, buf[..n], settings.baseOf(buf[0].host)) > 0;
      topBase := TopOf(m);
      var distinct := HostsWith(topBase);
      SharedByCount(settings, buf[..n], topBase);
      newWildcard := "";
      if |distinct| > 1 {
        newWildcard := "*." + topBase;
      }
    }

    method Observe(host: string, now: int)
      requires Valid()
      modifies this`buf, this`n, this`base, this`wildcard, buf
      ensures Valid() && (buf == old(buf) || fresh(buf))
      ensures Observed(settings, old(Contents()), host, now, Contents())
    {
      if !settings.learning || |settings.domains| > 0 || host == "" {
        return;
      }
      Append(Observation(host, now));
      Compact(now - settings.window);
      if n < settings.minSamples {
        return;
      }
      var topBase, newWildcard := Infer();
      base := topBase;
      wildcard := newWildcard;
    }
  }
}
