/** What is published, told by the events alone: which of them count, the base most of them have, and the wildcard. */
module DomainEvents {
  import opened Options
  import opened Seqs
  import opened Text
  import opened DomainLearning
  import opened DomainState

  /** The events that name a host and come after the cutoff. */
  ghost function Recent(es: seq<Event>, cutoff: int): set<int> {
    set i | 0 <= i < |es| && es[i].host != "" && es[i].at > cutoff
  }

  /** Those of them whose host has base b. */
  ghost function WithBase(s: Settings, es: seq<Event>, cutoff: int, b: string): set<int> {
    set i | i in Recent(es, cutoff) && s.baseOf(es[i].host) == b
  }

  /** Two recent events name different hosts of base b. */
  ghost predicate TwoHosts(s: Settings, es: seq<Event>, cutoff: int, b: string) {
    exists i, j :: i in WithBase(s, es, cutoff, b) && j in WithBase(s, es, cutoff, b) && es[i].host != es[j].host
  }

  predicate Learns(s: Settings) {
    s.learning && s.domains == []
  }

  // ----- the window, event by event

  ghost function Window(s: Settings, es: seq<Event>, cutoff: int): seq<Observation> {
    Live(History(s, es), cutoff)
  }

  lemma WindowNext(s: Settings, es: seq<Event>, cutoff: int)
    requires es != [] && Learns(s)
    ensures var e, before := es[|es| - 1], Window(s, es[..|es| - 1], cutoff);
            Window(s, es, cutoff) ==
            if e.host != "" && e.at > cutoff then before + [Observation(e.host, e.at)] else before
  {
    hide Live;
    var e := es[|es| - 1];
    if e.host != "" {
      LiveAppend(History(s, es[..|es| - 1]), Observation(e.host, e.at), cutoff);
    } else {
      assert History(s, es[..|es| - 1]) + [] == History(s, es[..|es| - 1]);
    }
  }

  lemma RecentNext(es: seq<Event>, cutoff: int)
    requires es != []
    ensures var n := |es| - 1;
            var added := if es[n].host != "" && es[n].at > cutoff then {n} else {};
            && Recent(es, cutoff) == Recent(es[..n], cutoff) + added
            && |Recent(es, cutoff)| == |Recent(es[..n], cutoff)| + |added|
  {
    var n := |es| - 1;
    assert n !in Recent(es[..n], cutoff);
    assert forall i :: 0 <= i < n ==> es[..n][i] == es[i];
  }

  lemma WithBaseNext(s: Settings, es: seq<Event>, cutoff: int, b: string)
    requires es != []
    ensures var n := |es| - 1;
            var added := if es[n].host != "" && es[n].at > cutoff && s.baseOf(es[n].host) == b then {n} else {};
            && WithBase(s, es, cutoff, b) == WithBase(s, es[..n], cutoff, b) + added
            && |WithBase(s, es, cutoff, b)| == |WithBase(s, es[..n], cutoff, b)| + |added|
  {
    var n := |es| - 1;
    assert n !in WithBase(s, es[..n], cutoff, b);
    assert forall i :: 0 <= i < n ==> es[..n][i] == es[i];
  }

  /** The window holds an observation for each recent event, and counts each base as they do. */
  lemma {:induction false} WindowCounts(s: Settings, es: seq<Event>, cutoff: int, b: string)
    requires Learns(s)
    ensures |Window(s, es, cutoff)| == |Recent(es, cutoff)|
    ensures Count(s, Window(s, es, cutoff), b) == |WithBase(s, es, cutoff, b)|
  {
    if es == [] {
      assert Recent(es, cutoff) == {} && WithBase(s, es, cutoff, b) == {};
    } else {
      hide Window, Recent, WithBase, Count;
      var n := |es| - 1;
      WindowCounts(s, es[..n], cutoff, b);
      WindowNext(s, es, cutoff);
      RecentNext(es, cutoff);
      WithBaseNext(s, es, cutoff, b);
      CountAppend(s, Window(s, es[..n], cutoff), Observation(es[n].host, es[n].at), b);
    }
  }

  /** The hosts of base b in the window are those of the recent events. */
  ghost function HostsOfEvents(s: Settings, es: seq<Event>, cutoff: int, b: string): set<string> {
    set i | i in WithBase(s, es, cutoff, b) :: es[i].host
  }

  lemma OldHost(s: Settings, es: seq<Event>, cutoff: int, b: string, h: string)
    requires es != [] && h in HostsOfEvents(s, es[..|es| - 1], cutoff, b)
    ensures h in HostsOfEvents(s, es, cutoff, b)
  {
    var n := |es| - 1;
    WithBaseNext(s, es, cutoff, b);
    WithBaseInRange(s, es[..n], cutoff, b);
    hide WithBase;
    var i :| i in WithBase(s, es[..n], cutoff, b) && es[..n][i].host == h;
    assert i in WithBase(s, es, cutoff, b) && es[i].host == h;
  }

  lemma NewHost(s: Settings, es: seq<Event>, cutoff: int, b: string, h: string)
    requires es != [] && h in HostsOfEvents(s, es, cutoff, b)
    ensures var e := es[|es| - 1];
            h in HostsOfEvents(s, es[..|es| - 1], cutoff, b)
            || (h == e.host && e.host != "" && e.at > cutoff && s.baseOf(e.host) == b)
  {
    var n := |es| - 1;
    WithBaseInRange(s, es[..n], cutoff, b);
    WithBaseNext(s, es, cutoff, b);
    hide WithBase;
    var i :| i in WithBase(s, es, cutoff, b) && es[i].host == h;
    if i in WithBase(s, es[..n], cutoff, b) {
      assert es[..n][i].host == h;
    }
  }

  lemma LastHost(s: Settings, es: seq<Event>, cutoff: int, b: string)
    requires es != []
    requires var e := es[|es| - 1]; e.host != "" && e.at > cutoff && s.baseOf(e.host) == b
    ensures es[|es| - 1].host in HostsOfEvents(s, es, cutoff, b)
  {
    assert |es| - 1 in WithBase(s, es, cutoff, b);
  }

  lemma HostsOfEventsNext(s: Settings, es: seq<Event>, cutoff: int, b: string)
    requires es != []
    ensures var e := es[|es| - 1];
            HostsOfEvents(s, es, cutoff, b) == HostsOfEvents(s, es[..|es| - 1], cutoff, b) +
            if e.host != "" && e.at > cutoff && s.baseOf(e.host) == b then {e.host} else {}
  {
    hide HostsOfEvents;
    var e, before, after := es[|es| - 1], HostsOfEvents(s, es[..|es| - 1], cutoff, b), HostsOfEvents(s, es, cutoff, b);
    forall h | h in before ensures h in after {
      OldHost(s, es, cutoff, b, h);
    }
    forall h | h in after
      ensures h in before || (h == e.host && e.host != "" && e.at > cutoff && s.baseOf(e.host) == b)
    {
      NewHost(s, es, cutoff, b, h);
    }
    if e.host != "" && e.at > cutoff && s.baseOf(e.host) == b {
      LastHost(s, es, cutoff, b);
    }
  }

  lemma WithBaseInRange(s: Settings, es: seq<Event>, cutoff: int, b: string)
    ensures forall i :: i in WithBase(s, es, cutoff, b) ==> 0 <= i < |es|
  {
  }

  lemma {:induction false} SameHosts(s: Settings, es: seq<Event>, cutoff: int, b: string)
    requires Learns(s)
    ensures HostsOf(s, Window(s, es, cutoff), b) == HostsOfEvents(s, es, cutoff, b)
  {
    if es != [] {
      hide Window, HostsOf, HostsOfEvents;
      var n := |es| - 1;
      SameHosts(s, es[..n], cutoff, b);
      WindowNext(s, es, cutoff);
      HostsAppend(s, Window(s, es[..n], cutoff), Observation(es[n].host, es[n].at), b);
      HostsOfEventsNext(s, es, cutoff, b);
    }
  }

  lemma TwoHostsByCount(s: Settings, es: seq<Event>, cutoff: int, b: string)
    ensures TwoHosts(s, es, cutoff, b) <==> |HostsOfEvents(s, es, cutoff, b)| > 1
  {
    hide WithBase;
    WithBaseInRange(s, es, cutoff, b);
    var hs := HostsOfEvents(s, es, cutoff, b);
    if TwoHosts(s, es, cutoff, b) {
      var i, j :| i in WithBase(s, es, cutoff, b) && j in WithBase(s, es, cutoff, b) && es[i].host != es[j].host;
      TwoMembers(hs, es[i].host, es[j].host);
    }
    if |hs| > 1 {
      var x :| x in hs;
      assert |hs - {x}| > 0;
      var y :| y in hs - {x};
    }
  }

  lemma SharedIsTwoHosts(s: Settings, es: seq<Event>, cutoff: int, b: string)
    requires Learns(s)
    ensures Shared(s, Window(s, es, cutoff), b) <==> TwoHosts(s, es, cutoff, b)
  {
    hide *;
    SameHosts(s, es, cutoff, b);
    SharedByCount(s, Window(s, es, cutoff), b);
    TwoHostsByCount(s, es, cutoff, b);
  }

  /** What may be published after events es. */
  ghost predicate Published(s: Settings, es: seq<Event>, cutoff: int, base: string, wildcard: string) {
    && WithBase(s, es, cutoff, base) != {}
    && (forall b :: |WithBase(s, es, cutoff, b)| <= |WithBase(s, es, cutoff, base)|)
    && wildcard == if TwoHosts(s, es, cutoff, base) then "*." + base else ""
  }

  lemma InferredIsPublished(s: Settings, es: seq<Event>, cutoff: int, base: string, wildcard: string)
    requires Learns(s) && Inferred(s, Window(s, es, cutoff), base, wildcard)
    ensures Published(s, es, cutoff, base, wildcard)
  {
    hide Window, WithBase, TwoHosts, Count, Shared;
    SharedIsTwoHosts(s, es, cutoff, base);
    WindowCounts(s, es, cutoff, base);
    forall b ensures |WithBase(s, es, cutoff, b)| <= |WithBase(s, es, cutoff, base)| {
      WindowCounts(s, es, cutoff, b);
    }
  }

  /** After an event that names a host, while learning with no domains: if at least minSamples events have come
      since the window opened, the base published is one that no other outnumbers among them, and the wildcard
      covers it if and only if they name two different hosts of it; otherwise what was published stays. */
  lemma PublishedMeaning(s: Settings, states: seq<State>, es: seq<Event>, n: nat)
    requires IsRun(s, states, es) && TimeOrdered(es) && 0 < n <= |es| && s.window > 0
    requires Learns(s) && es[n - 1].host != ""
    ensures var cutoff := es[n - 1].at - s.window;
            if |Recent(es[..n], cutoff)| < s.minSamples
            then states[n].base == states[n - 1].base && states[n].wildcard == states[n - 1].wildcard
            else Published(s, es[..n], cutoff, states[n].base, states[n].wildcard)
  {
    assert |states| == |es| + 1;
    hide IsRun, TimeOrdered, Live, History, Inferred, Recent, Published;
    var cutoff := es[n - 1].at - s.window;
    PublishedIsInferred(s, states, es, n);
    WindowCounts(s, es[..n], cutoff, "");
    if |Window(s, es[..n], cutoff)| >= s.minSamples {
      InferredIsPublished(s, es[..n], cutoff, states[n].base, states[n].wildcard);
    }
  }

  /** An event without a host changes nothing. */
  lemma NoHostNoChange(s: Settings, states: seq<State>, es: seq<Event>, n: nat)
    requires IsRun(s, states, es) && 0 < n <= |es| && es[n - 1].host == ""
    ensures states[n] == states[n - 1]
  {
    assert Observed(s, states[n - 1], es[n - 1].host, es[n - 1].at, states[n]);
  }

  // ----- configuration

  /** With domains configured the wildcard is, whatever is observed, that of the first one's base if and only if a
      later domain has that base and is not the base itself. */
  lemma ConfiguredWildcard(s: Settings, states: seq<State>, es: seq<Event>, n: nat)
    requires IsRun(s, states, es) && n <= |es| && s.domains != []
    ensures var base := s.baseOf(s.domains[0]);
            && states[n].base == base
            && states[n].wildcard ==
               if exists i :: 0 < i < |s.domains| && s.domains[i] != base && s.baseOf(s.domains[i]) == base
               then "*." + base else ""
  {
    NothingLearnt(s, states, es, n);
  }

  /** Without domains nothing is published before the first inference. */
  lemma StartsUnpublished(s: Settings, states: seq<State>, es: seq<Event>)
    requires IsRun(s, states, es) && s.domains == []
    ensures states[0] == State([], "", "")
  {
  }

  /** Domains are taken in order, trimmed and lower-cased; what is then empty is left out. */
  lemma {:induction false} CleanConcat(a: seq<string>, b: seq<string>, lower: string -> string)
    ensures CleanDomains(a + b, lower) == CleanDomains(a, lower) + CleanDomains(b, lower)
  {
    hide TrimSpace;
    if a == [] {
      assert a + b == b;
    } else {
      CleanConcat(a[1..], b, lower);
      assert (a + b)[1..] == a[1..] + b;
      var d := lower(TrimSpace(a[0]));
      Regroup(if d != "" then [d] else [], CleanDomains(a[1..], lower), CleanDomains(b, lower));
    }
  }

  lemma CleanOne(d: string, lower: string -> string)
    ensures CleanDomains([d], lower) == if lower(TrimSpace(d)) == "" then [] else [lower(TrimSpace(d))]
  {
    hide TrimSpace;
  }

  /** Positive settings are kept; the sample count defaults to three and the window to five minutes. */
  lemma ConfigureMeaning(c: Config, lower: string -> string, baseOf: string -> string)
    ensures var s := Configure(c, lower, baseOf);
            && (if c.minSamples > 0 then s.minSamples == c.minSamples else s.minSamples == 3)
            && (if c.window.Some? && c.window.value > 0 then s.window == c.window.value
                else s.window == 5 * 60 * 1_000_000_000)
            && s.domains == CleanDomains(c.domains, lower) && s.learning == c.learning && s.baseOf == baseOf
  {
  }
}
