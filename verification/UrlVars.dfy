/** Learning the server's domain from observed host names: a sliding window of observations, from which a
    base domain and a wildcard are inferred. */
module DomainLearning {
  import opened Options
  import opened Seqs
  import opened Text

  datatype Observation = Observation(host: string, at: int)

  /** The configuration as read; `window` is None when the duration does not parse. */
  datatype Config = Config(domains: seq<string>, learning: bool, minSamples: int, window: Option<int>)

  const FIVE_MINUTES: int := 300_000_000_000

  /** What Init keeps. `baseOf` is the registrable domain of a host; the public suffix list behind it is not
      part of this model. */
  datatype Settings = Settings(domains: seq<string>, learning: bool, minSamples: int, window: int, baseOf: string -> string)

  function CleanDomains(raw: seq<string>, lower: string -> string): (r: seq<string>)
    ensures forall i :: 0 <= i < |r| ==> r[i] != ""
  {
    if raw == [] then []
    else
      var d := lower(TrimSpace(raw[0]));
      (if d != "" then [d] else []) + CleanDomains(raw[1..], lower)
  }

  /** `lower` is the standard library's lower-casing. */
  function Configure(c: Config, lower: string -> string, baseOf: string -> string): (s: Settings)
    ensures s.minSamples > 0 && s.window > 0
  {
    Settings(CleanDomains(c.domains, lower), c.learning,
             if c.minSamples <= 0 then 3 else c.minSamples,
             if c.window.None? || c.window.value <= 0 then FIVE_MINUTES else c.window.value,
             baseOf)
  }

  // ----- one observation

  datatype State = State(observations: seq<Observation>, base: string, wildcard: string)

  function Live(os: seq<Observation>, cutoff: int): seq<Observation> {
    Keep(os, (o: Observation) => o.at > cutoff)
  }

  function Count(s: Settings, os: seq<Observation>, b: string): nat {
    if os == [] then 0
    else (if s.baseOf(os[0].host) == b then 1 else 0) + Count(s, os[1..], b)
  }

  /** b is seen, and no base is seen more often. */
  ghost predicate IsTop(s: Settings, os: seq<Observation>, b: string) {
    Count(s, os, b) > 0 && forall other :: Count(s, os, other) <= Count(s, os, b)
  }

  /** At least two different hosts have base b. */
  ghost predicate Shared(s: Settings, os: seq<Observation>, b: string) {
    exists i, j :: 0 <= i < |os| && 0 <= j < |os| && os[i].host != os[j].host
                   && s.baseOf(os[i].host) == b && s.baseOf(os[j].host) == b
  }

  /** What may be published from a window of observations: the order in which a map is ranged over decides
      between bases with equal counts. */
  ghost predicate Inferred(s: Settings, os: seq<Observation>, base: string, wildcard: string) {
    IsTop(s, os, base) && wildcard == if Shared(s, os, base) then "*." + base else ""
  }

  predicate Passes(s: Settings, host: string) {
    s.learning && s.domains == [] && host != ""
  }

  ghost predicate Observed(s: Settings, st: State, host: string, now: int, st': State) {
    if !Passes(s, host) then st' == st
    else
      && st'.observations == Live(st.observations + [Observation(host, now)], now - s.window)
      && (if |st'.observations| < s.minSamples then st'.base == st.base && st'.wildcard == st.wildcard
          else Inferred(s, st'.observations, st'.base, st'.wildcard))
  }

  // ----- the first state

  ghost predicate HasSibling(s: Settings) {
    exists i :: 0 < i < |s.domains| && s.domains[i] != s.baseOf(s.domains[0])
                && s.baseOf(s.domains[i]) == s.baseOf(s.domains[0])
  }

  ghost function Initial(s: Settings): State {
    if s.domains == [] then State([], "", "")
    else State([], s.baseOf(s.domains[0]), if HasSibling(s) then "*." + s.baseOf(s.domains[0]) else "")
  }

  function BaseDomain(s: Settings, st: State): string {
    if st.base != "" then st.base else if s.domains != [] then s.domains[0] else ""
  }

  // ----- runs

  datatype Event = Event(host: string, at: int)

  /** states[i + 1] is a state observe may reach from states[i] with event i. */
  ghost predicate IsRun(s: Settings, states: seq<State>, es: seq<Event>) {
    && |states| == |es| + 1
    && states[0] == Initial(s)
    && (forall i :: 0 <= i < |es| ==> Observed(s, states[i], es[i].host, es[i].at, states[i + 1]))
  }

  predicate TimeOrdered(es: seq<Event>) {
    forall i, j :: 0 <= i < j < |es| ==> es[i].at <= es[j].at
  }

  /** All observations made so far: the guard keeps out the other events. */
  function History(s: Settings, es: seq<Event>): seq<Observation> {
    if es == [] then []
    else
      var e := es[|es| - 1];
      History(s, es[..|es| - 1]) + if Passes(s, e.host) then [Observation(e.host, e.at)] else []
  }

  /** Pruning twice with advancing cutoffs is pruning once with the later one. */
  lemma LiveAgain(os: seq<Observation>, o: Observation, early: int, late: int)
    requires early <= late
    ensures Live(Live(os, early) + [o], late) == Live(os + [o], late)
  {
    KeepTwice(os, (x: Observation) => x.at > early, (x: Observation) => x.at > late, (x: Observation) => x.at > late);
    KeepConcat(Live(os, early), [o], (x: Observation) => x.at > late);
    KeepConcat(os, [o], (x: Observation) => x.at > late);
  }

  /** Before event n the window is the history cut off at some instant that event n has not to look behind. */
  lemma {:induction false} WindowBefore(s: Settings, states: seq<State>, es: seq<Event>, n: nat) returns (cutoff: int)
    requires IsRun(s, states, es) && TimeOrdered(es) && n < |es|
    ensures cutoff <= es[n].at - s.window
    ensures states[n].observations == Live(History(s, es[..n]), cutoff)
  {
    hide Live, Initial, Inferred;
    if n == 0 {
      cutoff := es[0].at - s.window;
      assert es[..0] == [];
      StartsEmpty(s, cutoff);
    } else {
      var e := es[n - 1];
      cutoff := WindowBefore(s, states, es, n - 1);
      assert Observed(s, states[n - 1], e.host, e.at, states[n]);
      HistoryGrows(s, es, n);
      if Passes(s, e.host) {
        LiveAgain(History(s, es[..n - 1]), Observation(e.host, e.at), cutoff, e.at - s.window);
        cutoff := e.at - s.window;
      }
    }
  }

  predicate InTimeOrder(os: seq<Observation>) {
    forall i, j :: 0 <= i < j < |os| ==> os[i].at <= os[j].at
  }

  lemma SoFarOrdered(es: seq<Event>, n: nat)
    requires TimeOrdered(es) && n <= |es|
    ensures TimeOrdered(es[..n])
  {
  }

  /** Pruning keeps time order. */
  lemma {:induction false} LiveOrdered(os: seq<Observation>, cutoff: int)
    requires InTimeOrder(os)
    ensures InTimeOrder(Live(os, cutoff))
  {
    if os != [] {
      LiveOrdered(os[1..], cutoff);
      KeepMembers(os[1..], (o: Observation) => o.at > cutoff);
      var rest := Live(os[1..], cutoff);
      forall i | 0 <= i < |rest| ensures os[0].at <= rest[i].at {
        assert rest[i] in os[1..];
        var k :| 0 <= k < |os[1..]| && os[1..][k] == rest[i];
        assert os[k + 1] == rest[i];
      }
    }
  }

  lemma {:induction false} HistoryOrdered(s: Settings, es: seq<Event>)
    requires TimeOrdered(es)
    ensures InTimeOrder(History(s, es))
    ensures forall i :: 0 <= i < |History(s, es)| ==> History(s, es)[i].at <= es[|es| - 1].at
  {
    if es != [] {
      HistoryOrdered(s, es[..|es| - 1]);
    }
  }

  /** After an event that passes the guard the window is exactly the observations made so far that are young
      enough, in time order: earlier pruning has removed nothing it should not have, and the newest is in it. */
  lemma WindowIsExact(s: Settings, states: seq<State>, es: seq<Event>, n: nat)
    requires IsRun(s, states, es) && TimeOrdered(es) && 0 < n <= |es| && s.window > 0 && Passes(s, es[n - 1].host)
    ensures states[n].observations == Live(History(s, es[..n]), es[n - 1].at - s.window)
    ensures Observation(es[n - 1].host, es[n - 1].at) in states[n].observations
    ensures InTimeOrder(states[n].observations)
  {
    hide Live, Initial, Inferred, History, InTimeOrder;
    var o := Observation(es[n - 1].host, es[n - 1].at);
    var cutoff := WindowBefore(s, states, es, n - 1);
    assert Observed(s, states[n - 1], es[n - 1].host, es[n - 1].at, states[n]);
    HistoryGrows(s, es, n);
    LiveAgain(History(s, es[..n - 1]), o, cutoff, es[n - 1].at - s.window);
    NewestIsLive(History(s, es[..n - 1]), o, es[n - 1].at - s.window);
    SoFarOrdered(es, n);
    HistoryOrdered(s, es[..n]);
    LiveOrdered(History(s, es[..n]), es[n - 1].at - s.window);
  }

  lemma HistoryGrows(s: Settings, es: seq<Event>, n: nat)
    requires 0 < n <= |es|
    ensures var e := es[n - 1];
            var before := History(s, es[..n - 1]);
            History(s, es[..n]) == if Passes(s, e.host) then before + [Observation(e.host, e.at)] else before
  {
    assert es[..n][..n - 1] == es[..n - 1];
  }

  lemma StartsEmpty(s: Settings, cutoff: int)
    ensures Initial(s).observations == [] == Live([], cutoff)
  {
  }

  lemma NewestIsLive(os: seq<Observation>, o: Observation, cutoff: int)
    requires o.at > cutoff
    ensures o in Live(os + [o], cutoff)
  {
    var all := os + [o];
    KeepMembers(all, (x: Observation) => x.at > cutoff);
    assert all[|os|] == o;
  }

  /** After any observation that leaves enough samples in the window, the published base is one seen most often
      among all observations ever made that are in the window, and the wildcard covers it exactly when two
      different hosts in the window share it. With too few samples the published values stay. */
  lemma PublishedIsInferred(s: Settings, states: seq<State>, es: seq<Event>, n: nat)
    requires IsRun(s, states, es) && TimeOrdered(es) && 0 < n <= |es| && s.window > 0 && Passes(s, es[n - 1].host)
    ensures var inWindow := Live(History(s, es[..n]), es[n - 1].at - s.window);
            if |inWindow| < s.minSamples
            then states[n].base == states[n - 1].base && states[n].wildcard == states[n - 1].wildcard
            else Inferred(s, inWindow, states[n].base, states[n].wildcard)
  {
    WindowIsExact(s, states, es, n);
    assert Observed(s, states[n - 1], es[n - 1].host, es[n - 1].at, states[n]);
  }

  /** Where domains are configured, or learning is off, nothing observed changes anything. */
  lemma {:induction false} NothingLearnt(s: Settings, states: seq<State>, es: seq<Event>, n: nat)
    requires IsRun(s, states, es) && n <= |es| && (!s.learning || s.domains != [])
    ensures states[n] == Initial(s)
  {
    if n > 0 {
      NothingLearnt(s, states, es, n - 1);
      assert Observed(s, states[n - 1], es[n - 1].host, es[n - 1].at, states[n]);
    }
  }

  /** With configured domains the base domain reported is, whatever is observed, that of the first of them, or
      that domain itself if it has none. */
  lemma ConfiguredBase(s: Settings, states: seq<State>, es: seq<Event>, n: nat)
    requires IsRun(s, states, es) && n <= |es| && s.domains != []
    ensures var first := s.domains[0];
            BaseDomain(s, states[n]) == if s.baseOf(first) != "" then s.baseOf(first) else first
  {
    NothingLearnt(s, states, es, n);
  }

  lemma {:induction false} CountedHost(s: Settings, os: seq<Observation>, b: string) returns (i: nat)
    requires Count(s, os, b) > 0
    ensures i < |os| && s.baseOf(os[i].host) == b
  {
    if s.baseOf(os[0].host) == b {
      i := 0;
    } else {
      i := CountedHost(s, os[1..], b);
      i := i + 1;
    }
  }

  lemma {:induction false} HistoryIsObserved(s: Settings, es: seq<Event>, o: Observation)
    requires o in History(s, es)
    ensures exists i :: 0 <= i < |es| && es[i].host == o.host && Passes(s, o.host)
  {
    var n := |es| - 1;
    if o in History(s, es[..n]) {
      HistoryIsObserved(s, es[..n], o);
      var i :| 0 <= i < n && es[..n][i].host == o.host;
      assert es[i].host == o.host;
    } else {
      assert es[n].host == o.host;
    }
  }

  /** Without configured domains it is empty, or the base of a host that has been observed. */
  lemma {:induction false} LearntBase(s: Settings, states: seq<State>, es: seq<Event>, n: nat)
    requires IsRun(s, states, es) && TimeOrdered(es) && n <= |es| && s.window > 0 && s.domains == []
    ensures var b := BaseDomain(s, states[n]);
            b == "" || exists i :: 0 <= i < n && es[i].host != "" && s.baseOf(es[i].host) == b
  {
    hide Live, History, Count;
    if n > 0 {
      LearntBase(s, states, es, n - 1);
      assert Observed(s, states[n - 1], es[n - 1].host, es[n - 1].at, states[n]);
      if Passes(s, es[n - 1].host) {
        PublishedIsInferred(s, states, es, n);
        if states[n].base != states[n - 1].base {
          InferredBaseIsObserved(s, es[..n], es[n - 1].at - s.window, states[n].base, states[n].wildcard);
          var i :| 0 <= i < n && es[..n][i].host != "" && s.baseOf(es[..n][i].host) == states[n].base;
          assert es[i].host != "" && s.baseOf(es[i].host) == states[n].base;
        }
      }
    }
  }

  lemma InferredBaseIsObserved(s: Settings, es: seq<Event>, cutoff: int, base: string, wildcard: string)
    requires Inferred(s, Live(History(s, es), cutoff), base, wildcard)
    ensures exists i :: 0 <= i < |es| && es[i].host != "" && s.baseOf(es[i].host) == base
  {
    var inWindow := Live(History(s, es), cutoff);
    var k := CountedHost(s, inWindow, base);
    KeepMembers(History(s, es), (o: Observation) => o.at > cutoff);
    HistoryIsObserved(s, es, inWindow[k]);
  }
}
