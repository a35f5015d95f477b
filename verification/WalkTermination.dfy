/** When the walk ends: exactly when the fresh searches it starts at links do not lead round in a circle. */
module WalkTermination {
  import opened Seqs
  import opened WalkSpec

  // ----- where a search of one directory starts fresh ones

  /** One search of a directory with every link to a directory marked as visited but not entered: the
      directories visited, and those the links lead to. It ends on every tree. */
  function Flat(t: Tree, es: seq<Entry>, visited: set<string>): (r: (set<string>, set<string>))
    ensures visited <= r.0
    decreases |t.listing.Keys - visited|, |es|
  {
    if es == [] then (visited, {})
    else
      var (v, followed) := FlatEntry(t, es[0], visited);
      FewerLeft(t, visited, v);
      var (v', more) := Flat(t, es[1..], v);
      (v', followed + more)
  }

  function FlatEntry(t: Tree, e: Entry, visited: set<string>): (r: (set<string>, set<string>))
    ensures visited <= r.0
    decreases |t.listing.Keys - visited|, 0
  {
    if e.Directory? && e.path !in visited then
      if e.path in t.listing then
        OneFewerLeft(t, visited, e.path);
        Flat(t, t.listing[e.path], visited + {e.path})
      else (visited + {e.path}, {})
    else if e.Link? && e.target.ToDir? && t.follow && e.target.path !in visited then
      (visited + {e.target.path}, {e.target.path})
    else (visited, {})
  }

  lemma FewerLeft(t: Tree, visited: set<string>, v: set<string>)
    requires visited <= v
    ensures |t.listing.Keys - v| <= |t.listing.Keys - visited|
  {
    SubsetCount(t.listing.Keys - v, t.listing.Keys - visited);
  }

  lemma OneFewerLeft(t: Tree, visited: set<string>, d: string)
    requires d in t.listing && d !in visited
    ensures |t.listing.Keys - (visited + {d})| == |t.listing.Keys - visited| - 1
  {
    assert t.listing.Keys - (visited + {d}) == t.listing.Keys - visited - {d};
  }

  /** The directories for which the walk of d starts a fresh search. */
  function Followed(t: Tree, d: string): set<string> {
    Flat(t, t.Entries(d), {d}).1
  }

  /** Each directory is followed by the walk of the one before it. */
  predicate FollowTrail(t: Tree, p: seq<string>) {
    p != [] && forall i :: 0 < i < |p| ==> p[i] in Followed(t, p[i - 1])
  }

  /** From root, fresh searches lead back to a directory they have come from. */
  ghost predicate FollowsBack(t: Tree, root: string) {
    exists p :: FollowTrail(t, p) && p[0] == root && !Distinct(p)
  }

  lemma TrailExtends(t: Tree, p: seq<string>, d: string)
    requires FollowTrail(t, p) && d in Followed(t, p[|p| - 1])
    ensures FollowTrail(t, p + [d])
  {
  }

  lemma TrailPart(t: Tree, p: seq<string>, i: nat, j: nat)
    requires FollowTrail(t, p) && i < j <= |p|
    ensures FollowTrail(t, p[i..j])
  {
  }

  // ----- a walk that ends does not come back

  /** A search that ends visits what the flat one visits, and so do those it starts, with less depth. */
  lemma {:induction false} EntriesAreFlat(t: Tree, fuel: nat, es: seq<Entry>, visited: set<string>)
    requires VisitEntries(t, fuel, es, visited).Out?
    ensures VisitEntries(t, fuel, es, visited).visited == Flat(t, es, visited).0
    ensures forall d :: d in Flat(t, es, visited).1 ==> fuel > 0 && Walk(t, fuel - 1, Directory(d)).Out?
    decreases fuel, 1 + |es|
  {
    if es != [] {
      EntryIsFlat(t, fuel, es[0], visited);
      EntriesAreFlat(t, fuel, es[1..], VisitEntry(t, fuel, es[0], visited).visited);
    }
  }

  lemma {:induction false} EntryIsFlat(t: Tree, fuel: nat, e: Entry, visited: set<string>)
    requires VisitEntry(t, fuel, e, visited).Out?
    ensures VisitEntry(t, fuel, e, visited).visited == FlatEntry(t, e, visited).0
    ensures forall d :: d in FlatEntry(t, e, visited).1 ==> fuel > 0 && Walk(t, fuel - 1, Directory(d)).Out?
    decreases fuel, 0
  {
    if e.Directory? && e.path !in visited {
      EntriesAreFlat(t, fuel - 1, t.Entries(e.path), visited + {e.path});
      forall d | d in FlatEntry(t, e, visited).1 ensures Walk(t, fuel - 1, Directory(d)).Out? {
        EntryMonotone(t, fuel - 2, fuel - 1, Directory(d), {});
      }
    }
  }

  lemma FollowedEnds(t: Tree, fuel: nat, d: string, d': string)
    requires Walk(t, fuel, Directory(d)).Out? && d' in Followed(t, d)
    ensures fuel >= 2 && Walk(t, fuel - 2, Directory(d')).Out?
  {
    var none: set<string> := {};
    assert none + {d} == {d};
    EntriesAreFlat(t, fuel - 1, t.Entries(d), {d});
  }

  lemma {:induction false} TrailEnds(t: Tree, fuel: nat, p: seq<string>) returns (less: nat)
    requires FollowTrail(t, p) && Walk(t, fuel, Directory(p[0])).Out?
    ensures less <= fuel && Walk(t, less, Directory(p[|p| - 1])).Out?
    ensures |p| > 1 ==> less < fuel
    decreases |p|
  {
    if |p| == 1 {
      less := fuel;
    } else {
      FollowedEnds(t, fuel, p[0], p[1]);
      TrailPart(t, p, 1, |p|);
      less := TrailEnds(t, fuel - 2, p[1..]);
    }
  }

  lemma {:induction false} NoCircle(t: Tree, fuel: nat, p: seq<string>)
    requires FollowTrail(t, p) && |p| > 1 && p[0] == p[|p| - 1] && Walk(t, fuel, Directory(p[0])).Out?
    ensures false
    decreases fuel
  {
    var less := TrailEnds(t, fuel, p);
    NoCircle(t, less, p);
  }

  lemma EndsNeverBack(t: Tree, fuel: nat, root: string)
    requires Walk(t, fuel, Directory(root)).Out?
    ensures !FollowsBack(t, root)
  {
    forall p | FollowTrail(t, p) && p[0] == root ensures Distinct(p) {
      forall i, j | 0 <= i < j < |p| ensures p[i] != p[j] {
        if p[i] == p[j] {
          TrailPart(t, p, 0, i + 1);
          var less := TrailEnds(t, fuel, p[..i + 1]);
          TrailPart(t, p, i, j + 1);
          NoCircle(t, less, p[i..j + 1]);
        }
      }
    }
  }

  // ----- a walk that does not come back ends

  /** The directories that links lead to. */
  function Targets(t: Tree): set<string> {
    set d, e | d in t.listing && e in t.listing[d] && e.Link? && e.target.ToDir? :: e.target.path
  }

  lemma EntriesLeadToTargets(t: Tree, d: string)
    ensures forall e :: e in t.Entries(d) && e.Link? && e.target.ToDir? ==> e.target.path in Targets(t)
  {
  }

  lemma {:induction false} FollowedAreTargets(t: Tree, es: seq<Entry>, visited: set<string>)
    requires forall e :: e in es && e.Link? && e.target.ToDir? ==> e.target.path in Targets(t)
    ensures Flat(t, es, visited).1 <= Targets(t)
    decreases |t.listing.Keys - visited|, |es|
  {
    hide Targets, FlatEntry;
    if es != [] {
      var v := FlatEntry(t, es[0], visited).0;
      FewerLeft(t, visited, v);
      FollowedIsTarget(t, es[0], visited);
      FollowedAreTargets(t, es[1..], v);
    }
  }

  lemma {:induction false} FollowedIsTarget(t: Tree, e: Entry, visited: set<string>)
    requires e.Link? && e.target.ToDir? ==> e.target.path in Targets(t)
    ensures FlatEntry(t, e, visited).1 <= Targets(t)
    decreases |t.listing.Keys - visited|, 0
  {
    hide Targets, Flat;
    if e.Directory? && e.path !in visited && e.path in t.listing {
      OneFewerLeft(t, visited, e.path);
      EntriesLeadToTargets(t, e.path);
      FollowedAreTargets(t, t.listing[e.path], visited + {e.path});
    }
  }

  /** A search has depth enough if each fresh search it starts ends within n. */
  lemma {:induction false} EntriesEnd(t: Tree, n: nat, fuel: nat, es: seq<Entry>, visited: set<string>)
    requires forall d :: d in Flat(t, es, visited).1 ==> Walk(t, n, Directory(d)).Out?
    requires fuel >= n + 2 + |t.listing.Keys - visited|
    ensures VisitEntries(t, fuel, es, visited).Out?
    decreases fuel, 1 + |es|
  {
    if es != [] {
      EntryEnds(t, n, fuel, es[0], visited);
      EntryIsFlat(t, fuel, es[0], visited);
      var v := VisitEntry(t, fuel, es[0], visited).visited;
      FewerLeft(t, visited, v);
      EntriesEnd(t, n, fuel, es[1..], v);
    }
  }

  lemma {:induction false} EntryEnds(t: Tree, n: nat, fuel: nat, e: Entry, visited: set<string>)
    requires forall d :: d in FlatEntry(t, e, visited).1 ==> Walk(t, n, Directory(d)).Out?
    requires fuel >= n + 2 + |t.listing.Keys - visited|
    ensures VisitEntry(t, fuel, e, visited).Out?
    decreases fuel, 0
  {
    hide VisitEntry, VisitEntries, Walk, Flat;
    if e.Directory? && e.path !in visited {
      DirectoryEnds(t, fuel, e.path, visited);
      if e.path in t.listing {
        OneFewerLeft(t, visited, e.path);
        EntriesEnd(t, n, fuel - 1, t.listing[e.path], visited + {e.path});
      }
    } else if e.Link? && e.target.ToDir? && t.follow && e.target.path !in visited {
      LinkEnds(t, n, fuel, e.target.path, visited);
    } else {
      OtherEnds(t, fuel, e, visited);
    }
  }

  lemma DirectoryEnds(t: Tree, fuel: nat, d: string, visited: set<string>)
    requires d !in visited && fuel > 0
    ensures d !in t.listing || VisitEntries(t, fuel - 1, t.listing[d], visited + {d}).Out?
            ==> VisitEntry(t, fuel, Directory(d), visited).Out?
  {
  }

  lemma LinkEnds(t: Tree, n: nat, fuel: nat, d: string, visited: set<string>)
    requires Walk(t, n, Directory(d)).Out? && n < fuel
    ensures VisitEntry(t, fuel, Link(ToDir(d)), visited).Out?
  {
    EntryMonotone(t, n, fuel - 1, Directory(d), {});
  }

  lemma OtherEnds(t: Tree, fuel: nat, e: Entry, visited: set<string>)
    requires e.Directory? ==> e.path in visited
    requires e.Link? && e.target.ToDir? && t.follow ==> e.target.path in visited
    ensures VisitEntry(t, fuel, e, visited).Out?
  {
  }

  lemma SearchEnds(t: Tree, n: nat, d: string)
    requires forall d' :: d' in Followed(t, d) ==> Walk(t, n, Directory(d')).Out?
    ensures Walk(t, n + |t.listing| + 3, Directory(d)).Out?
  {
    SubsetCount(t.listing.Keys - {d}, t.listing.Keys);
    EntriesEnd(t, n, n + |t.listing| + 2, t.Entries(d), {d});
    var none: set<string> := {};
    assert none + {d} == {d};
  }

  /** The depth k fresh searches inside one another may need. */
  function Depth(t: Tree, k: nat): nat {
    if k == 0 then 0 else Depth(t, k - 1) + |t.listing| + 3
  }

  /** A depth that is enough for every walk that ends. */
  function Enough(t: Tree): nat {
    Depth(t, |Targets(t)| + 1)
  }

  lemma ShortTrail(t: Tree, p: seq<string>)
    requires FollowTrail(t, p) && Distinct(p)
    ensures |p| <= |Targets(t)| + 1
  {
    var rest := p[1..];
    forall d | d in Elements(rest) ensures d in Targets(t) {
      var i :| 0 <= i < |rest| && rest[i] == d;
      var from := p[i];
      assert p[i + 1] in Followed(t, from);
      EntriesLeadToTargets(t, from);
      FollowedAreTargets(t, t.Entries(from), {from});
    }
    DistinctCount(rest);
    SubsetCount(Elements(rest), Targets(t));
  }

  lemma {:induction false} TrailEndEnds(t: Tree, p: seq<string>, k: nat)
    requires FollowTrail(t, p) && !FollowsBack(t, p[0]) && |p| + k == |Targets(t)| + 2
    ensures Walk(t, Depth(t, k), Directory(p[|p| - 1])).Out?
    decreases k
  {
    assert Distinct(p);
    ShortTrail(t, p);
    var d := p[|p| - 1];
    var n := Depth(t, k - 1);
    hide Walk, Followed, Targets, FollowsBack, Distinct;
    forall d' | d' in Followed(t, d) ensures Walk(t, n, Directory(d')).Out? {
      TrailExtends(t, p, d');
      TrailEndEnds(t, p + [d'], k - 1);
    }
    SearchEnds(t, n, d);
  }

  /** The exact condition: the walk of a root ends, at some depth or at the depth computed from the tree, if and
      only if the fresh searches it starts never lead back to a directory they have come from. Links back to a
      directory of the same search do no harm. */
  lemma WalkEndsIff(t: Tree, root: string)
    ensures (exists fuel: nat :: Walk(t, fuel, Directory(root)).Out?) <==> !FollowsBack(t, root)
    ensures Walk(t, Enough(t), Directory(root)).Out? <==> !FollowsBack(t, root)
  {
    if fuel: nat :| Walk(t, fuel, Directory(root)).Out? {
      EndsNeverBack(t, fuel, root);
    }
    if !FollowsBack(t, root) {
      assert FollowTrail(t, [root]);
      TrailEndEnds(t, [root], |Targets(t)| + 1);
    }
  }

  /** A walk that never comes back sends exactly what can be reached, every audio file at least once. */
  lemma WalkSendsReachable(t: Tree, root: string)
    requires !FollowsBack(t, root)
    ensures var r := Walk(t, Enough(t), Directory(root));
            r.Out? && forall f :: f in r.sent <==> Reaches(t, root, f)
  {
    WalkEndsIff(t, root);
    WalkIsComplete(t, Enough(t), root);
  }

  // ----- in particular

  /** No directory leads back to itself: each leads to directories of smaller rank only. */
  ghost predicate Acyclic(t: Tree, rank: string -> nat) {
    forall d, d' :: Leads(t, d, d') ==> rank(d') < rank(d)
  }

  /** The depth is enough for the entry: two for every rank. */
  ghost predicate Shallow(t: Tree, rank: string -> nat, e: Entry, fuel: nat) {
    && (e.Directory? ==> 2 * rank(e.path) < fuel)
    && (e.Link? && e.target.ToDir? && t.follow ==> 2 * rank(e.target.path) + 1 < fuel)
  }

  lemma {:induction false} EntryFinishes(t: Tree, rank: string -> nat, fuel: nat, e: Entry, visited: set<string>)
    requires Acyclic(t, rank) && Shallow(t, rank, e, fuel)
    ensures VisitEntry(t, fuel, e, visited).Out?
    decreases fuel, 0
  {
    match e
    case Directory(d) =>
      forall x | x in t.Entries(d) ensures Shallow(t, rank, x, fuel - 1) {
        assert x.Directory? ==> Leads(t, d, x.path);
        assert x.Link? && x.target.ToDir? && t.follow ==> Leads(t, d, x.target.path);
      }
      EntriesFinish(t, rank, fuel - 1, t.Entries(d), visited + {d});
    case RegularFile(_) =>
    case Link(target) =>
      if target.ToDir? && t.follow {
        EntryFinishes(t, rank, fuel - 1, Directory(target.path), {});
      }
  }

  lemma {:induction false} EntriesFinish(t: Tree, rank: string -> nat, fuel: nat, es: seq<Entry>, visited: set<string>)
    requires Acyclic(t, rank) && forall e :: e in es ==> Shallow(t, rank, e, fuel)
    ensures VisitEntries(t, fuel, es, visited).Out?
    decreases fuel, 1 + |es|
  {
    if es != [] {
      EntryFinishes(t, rank, fuel, es[0], visited);
      EntriesFinish(t, rank, fuel, es[1..], VisitEntry(t, fuel, es[0], visited).visited);
    }
  }

  /** A tree in which no directory leads back to itself is one case. */
  lemma AcyclicNeverBack(t: Tree, rank: string -> nat, root: string)
    requires Acyclic(t, rank)
    ensures !FollowsBack(t, root)
  {
    var fuel := 2 * rank(root) + 1;
    EntryFinishes(t, rank, fuel, Directory(root), {});
    EndsNeverBack(t, fuel, root);
  }

  /** A link back to a directory that is being searched is another: the walk ends, though no rank exists. */
  lemma LinkToParentEnds(rank: string -> nat)
    ensures var t := Tree(map["a" := [Directory("b")], "b" := [Link(ToDir("a"))]], _ => true, true);
            !Acyclic(t, rank) && !FollowsBack(t, "a")
  {
    var t := Tree(map["a" := [Directory("b")], "b" := [Link(ToDir("a"))]], _ => true, true);
    assert Leads(t, "a", "b") && Leads(t, "b", "a");
    assert VisitEntry(t, 1, Link(ToDir("a")), {"a", "b"}) == Out({"a", "b"}, []);
    assert VisitEntries(t, 1, [Link(ToDir("a"))], {"a", "b"}).Out?;
    EndsNeverBack(t, 3, "a");
  }

  /** Two directories a and b, each holding a link to the other. */
  function MutualLinks(): Tree {
    Tree(map["a" := [Link(ToDir("b"))], "b" := [Link(ToDir("a"))]], _ => true, true)
  }

  /** Each followed link starts a fresh search, so on two directories linking to each other no depth is enough. */
  lemma {:induction false} MutualLinksNeverFinish(fuel: nat)
    ensures Walk(MutualLinks(), fuel, Directory("a")) == TooDeep
    ensures Walk(MutualLinks(), fuel, Directory("b")) == TooDeep
  {
    var t := MutualLinks();
    if fuel >= 1 {
      if fuel >= 2 {
        MutualLinksNeverFinish(fuel - 2);
      }
      LonelyLink(t, fuel, "a", "b");
      LonelyLink(t, fuel, "b", "a");
    }
  }

  lemma LonelyLink(t: Tree, fuel: nat, d: string, d': string)
    requires t.follow && t.Entries(d) == [Link(ToDir(d'))] && d != d' && fuel >= 1
    requires fuel >= 2 ==> Walk(t, fuel - 2, Directory(d')) == TooDeep
    ensures Walk(t, fuel, Directory(d)) == TooDeep
  {
    var none: set<string> := {};
    assert none + {d} == {d};
    assert VisitEntry(t, fuel - 1, Link(ToDir(d')), {d}) == TooDeep;
    assert VisitEntries(t, fuel - 1, [Link(ToDir(d'))], {d}) == TooDeep;
  }
}
