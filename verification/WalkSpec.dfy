/** The directory walk: a depth-first search that skips directories it has entered before and starts a
    fresh search for every link to a directory. */
module WalkSpec {

  datatype Target = Broken | ToDir(path: string) | ToFile(path: string)

  /** A directory entry, directories and files named by their real paths. */
  datatype Entry = Directory(path: string) | RegularFile(path: string) | Link(target: Target)

  /** What each directory lists, in the order it is read; a directory that cannot be read lists nothing.
      `wanted` says which paths are audio files that no exclude pattern matches. */
  datatype Tree = Tree(listing: map<string, seq<Entry>>, wanted: string -> bool, follow: bool)
  {
    function Entries(d: string): seq<Entry> {
      if d in listing then listing[d] else []
    }
  }

  /** How a search ends: the directories it has entered or followed and the paths it has sent; or the
      recursion got deeper than `fuel`. */
  datatype Out = Out(visited: set<string>, sent: seq<string>) | TooDeep

  function Send(t: Tree, path: string, visited: set<string>): Out {
    Out(visited, if t.wanted(path) then [path] else [])
  }

  function VisitEntry(t: Tree, fuel: nat, e: Entry, visited: set<string>): Out
    decreases fuel, 0
  {
    match e
    case Directory(d) =>
      if d in visited then Out(visited, [])
      else if fuel == 0 then TooDeep
      else VisitEntries(t, fuel - 1, t.Entries(d), visited + {d})
    case RegularFile(p) => Send(t, p, visited)
    case Link(target) =>
      if !t.follow || target.Broken? then Out(visited, [])
      else if target.ToFile? then Send(t, target.path, visited)
      else if target.path in visited then Out(visited, [])
      else if fuel == 0 then TooDeep
      else
        match VisitEntry(t, fuel - 1, Directory(target.path), {})
        case TooDeep => TooDeep
        case Out(_, sent) => Out(visited + {target.path}, sent)
  }

  function VisitEntries(t: Tree, fuel: nat, es: seq<Entry>, visited: set<string>): Out
    decreases fuel, 1 + |es|
  {
    if es == [] then Out(visited, [])
    else
      match VisitEntry(t, fuel, es[0], visited)
      case TooDeep => TooDeep
      case Out(v, sent) =>
        match VisitEntries(t, fuel, es[1..], v)
        case TooDeep => TooDeep
        case Out(v', more) => Out(v', sent + more)
  }

  /** The walk of one root: a search with nothing visited. */
  function Walk(t: Tree, fuel: nat, root: Entry): Out {
    VisitEntry(t, fuel, root, {})
  }

  // ----- reachability, independently of any search

  /** d lists the directory d', or a followed link to it. */
  predicate Leads(t: Tree, d: string, d': string) {
    Directory(d') in t.Entries(d) || (t.follow && Link(ToDir(d')) in t.Entries(d))
  }

  predicate HasFile(t: Tree, d: string, f: string) {
    t.wanted(f) && (RegularFile(f) in t.Entries(d) || (t.follow && Link(ToFile(f)) in t.Entries(d)))
  }

  predicate IsTrail(t: Tree, p: seq<string>) {
    forall i :: 0 <= i < |p| - 1 ==> Leads(t, p[i], p[i + 1])
  }

  predicate TrailTo(t: Tree, p: seq<string>, d: string, f: string) {
    p != [] && p[0] == d && IsTrail(t, p) && HasFile(t, p[|p| - 1], f)
  }

  /** The audio file f can be reached from directory d through directories and followed links. */
  ghost predicate Reaches(t: Tree, d: string, f: string) {
    exists p :: TrailTo(t, p, d, f)
  }

  lemma ReachesHere(t: Tree, d: string, f: string)
    requires HasFile(t, d, f)
    ensures Reaches(t, d, f)
  {
    assert TrailTo(t, [d], d, f);
  }

  lemma ReachesThrough(t: Tree, d: string, d': string, f: string)
    requires Leads(t, d, d') && Reaches(t, d', f)
    ensures Reaches(t, d, f)
  {
    var p :| TrailTo(t, p, d', f);
    var q := [d] + p;
    forall i | 0 <= i < |q| - 1 ensures Leads(t, q[i], q[i + 1]) {
      assert i > 0 ==> q[i] == p[i - 1];
    }
    assert TrailTo(t, q, d, f);
  }

  // ----- everything sent is reachable

  ghost predicate EntryReaches(t: Tree, e: Entry, f: string) {
    match e
    case Directory(d) => Reaches(t, d, f)
    case RegularFile(p) => p == f && t.wanted(f)
    case Link(target) =>
      t.follow && (if target.ToDir? then Reaches(t, target.path, f) else target == ToFile(f) && t.wanted(f))
  }

  lemma {:induction false} EntrySound(t: Tree, fuel: nat, e: Entry, visited: set<string>, f: string)
    requires var r := VisitEntry(t, fuel, e, visited); r.Out? && f in r.sent
    ensures EntryReaches(t, e, f)
    decreases fuel, 0
  {
    match e
    case Directory(d) =>
      var e' := EntriesSound(t, fuel - 1, t.Entries(d), visited + {d}, f);
      EntryInside(t, d, e', f);
    case RegularFile(_) =>
    case Link(target) =>
      if target.ToDir? {
        EntrySound(t, fuel - 1, Directory(target.path), {}, f);
      }
  }

  lemma EntryInside(t: Tree, d: string, e: Entry, f: string)
    requires e in t.Entries(d) && EntryReaches(t, e, f)
    ensures Reaches(t, d, f)
  {
    match e
    case Directory(d') => ReachesThrough(t, d, d', f);
    case RegularFile(_) => ReachesHere(t, d, f);
    case Link(target) =>
      if target.ToDir? {
        ReachesThrough(t, d, target.path, f);
      } else {
        ReachesHere(t, d, f);
      }
  }

  lemma {:induction false} EntriesSound(t: Tree, fuel: nat, es: seq<Entry>, visited: set<string>, f: string) returns (e: Entry)
    requires var r := VisitEntries(t, fuel, es, visited); r.Out? && f in r.sent
    ensures e in es && EntryReaches(t, e, f)
    decreases fuel, 1 + |es|
  {
    var r := VisitEntry(t, fuel, es[0], visited);
    if f in r.sent {
      EntrySound(t, fuel, es[0], visited, f);
      e := es[0];
    } else {
      e := EntriesSound(t, fuel, es[1..], r.visited, f);
    }
  }

  // ----- everything reachable is sent

  /** The search has dealt with entry e: its directory is among the visited, its file among the sent. */
  predicate Handled(t: Tree, e: Entry, visited: set<string>, sent: seq<string>) {
    match e
    case Directory(d) => d in visited
    case RegularFile(p) => t.wanted(p) ==> p in sent
    case Link(target) =>
      match target
      case Broken => true
      case ToDir(d) => t.follow ==> d in visited
      case ToFile(p) => t.follow && t.wanted(p) ==> p in sent
  }

  predicate Covered(t: Tree, d: string, visited: set<string>, sent: seq<string>) {
    forall e :: e in t.Entries(d) ==> Handled(t, e, visited, sent)
  }

  ghost predicate Swept(t: Tree, d: string, sent: seq<string>) {
    forall f :: Reaches(t, d, f) ==> f in sent
  }

  /** Every directory visited since `before` is either entered with all its entries handled, or was
      followed and everything reachable from it sent. */
  ghost predicate Complete(t: Tree, before: set<string>, visited: set<string>, sent: seq<string>) {
    && before <= visited
    && forall d :: d in visited && d !in before ==> Covered(t, d, visited, sent) || Swept(t, d, sent)
  }

  lemma CompleteGrows(t: Tree, a: set<string>, b: set<string>, c: set<string>, s: seq<string>, u: seq<string>)
    requires Complete(t, a, b, s) && Complete(t, b, c, u)
    ensures Complete(t, a, c, s + u)
  {
    forall d | d in c && d !in a ensures Covered(t, d, c, s + u) || Swept(t, d, s + u) {
      if d in b {
        if Covered(t, d, b, s) {
          forall e | e in t.Entries(d) ensures Handled(t, e, c, s + u) {
            assert Handled(t, e, b, s);
          }
        }
      } else if Covered(t, d, c, u) {
        forall e | e in t.Entries(d) ensures Handled(t, e, c, s + u) {
          assert Handled(t, e, c, u);
        }
      }
    }
  }

  lemma {:induction false} EntryCompletes(t: Tree, fuel: nat, e: Entry, visited: set<string>)
    requires VisitEntry(t, fuel, e, visited).Out?
    ensures var r := VisitEntry(t, fuel, e, visited);
            Complete(t, visited, r.visited, r.sent) && Handled(t, e, r.visited, r.sent)
    decreases fuel, 0
  {
    match e
    case Directory(d) =>
      if d !in visited {
        EntriesComplete(t, fuel - 1, t.Entries(d), visited + {d});
      }
    case RegularFile(_) =>
    case Link(target) =>
      if target.ToDir? && t.follow && target.path !in visited {
        WalkIsComplete(t, fuel - 1, target.path);
      }
  }

  lemma {:induction false} EntriesComplete(t: Tree, fuel: nat, es: seq<Entry>, visited: set<string>)
    requires VisitEntries(t, fuel, es, visited).Out?
    ensures var r := VisitEntries(t, fuel, es, visited);
            && Complete(t, visited, r.visited, r.sent)
            && (forall e :: e in es ==> Handled(t, e, r.visited, r.sent))
    decreases fuel, 1 + |es|
  {
    if es != [] {
      var first := VisitEntry(t, fuel, es[0], visited);
      EntryCompletes(t, fuel, es[0], visited);
      var rest := VisitEntries(t, fuel, es[1..], first.visited);
      EntriesComplete(t, fuel, es[1..], first.visited);
      CompleteGrows(t, visited, first.visited, rest.visited, first.sent, rest.sent);
      forall e | e in es ensures Handled(t, e, rest.visited, first.sent + rest.sent) {
        if e != es[0] {
          assert e in es[1..];
          assert Handled(t, e, rest.visited, rest.sent);
        } else {
          assert Handled(t, e, first.visited, first.sent);
        }
      }
    }
  }

  /** Along a trail out of a complete search everything is sent. */
  lemma {:induction false} TrailIsSent(t: Tree, visited: set<string>, sent: seq<string>, p: seq<string>, d: string, f: string)
    requires Complete(t, {}, visited, sent) && TrailTo(t, p, d, f) && d in visited
    ensures f in sent
    decreases |p|
  {
    if Swept(t, d, sent) {
      assert Reaches(t, d, f);
    } else {
      assert Covered(t, d, visited, sent);
      if |p| > 1 {
        assert Leads(t, p[0], p[1]);
        forall i | 0 <= i < |p[1..]| - 1 ensures Leads(t, p[1..][i], p[1..][i + 1]) {
          assert Leads(t, p[i + 1], p[i + 2]);
        }
        TrailIsSent(t, visited, sent, p[1..], p[1], f);
      }
    }
  }

  /** A walk that finishes has sent every audio file that can be reached from its root, whatever the
      visited sets made it skip, and however links and directories refer to each other. */
  lemma {:induction false} WalkIsComplete(t: Tree, fuel: nat, root: string)
    requires Walk(t, fuel, Directory(root)).Out?
    ensures forall f :: f in Walk(t, fuel, Directory(root)).sent <==> Reaches(t, root, f)
    decreases fuel, 1
  {
    var r := Walk(t, fuel, Directory(root));
    EntryCompletes(t, fuel, Directory(root), {});
    forall f ensures f in r.sent <==> Reaches(t, root, f) {
      if f in r.sent {
        EntrySound(t, fuel, Directory(root), {}, f);
      }
      if Reaches(t, root, f) {
        var p :| TrailTo(t, p, root, f);
        TrailIsSent(t, r.visited, r.sent, p, root, f);
      }
    }
  }

  // ----- the depth allowed does not matter

  lemma {:induction false} EntryMonotone(t: Tree, fuel: nat, more: nat, e: Entry, visited: set<string>)
    requires fuel <= more && VisitEntry(t, fuel, e, visited).Out?
    ensures VisitEntry(t, more, e, visited) == VisitEntry(t, fuel, e, visited)
    decreases fuel, 0
  {
    match e
    case Directory(d) =>
      if d !in visited {
        EntriesMonotone(t, fuel - 1, more - 1, t.Entries(d), visited + {d});
      }
    case RegularFile(_) =>
    case Link(target) =>
      if target.ToDir? && t.follow && target.path !in visited {
        EntryMonotone(t, fuel - 1, more - 1, Directory(target.path), {});
      }
  }

  /** A search that finishes gives the same result whatever depth it is allowed. */
  lemma {:induction false} EntriesMonotone(t: Tree, fuel: nat, more: nat, es: seq<Entry>, visited: set<string>)
    requires fuel <= more && VisitEntries(t, fuel, es, visited).Out?
    ensures VisitEntries(t, more, es, visited) == VisitEntries(t, fuel, es, visited)
    decreases fuel, 1 + |es|
  {
    if es != [] {
      EntryMonotone(t, fuel, more, es[0], visited);
      EntriesMonotone(t, fuel, more, es[1..], VisitEntry(t, fuel, es[0], visited).visited);
    }
  }
}
