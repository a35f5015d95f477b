/** The walk as the program runs it: a visited map mutated on the way and a channel to send paths on. */
module Walking {
  import opened WalkSpec
  import opened WalkTermination

  class Channel {
    var sent: seq<string>

    constructor ()
      ensures sent == []
    {
      sent := [];
    }

    method Send(path: string)
      modifies this
      ensures sent == old(sent) + [path]
    {
      sent := sent + [path];
    }
  }

  /** One call of WalkAudioFiles: its visited map and the shared channel. */
  class Search {
    const tree: Tree
    const results: Channel
    var visited: set<string>

    constructor (tree: Tree, results: Channel)
      ensures this.tree == tree && this.results == results && visited == {}
    {
      this.tree, this.results, visited := tree, results, {};
    }

    /** The walk function called on one entry and, for a directory, on all below it. */
    method Visit(e: Entry, ghost fuel: nat)
      requires VisitEntry(tree, fuel, e, visited).Out?
      modifies this, results
      ensures var r := VisitEntry(tree, fuel, e, old(visited));
              visited == r.visited && results.sent == old(results.sent) + r.sent
      decreases fuel, 0
    {
      match e
      case Directory(d) =>
        if d !in visited {
          visited := visited + {d};
          VisitAll(tree.Entries(d), fuel - 1);
        }
      case RegularFile(p) => SendWanted(p);
      case Link(target) =>
        if tree.follow {
          match target
          case Broken =>
          case ToFile(p) => SendWanted(p);
          case ToDir(d) =>
            if d !in visited {
              visited := visited + {d};
              var nested := new Search(tree, results);
              nested.Visit(Directory(d), fuel - 1);
            }
        }
    }

    method SendWanted(p: string)
      modifies results
      ensures results.sent == old(results.sent) + if tree.wanted(p) then [p] else []
    {
      if tree.wanted(p) {
        results.Send(p);
      }
    }

    method VisitAll(es: seq<Entry>, ghost fuel: nat)
      requires VisitEntries(tree, fuel, es, visited).Out?
      modifies this, results
      ensures var r := VisitEntries(tree, fuel, es, old(visited));
              visited == r.visited && results.sent == old(results.sent) + r.sent
      decreases fuel, 1 + |es|
    {
      if es != [] {
        Visit(es[0], fuel);
        VisitAll(es[1..], fuel);
      }
    }
  }

  /** Unless fresh searches lead back to where they came from, WalkAudioFiles ends and sends exactly the audio
      files reachable from the root. */
  method WalkAudioFiles(tree: Tree, root: string, results: Channel)
    requires !FollowsBack(tree, root)
    modifies results
    ensures old(results.sent) <= results.sent
    ensures forall f :: f in results.sent[|old(results.sent)|..] <==> Reaches(tree, root, f)
  {
    WalkSendsReachable(tree, root);
    var search := new Search(tree, results);
    search.Visit(Directory(root), Enough(tree));
  }
}
