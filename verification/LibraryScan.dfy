/** The directory walk and the pipeline together: what a scan of a library root leaves in the song table. */
module LibraryScan {
  import opened MusicTables
  import opened SongMetadata
  import opened WalkSpec
  import opened ScanMachine
  import opened ScanConfluence

  /** A scan whose walk finishes, that is not cancelled and in which nothing fails: every audio file reachable
      from the root has its row final, and the rows of all other paths are as they were. */
  lemma ScanOfTree(t: Tree, root: string, fuel: nat, c: Config, db: Db, acts: seq<Action>)
    requires Walk(t, fuel, Directory(root)).Out? && c.paths == Walk(t, fuel, Directory(root)).sent
    requires forall p :: Reaches(t, root, p) ==> Readable(c, p)
    requires Integrity(db) && c.workers > 0
    requires CanRun(c, Init(c, db), acts) && AllFine(acts) && Run(c, Init(c, db), acts).main.Returned?
    ensures var before, after := MetaMap(db), MetaMap(Run(c, Init(c, db), acts).db);
            && (forall p :: Reaches(t, root, p) ==> p in after && after[p] == Final(c, before, p))
            && (forall p :: !Reaches(t, root, p) ==> Untouched(before, after, p))
  {
    WalkIsComplete(t, fuel, root);
    ScanSettles(c, db, acts);
    var before, after := MetaMap(db), MetaMap(Run(c, Init(c, db), acts).db);
    hide Final, Reaches, Run, CanRun, MetaMap, Integrity, Walk, Init, AllFine;
    assert TableAfter(c, before, after);
    forall p | Reaches(t, root, p) ensures p in after && after[p] == Final(c, before, p) {
      assert p in c.paths && Settled(c, before, after, p);
    }
  }
}
