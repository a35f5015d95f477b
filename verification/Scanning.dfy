/** One file's processing as the program runs it: a chain of store calls that may each fail, with early
    returns, against the steps of the scan's state machine. */
module Scanning {
  import opened Text
  import opened MusicTables
  import opened SongMetadata
  import opened MusicStoring
  import opened ScanMachine
  import opened ScanProtocol
  import opened ScanIntegrity

  /** A worker's steps on one file from program point pc to the end; `faults(k)` is how the k-th goes. */
  function Processed(c: Config, db: Db, p: string, pc: Pc, faults: nat -> Fault, k: nat, cover: Id): (Db, Result)
    decreases PcWeight(pc)
  {
    if pc.Ended? then (db, pc.result)
    else
      WorkAdvances(c, db, p, pc, faults(k), cover);
      var (db', pc') := Work(c, db, p, pc, faults(k), cover);
      Processed(c, db', p, pc', faults, k + 1, cover)
  }

  /** One step: the rest of the processing goes on from where it leads, with good ids in hand. */
  lemma Next(c: Config, db: Db, p: string, pc: Pc, faults: nat -> Fault, k: nat, cover: Id)
    requires !pc.Ended? && Integrity(db) && CarriedIdsExist(db, pc)
    ensures var (db', pc') := Work(c, db, p, pc, faults(k), cover);
            && Integrity(db') && CarriedIdsExist(db', pc')
            && Processed(c, db, p, pc, faults, k, cover) == Processed(c, db', p, pc', faults, k + 1, cover)
            && (pc'.Ended? ==> Processed(c, db, p, pc, faults, k, cover) == (db', pc'.result))
  {
    WorkKeepsIntegrity(c, db, p, pc, faults(k), cover);
    hide Work, Integrity, CarriedIdsExist;
  }

  lemma FirstStep(c: Config, db: Db, p: string, fault: Fault, cover: Id)
    ensures Work(c, db, p, Start, fault, cover) ==
            (db, match c.files(p)
                 case Unreadable => Ended(Skipped)
                 case File(mtime, _, tags) =>
                   if c.incremental && (!fault.Fine? || Unchanged(MetaMap(db), p, mtime)) then Ended(Skipped)
                   else if tags.Failed? then Ended(Errored)
                   else Chosen)
  {
    hide Unchanged, MetaMap;
  }

  lemma FirstArtist(c: Config, db: Db, p: string, t: Tags, fault: Fault, cover: Id)
    requires c.files(p).File? && c.files(p).tags == Done(t)
    ensures ArtistName(t) == OrElse(TrimSpace(t.artist), "Unknown Artist")
    ensures AlbumArtistName(t) == OrElse(TrimSpace(t.albumArtist), ArtistName(t))
    ensures var (db', id) := UpsertArtist(db, ScannedArtist(ArtistName(t), t.kept.mbArtistId));
            Work(c, db, p, Chosen, fault, cover) ==
            (if fault.Refused? then db else db',
             if !fault.Fine? then Ended(Errored)
             else if AlbumArtistName(t) != ArtistName(t) then HasArtist(id) else HasAlbumArtist(id, id))
  {
    hide UpsertArtist;
  }

  lemma SecondArtist(c: Config, db: Db, p: string, t: Tags, a: Id, fault: Fault, cover: Id)
    requires c.files(p).File? && c.files(p).tags == Done(t)
    ensures var (db', id) := UpsertArtist(db, ScannedArtist(AlbumArtistName(t), t.kept.mbAlbumArtistId));
            Work(c, db, p, HasArtist(a), fault, cover) ==
            (if fault.Refused? then db else db', if fault.Fine? then HasAlbumArtist(a, id) else Ended(Errored))
  {
    hide UpsertArtist;
  }

  lemma AlbumStep(c: Config, db: Db, p: string, t: Tags, a: Id, aa: Id, fault: Fault, cover: Id)
    requires c.files(p).File? && c.files(p).tags == Done(t)
    ensures var (db', r) := UpsertAlbum(db, ScannedAlbum(t, aa));
            Work(c, db, p, HasAlbumArtist(a, aa), fault, cover) ==
            (if fault.Refused? then db else db',
             if fault.Fine? && r.Done? then HasAlbum(a, aa, r.value) else Ended(Errored))
  {
    hide UpsertAlbum;
  }

  lemma SongStep(c: Config, db: Db, p: string, t: Tags, a: Id, aa: Id, al: Id, fault: Fault, cover: Id)
    requires c.files(p).File? && c.files(p).tags == Done(t)
    ensures var song := ScannedSong(c, c.files(p), t);
            Work(c, db, p, HasAlbum(a, aa, al), fault, cover) ==
            (if fault.Refused? then db else UpsertSong(db, p, song, Refs(a, aa, al, cover)).0,
             Ended(if fault.Fine? then Scanned else Errored))
  {
    hide UpsertSong;
  }

  lemma OneStep(c: Config, s: State, w: nat, fault: Fault, cover: Id)
    requires w < |s.workers| && s.workers[w].Running? && !s.workers[w].pc.Ended?
    ensures Enabled(c, s, DoWork(w, fault, cover))
    ensures var worker := s.workers[w];
            var (db', pc') := Work(c, s.db, worker.path, worker.pc, fault, cover);
            Apply(c, s, DoWork(w, fault, cover)) == s.(db := db', workers := s.workers[w := Running(worker.path, pc')])
  {
    hide Work;
  }

  lemma RunCons(c: Config, s: State, a: Action, rest: seq<Action>)
    requires Enabled(c, s, a) && CanRun(c, Apply(c, s, a), rest)
    ensures CanRun(c, s, [a] + rest) && Run(c, s, [a] + rest) == Run(c, Apply(c, s, a), rest)
  {
    hide Enabled, Apply;
    assert ([a] + rest)[1..] == rest;
  }

  /** The state once worker w has processed its file and nothing else has moved. */
  function Alone(c: Config, s: State, w: nat, faults: nat -> Fault, k: nat, cover: Id): State
    requires w < |s.workers| && s.workers[w].Running?
  {
    var worker := s.workers[w];
    var (db', r) := Processed(c, s.db, worker.path, worker.pc, faults, k, cover);
    s.(db := db', workers := s.workers[w := Running(worker.path, Ended(r))])
  }

  lemma AloneAtEnd(c: Config, s: State, w: nat, faults: nat -> Fault, k: nat, cover: Id)
    requires w < |s.workers| && s.workers[w].Running? && s.workers[w].pc.Ended?
    ensures Alone(c, s, w, faults, k, cover) == s
  {
    assert s.workers[w := s.workers[w]] == s.workers;
  }

  lemma AloneNext(c: Config, s: State, w: nat, faults: nat -> Fault, k: nat, cover: Id)
    requires w < |s.workers| && s.workers[w].Running? && !s.workers[w].pc.Ended?
    ensures Enabled(c, s, DoWork(w, faults(k), cover))
    ensures var next := Apply(c, s, DoWork(w, faults(k), cover));
            && |next.workers| == |s.workers| && next.workers[w].Running?
            && PcWeight(next.workers[w].pc) < PcWeight(s.workers[w].pc)
            && Alone(c, s, w, faults, k, cover) == Alone(c, next, w, faults, k + 1, cover)
  {
    hide Work, Enabled, Apply, PcWeight;
    var worker := s.workers[w];
    WorkAdvances(c, s.db, worker.path, worker.pc, faults(k), cover);
    OneStep(c, s, w, faults(k), cover);
    var worked := Work(c, s.db, worker.path, worker.pc, faults(k), cover);
    assert Processed(c, s.db, worker.path, worker.pc, faults, k, cover)
        == Processed(c, worked.0, worker.path, worked.1, faults, k + 1, cover);
  }

  /** A worker left alone in the state machine does exactly this: its steps, one after another, lead to the
      processed store and leave everything but the store and that worker as it was. */
  lemma {:induction false} WorkerRunsAlone(c: Config, s: State, w: nat, faults: nat -> Fault, k: nat, cover: Id)
    returns (acts: seq<Action>)
    requires w < |s.workers| && s.workers[w].Running?
    ensures CanRun(c, s, acts) && forall i :: 0 <= i < |acts| ==> acts[i].DoWork? && acts[i].w == w
    ensures Run(c, s, acts) == Alone(c, s, w, faults, k, cover)
    decreases PcWeight(s.workers[w].pc)
  {
    if s.workers[w].pc.Ended? {
      acts := [];
      AloneAtEnd(c, s, w, faults, k, cover);
    } else {
      hide Alone, Enabled, Apply, Run, CanRun, PcWeight;
      AloneNext(c, s, w, faults, k, cover);
      var a := DoWork(w, faults(k), cover);
      var rest := WorkerRunsAlone(c, Apply(c, s, a), w, faults, k + 1, cover);
      RunCons(c, s, a, rest);
      acts := [a] + rest;
    }
  }

  class Scanner {
    const config: Config
    const store: MusicStore
    var scanned: nat
    var errors: nat

    constructor (config: Config, store: MusicStore)
      ensures this.config == config && this.store == store && scanned == 0 && errors == 0
    {
      this.config := config;
      this.store := store;
      scanned, errors := 0, 0;
    }

    /** The incremental mode's lookup: true when the file is to be left alone. */
    method LeftAlone(path: string, mtime: int, fault: Fault) returns (skip: bool)
      requires Integrity(store.View())
      ensures skip == (config.incremental && (!fault.Fine? || Unchanged(MetaMap(store.View()), path, mtime)))
    {
      if !config.incremental {
        return false;
      }
      if !fault.Fine? {
        return true;
      }
      if path !in store.songIndex {
        return false;
      }
      var diff := store.songs[store.songIndex[path]].meta.plain.lastModified - mtime;
      if diff < 0 {
        diff := -diff;
      }
      return diff <= SECOND;
    }

    /** A store call's artist id, or Failed; the row may be written all the same. */
    method UpsertArtistNamed(name: string, mbid: string, fault: Fault) returns (r: Outcome<Id>)
      requires Integrity(store.View())
      modifies store
      ensures var (db', id) := UpsertArtist(old(store.View()), ScannedArtist(name, mbid));
              && store.View() == (if fault.Refused? then old(store.View()) else db')
              && r == (if fault.Fine? then Done(id) else Failed)
      ensures Integrity(store.View())
    {
      if fault.Refused? {
        return Failed;
      }
      var id := store.UpsertArtistRow(ScannedArtist(name, mbid));
      if fault.Lost? {
        return Failed;
      }
      return Done(id);
    }

    method UpsertAlbumOf(t: Tags, artistId: Id, fault: Fault) returns (r: Outcome<Id>)
      requires Integrity(store.View())
      modifies store
      ensures var (db', done) := UpsertAlbum(old(store.View()), ScannedAlbum(t, artistId));
              && store.View() == (if fault.Refused? then old(store.View()) else db')
              && r == (if fault.Fine? then done else Failed)
    {
      if fault.Refused? {
        return Failed;
      }
      r := store.UpsertAlbumRow(ScannedAlbum(t, artistId));
      if fault.Lost? {
        return Failed;
      }
    }

    method UpsertSongAt(path: string, meta: Meta, refs: Refs, fault: Fault) returns (ok: bool)
      requires Integrity(store.View())
      modifies store
      ensures store.View() == if fault.Refused? then old(store.View()) else UpsertSong(old(store.View()), path, meta, refs).0
      ensures ok == fault.Fine?
    {
      if fault.Refused? {
        return false;
      }
      var _ := store.UpsertSongRow(path, meta, refs);
      return !fault.Lost?;
    }

    /** The store calls of processFile, in order; the first failure ends them. */
    method StoreFile(path: string, f: File, t: Tags, faults: nat -> Fault, cover: Id) returns (r: Result)
      requires Integrity(store.View())
      requires config.files(path) == f && f.File? && f.tags == Done(t)
      modifies store
      ensures (store.View(), r) == Processed(config, old(store.View()), path, Chosen, faults, 1, cover)
      ensures Integrity(store.View())
    {
      assert CarriedIdsExist(store.View(), Chosen);
      hide *;
      var k := 1;
      var artistName := OrElse(TrimSpace(t.artist), "Unknown Artist");
      var albumArtistName := OrElse(TrimSpace(t.albumArtist), artistName);
      Next(config, store.View(), path, Chosen, faults, k, cover);
      FirstArtist(config, store.View(), path, t, faults(k), cover);
      var a := UpsertArtistNamed(artistName, t.kept.mbArtistId, faults(k));
      k := k + 1;
      if a.Failed? {
        return Errored;
      }
      var albumArtist := a.value;
      if albumArtistName != artistName {
        Next(config, store.View(), path, HasArtist(a.value), faults, k, cover);
        SecondArtist(config, store.View(), path, t, a.value, faults(k), cover);
        var aa := UpsertArtistNamed(albumArtistName, t.kept.mbAlbumArtistId, faults(k));
        k := k + 1;
        if aa.Failed? {
          return Errored;
        }
        albumArtist := aa.value;
      }
      Next(config, store.View(), path, HasAlbumArtist(a.value, albumArtist), faults, k, cover);
      AlbumStep(config, store.View(), path, t, a.value, albumArtist, faults(k), cover);
      var al := UpsertAlbumOf(t, albumArtist, faults(k));
      k := k + 1;
      if al.Failed? {
        return Errored;
      }
      Next(config, store.View(), path, HasAlbum(a.value, albumArtist, al.value), faults, k, cover);
      SongStep(config, store.View(), path, t, a.value, albumArtist, al.value, faults(k), cover);
      var ok := UpsertSongAt(path, ScannedSong(config, f, t), Refs(a.value, albumArtist, al.value, cover), faults(k));
      r := if ok then Scanned else Errored;
    }

    /** processFile: stat, the incremental test, the tags, the store calls, and the counters. */
    method ProcessFile(path: string, faults: nat -> Fault, cover: Id)
      requires Integrity(store.View())
      modifies store, this`scanned, this`errors
      ensures var (db', r) := Processed(config, old(store.View()), path, Start, faults, 0, cover);
              && store.View() == db'
              && scanned == old(scanned) + (if r.Scanned? then 1 else 0)
              && errors == old(errors) + (if r.Errored? then 1 else 0)
      ensures Integrity(store.View())
    {
      Next(config, store.View(), path, Start, faults, 0, cover);
      hide *;
      FirstStep(config, store.View(), path, faults(0), cover);
      match config.files(path) {
        case Unreadable =>
        case File(mtime, _, tags) =>
          var skip := LeftAlone(path, mtime, faults(0));
          if skip {
            return;
          }
          if tags.Failed? {
            errors := errors + 1;
            return;
          }
          var r := StoreFile(path, config.files(path), tags.value, faults, cover);
          match r {
            case Scanned => scanned := scanned + 1;
            case Errored => errors := errors + 1;
            case Skipped =>
          }
      }
    }
  }
}
