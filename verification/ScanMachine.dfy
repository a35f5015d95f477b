/** One library scan as interleaved steps: a walker, a forwarder and a pool of workers joined by two
    bounded channels, the caller waiting for them, a cancellation that may come at any time, and the
    store the workers write to. */
module ScanMachine {
  import opened Text
  import opened MusicTables
  import opened SongMetadata

  const SECOND: int := 1_000_000_000

  /** What the tag reader returns; names are still untrimmed. */
  datatype Tags = Tags(artist: string, albumArtist: string, album: string, kept: Protected, plain: Plain)

  /** A path's file: it may fail to stat, and its tags may fail to parse. The contents never change during a
      scan. `stem` is the base name without its extension. */
  datatype File = Unreadable | File(mtime: int, stem: string, tags: Outcome<Tags>)

  datatype Config = Config(workers: nat, libraryId: Id, incremental: bool, paths: seq<string>, files: string -> File)
  {
    /** Both channels hold four entries a worker. */
    function Capacity(): nat { 4 * workers }
  }

  // ----- what a file says

  function OrElse(s: string, default: string): string {
    if s == "" then default else s
  }

  function ArtistName(t: Tags): string { OrElse(TrimSpace(t.artist), "Unknown Artist") }
  function AlbumArtistName(t: Tags): string { OrElse(TrimSpace(t.albumArtist), ArtistName(t)) }
  function AlbumName(t: Tags): string { OrElse(TrimSpace(t.album), "Unknown Album") }

  function ScannedArtist(name: string, mbid: string): Artist {
    Artist(name, "", 0, 0, 0, "", mbid, false)
  }

  function ScannedAlbum(t: Tags, artistId: Id): Album {
    Album(AlbumName(t), "", artistId, AlbumArtistName(t), t.plain.year, t.kept.genre, 0, 0, 0, t.kept.mbAlbumId, false)
  }

  /** The modification time as stored: cut to whole seconds. */
  function StoredTime(mtime: int): int {
    mtime - mtime % SECOND
  }

  function ScannedSong(c: Config, f: File, t: Tags): Meta
    requires f.File?
  {
    Meta(t.kept.(title := OrElse(TrimSpace(t.kept.title), f.stem)),
         t.plain.(libraryId := c.libraryId, sortTitle := "", artistName := ArtistName(t),
                  albumArtistName := AlbumArtistName(t), albumName := AlbumName(t),
                  lastModified := StoredTime(f.mtime)),
         false)
  }

  /** The incremental mode's test: a row exists whose time is within a second of the file's. */
  function Unchanged(mm: map<string, Meta>, p: string, mtime: int): bool {
    p in mm &&
    var diff := mm[p].plain.lastModified - mtime;
    (if diff < 0 then -diff else diff) <= SECOND
  }

  // ----- one file's processing, statement by statement

  datatype Result = Scanned | Errored | Skipped

  datatype Pc =
    | Start
    | Chosen
    | HasArtist(artist: Id)
    | HasAlbumArtist(artist: Id, albumArtist: Id)
    | HasAlbum(artist: Id, albumArtist: Id, album: Id)
    | Ended(result: Result)

  /** How a store statement goes: as meant, refused without effect, or done but reported as an error. */
  datatype Fault = Fine | Refused | Lost

  function AfterFault(db: Db, done: (Db, Pc), fault: Fault): (Db, Pc) {
    match fault
    case Fine => done
    case Refused => (db, Ended(Errored))
    case Lost => (done.0, Ended(Errored))
  }

  /** The upserts of processFile. `cover` is the id the cover art upsert gave, or 0. */
  function Upserts(c: Config, db: Db, p: string, f: File, t: Tags, pc: Pc, cover: Id): (Db, Pc)
    requires f.File?
  {
    match pc
    case Chosen =>
      var (db', id) := UpsertArtist(db, ScannedArtist(ArtistName(t), t.kept.mbArtistId));
      (db', if AlbumArtistName(t) != ArtistName(t) then HasArtist(id) else HasAlbumArtist(id, id))
    case HasArtist(a) =>
      var (db', id) := UpsertArtist(db, ScannedArtist(AlbumArtistName(t), t.kept.mbAlbumArtistId));
      (db', HasAlbumArtist(a, id))
    case HasAlbumArtist(a, aa) =>
      var (db', r) := UpsertAlbum(db, ScannedAlbum(t, aa));
      (db', if r.Done? then HasAlbum(a, aa, r.value) else Ended(Errored))
    case HasAlbum(a, aa, al) =>
      (UpsertSong(db, p, ScannedSong(c, f, t), Refs(a, aa, al, cover)).0, Ended(Scanned))
    case _ => (db, pc)
  }

  /** The first part of processFile: stat, the incremental test, the tags. */
  function Choose(c: Config, mm: map<string, Meta>, p: string, fault: Fault): Pc {
    match c.files(p)
    case Unreadable => Ended(Skipped)
    case File(mtime, _, tags) =>
      if c.incremental && (!fault.Fine? || Unchanged(mm, p, mtime)) then Ended(Skipped)
      else if tags.Failed? then Ended(Errored)
      else Chosen
  }

  /** One step of processFile: at most one store statement. */
  function Work(c: Config, db: Db, p: string, pc: Pc, fault: Fault, cover: Id): (Db, Pc) {
    var f := c.files(p);
    if pc.Start? then (db, Choose(c, MetaMap(db), p, fault))
    else if f.File? && f.tags.Done? then AfterFault(db, Upserts(c, db, p, f, f.tags.value, pc, cover), fault)
    else (db, Ended(Errored))
  }

  // ----- the pipeline

  /** The walker looks at the context before each entry (`checked`) and again while it sends. `err` is what
      the walk returned; results is closed once the walker is Gone. */
  datatype Walker = Emitting(rest: seq<string>, checked: bool) | Reporting(err: bool) | Closing(err: bool) | Gone(err: bool)

  /** jobs is closed once the forwarder is Over. */
  datatype Forwarder = Ready | Holding(path: string) | Over

  datatype Worker = Waiting | Picked(path: string) | Running(path: string, pc: Pc) | Exited

  datatype Main = Pooling | AwaitingWalk | Returned(ok: bool)

  datatype State = State(
    walker: Walker, results: seq<string>, forwarder: Forwarder, jobs: seq<string>, workers: seq<Worker>,
    main: Main, cancelled: bool,
    walked: seq<string>, finished: seq<string>, dropped: seq<string>,
    scanned: nat, errors: nat, skipped: nat,
    db: Db)

  datatype Action =
    | WalkCheck | WalkSend | WalkCancelled | WalkEnd | WalkReport | WalkClose
    | Receive | Enqueue | CloseJobs
    | Take(w: nat) | Quit(w: nat) | Drop(w: nat) | Begin(w: nat) | DoWork(w: nat, fault: Fault, cover: Id) | Finish(w: nat)
    | Join | Return(ok: bool)
    | Cancel

  function Init(c: Config, db: Db): State {
    State(Emitting(c.paths, false), [], Ready, [], seq(c.workers, _ => Waiting), Pooling, false, [], [], [], 0, 0, 0, db)
  }

  predicate AllExited(ws: seq<Worker>) {
    forall i :: 0 <= i < |ws| ==> ws[i].Exited?
  }

  predicate Enabled(c: Config, s: State, a: Action) {
    match a
    case WalkCheck => s.walker.Emitting? && s.walker.rest != [] && !s.walker.checked && !s.cancelled
    case WalkSend => s.walker.Emitting? && s.walker.rest != [] && s.walker.checked && |s.results| < c.Capacity()
    case WalkCancelled => s.walker.Emitting? && s.cancelled
    case WalkEnd => s.walker.Emitting? && s.walker.rest == []
    case WalkReport => s.walker.Reporting?
    case WalkClose => s.walker.Closing?
    case Receive => s.forwarder.Ready? && s.results != []
    case Enqueue => s.forwarder.Holding? && |s.jobs| < c.Capacity()
    case CloseJobs => s.forwarder.Ready? && s.results == [] && s.walker.Gone?
    case Take(w) => w < |s.workers| && s.workers[w].Waiting? && s.jobs != []
    case Quit(w) => w < |s.workers| && s.workers[w].Waiting? && s.jobs == [] && s.forwarder.Over?
    case Drop(w) => w < |s.workers| && s.workers[w].Picked? && s.cancelled
    case Begin(w) => w < |s.workers| && s.workers[w].Picked? && !s.cancelled
    case DoWork(w, _, _) => w < |s.workers| && s.workers[w].Running? && !s.workers[w].pc.Ended?
    case Finish(w) => w < |s.workers| && s.workers[w].Running? && s.workers[w].pc.Ended?
    case Join => s.main.Pooling? && AllExited(s.workers)
    case Return(ok) => s.main.AwaitingWalk? && (s.walker.Closing? || s.walker.Gone?) && (s.walker.err ==> !ok)
    case Cancel => !s.cancelled
  }

  function Apply(c: Config, s: State, a: Action): State
    requires Enabled(c, s, a)
  {
    match a
    case WalkCheck => s.(walker := Emitting(s.walker.rest, true))
    case WalkSend =>
      s.(walker := Emitting(s.walker.rest[1..], false), results := s.results + [s.walker.rest[0]],
         walked := s.walked + [s.walker.rest[0]])
    case WalkCancelled => s.(walker := Reporting(true))
    case WalkEnd => s.(walker := Reporting(false))
    case WalkReport => s.(walker := Closing(s.walker.err))
    case WalkClose => s.(walker := Gone(s.walker.err))
    case Receive => s.(forwarder := Holding(s.results[0]), results := s.results[1..])
    case Enqueue => s.(forwarder := Ready, jobs := s.jobs + [s.forwarder.path])
    case CloseJobs => s.(forwarder := Over)
    case Take(w) => s.(workers := s.workers[w := Picked(s.jobs[0])], jobs := s.jobs[1..])
    case Quit(w) => s.(workers := s.workers[w := Exited])
    case Drop(w) => s.(workers := s.workers[w := Exited], dropped := s.dropped + [s.workers[w].path])
    case Begin(w) => s.(workers := s.workers[w := Running(s.workers[w].path, Start)])
    case DoWork(w, fault, cover) =>
      var p := s.workers[w].path;
      var (db', pc') := Work(c, s.db, p, s.workers[w].pc, fault, cover);
      s.(workers := s.workers[w := Running(p, pc')], db := db')
    case Finish(w) =>
      var r := s.workers[w].pc.result;
      s.(workers := s.workers[w := Waiting], finished := s.finished + [s.workers[w].path],
         scanned := s.scanned + if r.Scanned? then 1 else 0,
         errors := s.errors + if r.Errored? then 1 else 0,
         skipped := s.skipped + if r.Skipped? then 1 else 0)
    case Join => s.(main := AwaitingWalk)
    case Return(ok) => s.(main := Returned(ok))
    case Cancel => s.(cancelled := true)
  }

  predicate CanRun(c: Config, s: State, acts: seq<Action>)
    decreases |acts|
  {
    acts == [] || (Enabled(c, s, acts[0]) && CanRun(c, Apply(c, s, acts[0]), acts[1..]))
  }

  function Run(c: Config, s: State, acts: seq<Action>): State
    requires CanRun(c, s, acts)
    decreases |acts|
  {
    if acts == [] then s else Run(c, Apply(c, s, acts[0]), acts[1..])
  }
}
