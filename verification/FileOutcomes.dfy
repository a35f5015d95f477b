/** What processing one file comes to: when it is skipped, when it is an error, and what a success stores. */
module FileOutcomes {
  import opened Text
  import opened MusicTables
  import opened SongMetadata
  import opened ScanMachine
  import opened ScanProtocol
  import opened ScanIntegrity
  import opened ScanConfluence
  import opened ScanIncremental
  import opened Scanning

  /** The album's artist has a name of its own. */
  predicate TwoArtists(t: Tags) {
    var artist := if TrimSpace(t.artist) == "" then "Unknown Artist" else TrimSpace(t.artist);
    TrimSpace(t.albumArtist) != "" && TrimSpace(t.albumArtist) != artist
  }

  /** None of the store calls that are made fails: there are three, or four where two artists are named. */
  predicate CallsSucceed(t: Tags, faults: nat -> Fault) {
    faults(1).Fine? && faults(2).Fine? && faults(3).Fine? && (TwoArtists(t) ==> faults(4).Fine?)
  }

  /** The incremental test ends the processing before the tags are read: the lookup fails, or it finds a row whose
      time is within a second of the file's. */
  predicate EndsEarly(c: Config, db: Db, p: string, lookup: Fault)
    requires c.files(p).File?
  {
    c.incremental && (!lookup.Fine? || (p in MetaMap(db) && Near(MetaMap(db)[p].plain.lastModified, c.files(p).mtime)))
  }

  lemma EarlyIff(c: Config, db: Db, p: string, lookup: Fault)
    requires c.files(p).File?
    ensures EndsEarly(c, db, p, lookup) <==>
            c.incremental && (!lookup.Fine? || Unchanged(MetaMap(db), p, c.files(p).mtime))
  {
  }

  /** From the first step on: the step decides, or the upserts follow. */
  lemma FromStart(c: Config, db: Db, p: string, faults: nat -> Fault, cover: Id)
    requires Integrity(db)
    ensures Processed(c, db, p, Start, faults, 0, cover) ==
            match c.files(p)
            case Unreadable => (db, Skipped)
            case File(_, _, tags) =>
              if EndsEarly(c, db, p, faults(0)) then (db, Skipped)
              else if tags.Failed? then (db, Errored)
              else Processed(c, db, p, Chosen, faults, 1, cover)
  {
    Next(c, db, p, Start, faults, 0, cover);
    FirstStep(c, db, p, faults(0), cover);
    if c.files(p).File? {
      EarlyIff(c, db, p, faults(0));
    }
    hide *;
  }

  /** What a success has stored, from the trimmed names with their defaults: the artist, the album's artist where
      it has another name, the album and the song. */
  ghost predicate FileStored(c: Config, db: Db, p: string, cover: Id, end: Db)
    requires c.files(p).File? && c.files(p).tags.Done?
  {
    var f, t := c.files(p), c.files(p).tags.value;
    exists artist: string, albumArtist: string, album: string, title: string ::
      && Names(t.artist, "Unknown Artist", artist)
      && Names(t.albumArtist, artist, albumArtist)
      && Names(t.album, "Unknown Album", album)
      && Names(t.kept.title, f.stem, title)
      && StoredInSteps(c, db, p, cover, t, artist, albumArtist, album, title, end)
  }

  ghost predicate StoredInSteps(c: Config, db: Db, p: string, cover: Id, t: Tags,
                                artist: string, albumArtist: string, album: string, title: string, end: Db)
    requires c.files(p).File?
  {
    var (db1, a) := UpsertArtist(db, Artist(artist, "", 0, 0, 0, "", t.kept.mbArtistId, false));
    var (db2, aa) :=
      if albumArtist == artist then (db1, a)
      else UpsertArtist(db1, Artist(albumArtist, "", 0, 0, 0, "", t.kept.mbAlbumArtistId, false));
    var (db3, al) :=
      UpsertAlbum(db2, Album(album, "", aa, albumArtist, t.plain.year, t.kept.genre, 0, 0, 0, t.kept.mbAlbumId, false));
    && al.Done?
    && exists plain ::
         && PlainFromFile(c.libraryId, c.files(p).mtime, t, plain)
         && plain.artistName == artist && plain.albumArtistName == albumArtist && plain.albumName == album
         && end == UpsertSong(db3, p, Meta(t.kept.(title := title), plain, false), Refs(a, aa, al.value, cover)).0
  }

  /** A call that fails ends the processing with an error. */
  lemma FailureEnds(c: Config, db: Db, p: string, pc: Pc, faults: nat -> Fault, k: nat, cover: Id)
    requires Integrity(db) && CarriedIdsExist(db, pc) && c.files(p).File? && c.files(p).tags.Done?
    requires !pc.Ended? && !pc.Start? && !faults(k).Fine?
    ensures Processed(c, db, p, pc, faults, k, cover).1 == Errored
  {
    Next(c, db, p, pc, faults, k, cover);
    hide Upserts, Processed, Integrity;
  }

  /** The last two calls. */
  lemma AlbumAndSong(c: Config, db: Db, p: string, t: Tags, a: Id, aa: Id, faults: nat -> Fault, k: nat, cover: Id)
    requires Integrity(db) && CarriedIdsExist(db, HasAlbumArtist(a, aa))
    requires c.files(p).File? && c.files(p).tags == Done(t)
    ensures var (db', al) := UpsertAlbum(db, ScannedAlbum(t, aa));
            var (end, r) := Processed(c, db, p, HasAlbumArtist(a, aa), faults, k, cover);
            && al.Done?
            && if faults(k).Fine? && faults(k + 1).Fine?
               then (end, r) == (UpsertSong(db', p, ScannedSong(c, c.files(p), t), Refs(a, aa, al.value, cover)).0, Scanned)
               else r == Errored
  {
    UpsertAlbumKeepsIntegrity(db, ScannedAlbum(t, aa));
    hide *;
    if faults(k).Fine? {
      Next(c, db, p, HasAlbumArtist(a, aa), faults, k, cover);
      AlbumStep(c, db, p, t, a, aa, faults(k), cover);
      var (db', al) := UpsertAlbum(db, ScannedAlbum(t, aa));
      Next(c, db', p, HasAlbum(a, aa, al.value), faults, k + 1, cover);
      SongStep(c, db', p, t, a, aa, al.value, faults(k + 1), cover);
    } else {
      FailureEnds(c, db, p, HasAlbumArtist(a, aa), faults, k, cover);
    }
  }

  /** What the calls come to: the rows stored if they all succeed, an error otherwise. */
  ghost predicate Outcome(c: Config, db: Db, p: string, cover: Id, t: Tags, done: (Db, Result), success: bool)
    requires c.files(p).File?
  {
    if success then
      done.1 == Scanned && StoredInSteps(c, db, p, cover, t, ArtistName(t), AlbumArtistName(t), AlbumName(t),
                                         OrElse(TrimSpace(t.kept.title), c.files(p).stem), done.0)
    else done.1 == Errored
  }

  lemma OneArtist(c: Config, db: Db, p: string, t: Tags, db1: Db, a: Id, faults: nat -> Fault, cover: Id)
    requires Integrity(db1) && CarriedIdsExist(db1, HasAlbumArtist(a, a))
    requires c.files(p).File? && c.files(p).tags == Done(t) && AlbumArtistName(t) == ArtistName(t)
    requires (db1, a) == UpsertArtist(db, ScannedArtist(ArtistName(t), t.kept.mbArtistId))
    ensures Outcome(c, db, p, cover, t, Processed(c, db1, p, HasAlbumArtist(a, a), faults, 2, cover),
                    faults(2).Fine? && faults(3).Fine?)
  {
    AlbumAndSong(c, db1, p, t, a, a, faults, 2, cover);
    if faults(2).Fine? && faults(3).Fine? {
      InSteps(c, db, p, cover, t, db1, a, db1, a, Processed(c, db1, p, HasAlbumArtist(a, a), faults, 2, cover).0);
    }
    hide Processed, Integrity, StoredInSteps, ArtistName, AlbumArtistName, AlbumName;
    hide UpsertArtist, UpsertAlbum, UpsertSong;
  }

  lemma OtherArtist(c: Config, db: Db, p: string, t: Tags, db1: Db, a: Id, faults: nat -> Fault, cover: Id)
    requires Integrity(db1) && CarriedIdsExist(db1, HasArtist(a))
    requires c.files(p).File? && c.files(p).tags == Done(t) && AlbumArtistName(t) != ArtistName(t)
    requires (db1, a) == UpsertArtist(db, ScannedArtist(ArtistName(t), t.kept.mbArtistId))
    ensures Outcome(c, db, p, cover, t, Processed(c, db1, p, HasArtist(a), faults, 2, cover),
                    faults(2).Fine? && faults(3).Fine? && faults(4).Fine?)
  {
    hide Processed, Integrity, StoredInSteps, ArtistName, AlbumArtistName, AlbumName;
    hide UpsertArtist, UpsertAlbum, UpsertSong;
    hide CarriedIdsExist, Work;
    if faults(2).Fine? {
      var (db2, aa) := UpsertArtist(db1, ScannedArtist(AlbumArtistName(t), t.kept.mbAlbumArtistId));
      Next(c, db1, p, HasArtist(a), faults, 2, cover);
      SecondArtist(c, db1, p, t, a, faults(2), cover);
      AlbumAndSong(c, db2, p, t, a, aa, faults, 3, cover);
      if faults(3).Fine? && faults(4).Fine? {
        InSteps(c, db, p, cover, t, db1, a, db2, aa, Processed(c, db2, p, HasAlbumArtist(a, aa), faults, 3, cover).0);
      }
    } else {
      FailureEnds(c, db1, p, HasArtist(a), faults, 2, cover);
    }
  }

  lemma TwoArtistsIff(t: Tags)
    ensures TwoArtists(t) <==> AlbumArtistName(t) != ArtistName(t)
  {
    hide TrimSpace;
  }

  lemma CallsFollow(c: Config, db: Db, p: string, t: Tags, faults: nat -> Fault, cover: Id)
    requires Integrity(db) && c.files(p).File? && c.files(p).tags == Done(t)
    ensures Outcome(c, db, p, cover, t, Processed(c, db, p, Chosen, faults, 1, cover), CallsSucceed(t, faults))
  {
    Starts(db);
    TwoArtistsIff(t);
    hide TwoArtists, AlbumArtistName, ArtistName, AlbumName, Processed, Integrity, StoredInSteps, UpsertArtist, Work;
    hide CarriedIdsExist;
    var (db1, a) := UpsertArtist(db, ScannedArtist(ArtistName(t), t.kept.mbArtistId));
    if !faults(1).Fine? {
      FailureEnds(c, db, p, Chosen, faults, 1, cover);
    } else {
      Next(c, db, p, Chosen, faults, 1, cover);
      FirstArtist(c, db, p, t, faults(1), cover);
      if AlbumArtistName(t) == ArtistName(t) {
        OneArtist(c, db, p, t, db1, a, faults, cover);
      } else {
        OtherArtist(c, db, p, t, db1, a, faults, cover);
      }
    }
  }

  lemma Starts(db: Db)
    ensures CarriedIdsExist(db, Chosen)
  {
  }

  lemma InSteps(c: Config, db: Db, p: string, cover: Id, t: Tags, db1: Db, a: Id, db2: Db, aa: Id, end: Db)
    requires c.files(p).File? && c.files(p).tags == Done(t)
    requires (db1, a) == UpsertArtist(db, ScannedArtist(ArtistName(t), t.kept.mbArtistId))
    requires (db2, aa) == if AlbumArtistName(t) == ArtistName(t) then (db1, a)
                          else UpsertArtist(db1, ScannedArtist(AlbumArtistName(t), t.kept.mbAlbumArtistId))
    requires var (db3, al) := UpsertAlbum(db2, ScannedAlbum(t, aa));
             al.Done? && end == UpsertSong(db3, p, ScannedSong(c, c.files(p), t), Refs(a, aa, al.value, cover)).0
    ensures StoredInSteps(c, db, p, cover, t, ArtistName(t), AlbumArtistName(t), AlbumName(t),
                          OrElse(TrimSpace(t.kept.title), c.files(p).stem), end)
  {
    IncomingPlain(c, p);
    hide UpsertArtist, UpsertAlbum, UpsertSong, PlainFromFile, ArtistName, AlbumArtistName, AlbumName, TrimSpace;
    assert PlainFromFile(c.libraryId, c.files(p).mtime, t, ScannedSong(c, c.files(p), t).plain);
  }

  /** One file, from the beginning. A file that cannot be read is skipped, and so is one that the incremental test
      leaves alone; tags that cannot be read are an error; none of these touches the store. Otherwise the file is
      scanned, and what it names is stored, if no store call fails; and it is an error if one does. */
  lemma OutcomeMeaning(c: Config, db: Db, p: string, faults: nat -> Fault, cover: Id)
    requires Integrity(db)
    ensures var (end, r) := Processed(c, db, p, Start, faults, 0, cover);
            match c.files(p)
            case Unreadable => r == Skipped && end == db
            case File(_, _, tags) =>
              if EndsEarly(c, db, p, faults(0)) then r == Skipped && end == db
              else if tags.Failed? then r == Errored && end == db
              else if CallsSucceed(tags.value, faults) then r == Scanned && FileStored(c, db, p, cover, end)
              else r == Errored
  {
    FromStart(c, db, p, faults, cover);
    if c.files(p).File? && c.files(p).tags.Done? {
      var t := c.files(p).tags.value;
      CallsFollow(c, db, p, t, faults, cover);
      OutcomeIsStored(c, db, p, cover, Processed(c, db, p, Chosen, faults, 1, cover), CallsSucceed(t, faults));
    }
    hide *;
  }

  lemma OutcomeIsStored(c: Config, db: Db, p: string, cover: Id, done: (Db, Result), success: bool)
    requires c.files(p).File? && c.files(p).tags.Done? && Outcome(c, db, p, cover, c.files(p).tags.value, done, success)
    ensures if success then done.1 == Scanned && FileStored(c, db, p, cover, done.0) else done.1 == Errored
  {
    hide StoredInSteps, TrimSpace;
    var t := c.files(p).tags.value;
    assert Names(t.artist, "Unknown Artist", ArtistName(t)) && Names(t.albumArtist, ArtistName(t), AlbumArtistName(t));
  }
}
