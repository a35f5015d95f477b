/** What repeated upserts leave in the song table: protection of edited fields, idempotence, and the
    independence of different paths. */
module SongMetadata {
  import opened MusicTables

  /** The metadata stored for each path. */
  function MetaMap(db: Db): map<string, Meta> {
    MetaOf(db.songs, db.songIndex)
  }

  function MetaOf(songs: map<Id, Song>, index: map<string, Id>): map<string, Meta> {
    map p | p in index && index[p] in songs :: songs[index[p]].meta
  }

  /** An upsert seen on metadata alone. */
  function Put(mm: map<string, Meta>, p: string, m: Meta): map<string, Meta> {
    mm[p := if p in mm then MergeMeta(mm[p], m) else m]
  }

  lemma WriteRow(songs: map<Id, Song>, index: map<string, Id>, next: Id, id: Id, row: Song, p: string)
    requires Indexed(songs, index, next, SongKey) && row.path == p
    requires if p in index then id == index[p] else id == next
    ensures MetaOf(songs[id := row], index[p := id]) == MetaOf(songs, index)[p := row.meta]
  {
    assert forall q :: q in index && q != p ==> index[q] != id;
  }

  /** The song upsert touches the metadata of its own path only, and merges there. */
  lemma UpsertSongPuts(db: Db, p: string, m: Meta, refs: Refs)
    requires Indexed(db.songs, db.songIndex, db.nextSong, SongKey)
    ensures MetaMap(UpsertSong(db, p, m, refs).0) == Put(MetaMap(db), p, m)
  {
    hide MergeMeta;
    var db' := UpsertSong(db, p, m, refs).0;
    var id := if p in db.songIndex then db.songIndex[p] else db.nextSong;
    WriteRow(db.songs, db.songIndex, db.nextSong, id, db'.songs[id], p);
    assert p in db.songIndex ==> db.songIndex[p := id] == db.songIndex;
  }

  lemma MergeTwice(x: Meta, m: Meta)
    ensures MergeMeta(m, m) == m
    ensures MergeMeta(MergeMeta(x, m), m) == MergeMeta(x, m)
  {
  }

  /** Processing a path twice is processing it once. */
  lemma PutIdempotent(mm: map<string, Meta>, p: string, m: Meta)
    ensures Put(Put(mm, p, m), p, m) == Put(mm, p, m)
  {
    MergeTwice(if p in mm then mm[p] else m, m);
  }

  /** Upserts on different paths commute. */
  lemma PutsCommute(mm: map<string, Meta>, p: string, m: Meta, q: string, n: Meta)
    requires p != q
    ensures Put(Put(mm, p, m), q, n) == Put(Put(mm, q, n), p, m)
  {
  }

  // ----- user edits

  datatype Field = Title | Genre | MbTrackId | MbAlbumId | MbAlbumArtistId | MbArtistId | Composer | Comment | Lyrics

  function Get(p: Protected, f: Field): string {
    match f
    case Title => p.title
    case Genre => p.genre
    case MbTrackId => p.mbTrackId
    case MbAlbumId => p.mbAlbumId
    case MbAlbumArtistId => p.mbAlbumArtistId
    case MbArtistId => p.mbArtistId
    case Composer => p.composer
    case Comment => p.comment
    case Lyrics => p.lyrics
  }

  /** Incoming versions of one song, applied in order. */
  function MergeAll(x: Meta, ms: seq<Meta>): Meta
    decreases |ms|
  {
    if ms == [] then x else MergeAll(MergeMeta(x, ms[0]), ms[1..])
  }

  function FirstNonEmpty(current: string, ms: seq<Meta>, f: Field): string
    decreases |ms|
  {
    if current != "" || ms == [] then current else FirstNonEmpty(Get(ms[0].kept, f), ms[1..], f)
  }

  /** On an edited row a protected field keeps its value if it has one, and otherwise becomes the first
      non-empty incoming value and keeps that; on any other row it is the last incoming value. The edited
      flag never changes, and the unprotected columns are the last incoming ones. */
  lemma {:induction false} EditedFieldsAreKept(x: Meta, ms: seq<Meta>, f: Field)
    ensures MergeAll(x, ms).userEdited == x.userEdited
    ensures x.userEdited ==> Get(MergeAll(x, ms).kept, f) == FirstNonEmpty(Get(x.kept, f), ms, f)
    ensures !x.userEdited && ms != [] ==> Get(MergeAll(x, ms).kept, f) == Get(ms[|ms| - 1].kept, f)
    ensures ms != [] ==> MergeAll(x, ms).plain == ms[|ms| - 1].plain
    decreases |ms|
  {
    if ms != [] {
      MergeField(x, ms[0], f);
      EditedFieldsAreKept(MergeMeta(x, ms[0]), ms[1..], f);
      if x.userEdited && Get(x.kept, f) != "" {
        assert FirstNonEmpty(Get(x.kept, f), ms[1..], f) == Get(x.kept, f);
      }
    }
  }

  lemma MergeField(x: Meta, m: Meta, f: Field)
    ensures Get(MergeMeta(x, m).kept, f) == KeepEdited(x.userEdited, Get(x.kept, f), Get(m.kept, f))
  {
    match f
    case Title =>
    case Genre =>
    case MbTrackId =>
    case MbAlbumId =>
    case MbAlbumArtistId =>
    case MbArtistId =>
    case Composer =>
    case Comment =>
    case Lyrics =>
  }

  datatype Upsert = Upsert(path: string, meta: Meta)

  function PutAll(mm: map<string, Meta>, us: seq<Upsert>): map<string, Meta>
    decreases |us|
  {
    if us == [] then mm else PutAll(Put(mm, us[0].path, us[0].meta), us[1..])
  }

  function Versions(us: seq<Upsert>, p: string): seq<Meta> {
    if us == [] then []
    else if us[0].path == p then [us[0].meta] + Versions(us[1..], p)
    else Versions(us[1..], p)
  }

  /** In any sequence of upserts the row of a path sees exactly the versions sent for that path, in order: merged
      into the row it had, or the first inserted and the others merged into it. */
  lemma {:induction false} RowSeesItsVersions(mm: map<string, Meta>, us: seq<Upsert>, p: string)
    ensures p in PutAll(mm, us) <==> p in mm || Versions(us, p) != []
    ensures p in PutAll(mm, us) ==>
              var v := Versions(us, p);
              PutAll(mm, us)[p] == if p in mm then MergeAll(mm[p], v) else MergeAll(v[0], v[1..])
    decreases |us|
  {
    if us != [] {
      RowSeesItsVersions(Put(mm, us[0].path, us[0].meta), us[1..], p);
      var rest := Versions(us[1..], p);
      assert ([us[0].meta] + rest)[1..] == rest;
    }
  }

  /** The fields are all the protected columns there are. */
  lemma SameFields(a: Protected, b: Protected)
    requires forall f: Field :: Get(a, f) == Get(b, f)
    ensures a == b
  {
    assert Get(a, Title) == Get(b, Title) && Get(a, Genre) == Get(b, Genre) && Get(a, MbTrackId) == Get(b, MbTrackId);
    assert Get(a, MbAlbumId) == Get(b, MbAlbumId) && Get(a, MbAlbumArtistId) == Get(b, MbAlbumArtistId);
    assert Get(a, MbArtistId) == Get(b, MbArtistId) && Get(a, Composer) == Get(b, Composer);
    assert Get(a, Comment) == Get(b, Comment) && Get(a, Lyrics) == Get(b, Lyrics);
  }
}
