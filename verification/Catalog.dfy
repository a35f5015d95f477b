/** The catalogue's album listing: filter, de-duplicate and paginate in one loop. */
module Catalog {
  import opened Seqs

  /** What the listing reads of a song. */
  datatype Track = Track(library: int, album: int)

  /** Each element once, where it is first seen. */
  function FirstOccurrences(ids: seq<int>): (r: seq<int>) {
    if ids == [] then []
    else
      var before := FirstOccurrences(ids[..|ids| - 1]);
      if ids[|ids| - 1] in before then before else before + [ids[|ids| - 1]]
  }

  function AlbumsIn(songs: seq<Track>, library: int): seq<int> {
    if songs == [] then []
    else
      var s := songs[|songs| - 1];
      AlbumsIn(songs[..|songs| - 1], library) + if s.library == library then [s.album] else []
  }

  /** The library's albums in the order of their first songs. */
  function Listed(songs: seq<Track>, library: int): seq<int> {
    FirstOccurrences(AlbumsIn(songs, library))
  }

  /** The albums that can be loaded, in order. */
  function Found<Album>(ids: seq<int>, albums: map<int, Album>): (r: seq<Album>)
    ensures |r| <= |ids|
  {
    if ids == [] then []
    else (if ids[0] in albums then [albums[ids[0]]] else []) + Found(ids[1..], albums)
  }

  function Drop<T>(s: seq<T>, n: int): seq<T> {
    if n <= 0 then s else if n < |s| then s[n..] else []
  }

  /** One page: skip `offset` listed albums, loadable or not, then give up to `limit` loadable ones. */
  function Page<Album>(listed: seq<int>, albums: map<int, Album>, limit: int, offset: int): seq<Album> {
    Take(Found(Drop(listed, offset), albums), limit)
  }

  // ----- the listing

  /** Where x is first seen. */
  function FirstIndex(ids: seq<int>, x: int): (r: nat)
    requires x in ids
    ensures r < |ids| && ids[r] == x
  {
    if ids[0] == x then 0 else 1 + FirstIndex(ids[1..], x)
  }

  lemma {:induction false} NotBefore(ids: seq<int>, x: int)
    requires x in ids
    ensures forall k :: 0 <= k < FirstIndex(ids, x) ==> ids[k] != x
  {
    if ids[0] != x {
      NotBefore(ids[1..], x);
    }
  }

  /** r lists what is in ids, each element once, ordered by first appearance. */
  ghost predicate InFirstOrder(ids: seq<int>, r: seq<int>) {
    && (forall k :: 0 <= k < |ids| ==> ids[k] in r)
    && (forall k :: 0 <= k < |r| ==> r[k] in ids)
    && (forall i, j :: 0 <= i < j < |r| ==> FirstIndex(ids, r[i]) < FirstIndex(ids, r[j]))
  }

  lemma {:induction false} FirstOccurrencesMeaning(ids: seq<int>)
    ensures InFirstOrder(ids, FirstOccurrences(ids))
  {
    if ids != [] {
      var n := |ids| - 1;
      assert ids == ids[..n] + [ids[n]];
      FirstOccurrencesMeaning(ids[..n]);
      OrderNext(ids[..n], ids[n], FirstOccurrences(ids[..n]));
    }
  }

  lemma OrderNext(ids: seq<int>, x: int, r: seq<int>)
    requires InFirstOrder(ids, r)
    ensures InFirstOrder(ids + [x], if x in r then r else r + [x])
  {
    hide FirstIndex;
    var all := ids + [x];
    assert all[|ids|] == x;
    forall k | 0 <= k < |r| ensures r[k] in all && FirstIndex(all, r[k]) == FirstIndex(ids, r[k]) {
      IndexStays(ids, x, r[k]);
    }
    if x !in r {
      NewIndex(ids, x);
    }
  }

  lemma {:induction false} IndexStays(ids: seq<int>, x: int, y: int)
    requires y in ids
    ensures y in ids + [x] && FirstIndex(ids + [x], y) == FirstIndex(ids, y)
  {
    assert (ids + [x])[FirstIndex(ids, y)] == y;
    if ids[0] != y {
      IndexStays(ids[1..], x, y);
      assert (ids + [x])[1..] == ids[1..] + [x];
    }
  }

  lemma NewIndex(ids: seq<int>, x: int)
    requires x !in ids
    ensures x in ids + [x] && FirstIndex(ids + [x], x) == |ids|
  {
    var all := ids + [x];
    assert all[|ids|] == x;
    NotBefore(all, x);
  }

  /** What has been listed stays listed, in front. */
  lemma {:induction false} ListedGrows(songs: seq<Track>, library: int, i: nat)
    requires i <= |songs|
    ensures Listed(songs[..i], library) <= Listed(songs, library)
    decreases |songs| - i
  {
    if i < |songs| {
      ListedGrows(songs, library, i + 1);
      ListedNext(songs, library, i);
    } else {
      assert songs[..i] == songs;
    }
  }

  lemma ListedNext(songs: seq<Track>, library: int, i: nat)
    requires i < |songs|
    ensures var listed := Listed(songs[..i], library);
            Listed(songs[..i + 1], library) ==
            if songs[i].library != library || songs[i].album in listed then listed else listed + [songs[i].album]
  {
    hide FirstOccurrences;
    var ids := AlbumsIn(songs[..i], library);
    assert songs[..i + 1][..i] == songs[..i];
    assert AlbumsIn(songs[..i + 1], library) == ids + if songs[i].library == library then [songs[i].album] else [];
    if songs[i].library == library {
      FirstNext(ids, songs[i].album);
    } else {
      assert ids + [] == ids;
    }
  }

  lemma FirstNext(ids: seq<int>, x: int)
    ensures FirstOccurrences(ids + [x])
         == if x in FirstOccurrences(ids) then FirstOccurrences(ids) else FirstOccurrences(ids) + [x]
  {
    assert (ids + [x])[..|ids|] == ids;
  }

  lemma {:induction false} FoundConcat<Album>(a: seq<int>, b: seq<int>, albums: map<int, Album>)
    ensures Found(a + b, albums) == Found(a, albums) + Found(b, albums)
  {
    if a == [] {
      assert a + b == b;
    } else {
      FoundConcat(a[1..], b, albums);
      assert (a + b)[1..] == a[1..] + b;
      Regroup(if a[0] in albums then [albums[a[0]]] else [], Found(a[1..], albums), Found(b, albums));
    }
  }

  /** What one more listed album adds to the page. */
  lemma TakenNext<Album>(listed: seq<int>, x: int, albums: map<int, Album>, offset: int)
    ensures var taken := Found(Drop(listed, offset), albums);
            Found(Drop(listed + [x], offset), albums) ==
            if |listed| < offset || x !in albums then taken else taken + [albums[x]]
  {
    if |listed| >= offset {
      var rest := Drop(listed, offset);
      assert Drop(listed + [x], offset) == rest + [x];
      FoundConcat(rest, [x], albums);
    }
  }

  lemma DropPrefix<T>(s: seq<T>, t: seq<T>, n: int)
    requires s <= t
    ensures Drop(s, n) <= Drop(t, n)
  {
  }

  /** Once the page is full the rest of the listing does not matter. */
  lemma FullPage<Album>(listed: seq<int>, more: seq<int>, albums: map<int, Album>, limit: int, offset: int)
    requires listed <= more
    requires |Found(Drop(listed, offset), albums)| == if limit < 0 then 0 else limit
    ensures Page(more, albums, limit, offset) == Found(Drop(listed, offset), albums)
  {
    var a, b := Drop(listed, offset), Drop(more, offset);
    DropPrefix(listed, more, offset);
    assert b == a + b[|a|..];
    FoundConcat(a, b[|a|..], albums);
  }

  /** The page is all there is when it is not full. */
  lemma ShortPage<Album>(listed: seq<int>, albums: map<int, Album>, limit: int, offset: int)
    requires |Found(Drop(listed, offset), albums)| <= if limit < 0 then 0 else limit
    ensures Page(listed, albums, limit, offset) == Found(Drop(listed, offset), albums)
  {
  }

  lemma NothingListed<Album>(songs: seq<Track>, library: int, albums: map<int, Album>, offset: int)
    ensures Listed(songs[..0], library) == []
    ensures Found(Drop([], offset), albums) == []
    ensures songs[..|songs|] == songs
  {
  }

  /** catalogAlbums: `seen` is the set of albums met so far in the library, `count` how many. */
  method CatalogAlbums<Album>(songs: seq<Track>, albums: map<int, Album>, library: int, limit: int, offset: int)
    returns (result: seq<Album>)
    ensures result == Page(Listed(songs, library), albums, limit, offset)
  {
    hide *;
    NothingListed(songs, library, albums, offset);
    ghost var listed := [];
    var seen: set<int> := {};
    result := [];
    var count := 0;
    var i := 0;
    while i < |songs|
      invariant 0 <= i <= |songs|
      invariant listed == Listed(songs[..i], library)
      invariant forall a :: a in seen <==> a in listed
      invariant count == |listed|
      invariant result == Found(Drop(listed, offset), albums)
      invariant |result| <= if limit < 0 then 0 else limit
    {
      ListedNext(songs, library, i);
      var s := songs[i];
      i := i + 1;
      if s.library != library {
        continue;
      }
      if s.album in seen {
        continue;
      }
      seen := seen + {s.album};
      ghost var before := listed;
      listed := listed + [s.album];
      TakenNext(before, s.album, albums, offset);
      if count < offset {
        count := count + 1;
        continue;
      }
      if |result| >= limit {
        ListedGrows(songs, library, i - 1);
        FullPage(before, Listed(songs, library), albums, limit, offset);
        return;
      }
      if s.album in albums {
        result := result + [albums[s.album]];
      }
      count := count + 1;
    }
    ShortPage(listed, albums, limit, offset);
  }

  // ----- successive pages

  /** The pages a client sees that asks for `size` albums at a time until the listing is exhausted. */
  function Pages<Album>(listed: seq<int>, albums: map<int, Album>, size: nat, k: nat): seq<Album>
    requires size > 0
    decreases |listed| - k * size
  {
    if k * size >= |listed| then []
    else
      NextStart(size, k);
      Page(listed, albums, size, k * size) + Pages(listed, albums, size, k + 1)
  }

  lemma NextStart(size: nat, k: nat)
    ensures (k + 1) * size == k * size + size
  {
  }

  /** An album that cannot be loaded is never listed on an earlier page than one that can. */
  ghost predicate GapsStayOnTheirPage<Album>(listed: seq<int>, albums: map<int, Album>, size: nat)
    requires size > 0
  {
    forall i, j :: 0 <= i < j < |listed| && listed[i] !in albums && listed[j] in albums ==> i / size == j / size
  }

  /** The same, page by page from page k on: each page is complete or the last to show anything. */
  ghost predicate Aligned<Album>(listed: seq<int>, albums: map<int, Album>, size: nat, k: nat)
    requires size > 0
    decreases |listed| - k * size
  {
    k * size >= |listed|
    || (NextStart(size, k);
        var here, after := Take(Drop(listed, k * size), size), Drop(listed, (k + 1) * size);
        (|Found(here, albums)| == |here| || Found(after, albums) == []) && Aligned(listed, albums, size, k + 1))
  }

  lemma DropSplits<T>(s: seq<T>, start: nat, size: nat)
    ensures Drop(s, start) == Take(Drop(s, start), size) + Drop(s, start + size)
    ensures |Take(Drop(s, start), size)| < size ==> Drop(s, start + size) == []
  {
  }

  /** A page shows all it should of its own part of the listing, and more exactly when it fills up from later. */
  lemma PageHolds<Album>(here: seq<int>, after: seq<int>, albums: map<int, Album>, size: nat)
    requires |here| <= size && (|here| < size ==> after == [])
    ensures var page := Take(Found(here + after, albums), size);
            && Found(here, albums) <= page
            && (page == Found(here, albums) <==> |Found(here, albums)| == |here| || Found(after, albums) == [])
  {
    FoundConcat(here, after, albums);
  }

  lemma SplitEqual<T>(a: seq<T>, b: seq<T>, c: seq<T>, d: seq<T>)
    requires a <= c && |b| <= |d|
    ensures a + b == c + d <==> a == c && b == d
  {
    if a + b == c + d {
      assert |a + b| == |c + d|;
      assert (a + b)[..|a|] == (c + d)[..|c|];
      assert (a + b)[|a|..] == (c + d)[|c|..];
      assert a == (a + b)[..|a|] && b == (a + b)[|a|..] && c == (c + d)[..|c|] && d == (c + d)[|c|..];
    }
  }

  lemma {:induction false} PagesFrom<Album>(listed: seq<int>, albums: map<int, Album>, size: nat, k: nat)
    requires size > 0
    ensures var rest := Found(Drop(listed, k * size), albums);
            && |Pages(listed, albums, size, k)| >= |rest|
            && (Pages(listed, albums, size, k) == rest <==> Aligned(listed, albums, size, k))
    decreases |listed| - k * size
  {
    hide Found, Take, Drop;
    var start := k * size;
    NextStart(size, k);
    if start >= |listed| {
      NothingLeft(listed, albums, start);
    } else {
      PagesFrom(listed, albums, size, k + 1);
      var here, after := Take(Drop(listed, start), size), Drop(listed, start + size);
      DropSplits(listed, start, size);
      TakeShort(Drop(listed, start), size);
      PageHolds(here, after, albums, size);
      FoundConcat(here, after, albums);
      var page := Page(listed, albums, size, start);
      SplitEqual(Found(here, albums), Found(after, albums), page, Pages(listed, albums, size, k + 1));
    }
  }

  lemma NothingLeft<Album>(listed: seq<int>, albums: map<int, Album>, start: nat)
    requires start >= |listed|
    ensures Found(Drop(listed, start), albums) == []
  {
  }

  lemma TakeShort<T>(s: seq<T>, n: nat)
    ensures |Take(s, n)| <= n
  {
  }

  lemma {:induction false} AllFound<Album>(ids: seq<int>, albums: map<int, Album>)
    ensures |Found(ids, albums)| == |ids| <==> forall i :: 0 <= i < |ids| ==> ids[i] in albums
    ensures Found(ids, albums) == [] <==> forall i :: 0 <= i < |ids| ==> ids[i] !in albums
  {
    if ids != [] {
      AllFound(ids[1..], albums);
      Uncons(ids);
    }
  }

  lemma PageOfIndex(i: nat, size: nat, k: nat)
    requires size > 0 && k * size <= i
    ensures i / size == k <==> i < (k + 1) * size
  {
    var q, m := i / size, i % size;
    assert i == size * q + m;
    NextStart(size, k);
    if i < k * size + size {
      SameQuotient(size, q, m, k, i - k * size);
    }
  }

  lemma SameQuotient(size: nat, q: int, m: int, k: int, r: int)
    requires size * q + m == k * size + r && 0 <= m < size && 0 <= r < size
    ensures q == k
  {
    var d := q - k;
    assert size * d == r - m;
    if d != 0 {
      AtLeastOnce(size, if d > 0 then d else -d);
    }
  }

  lemma AtLeastOnce(size: nat, d: nat)
    requires d > 0
    ensures size * d >= size
  {
    assert size * d == size + size * (d - 1);
  }

  ghost predicate GapsFrom<Album>(listed: seq<int>, albums: map<int, Album>, size: nat, start: nat)
    requires size > 0
  {
    forall i, j :: start <= i < j < |listed| && listed[i] !in albums && listed[j] in albums ==> i / size == j / size
  }

  lemma {:induction false} AlignedMeaning<Album>(listed: seq<int>, albums: map<int, Album>, size: nat, k: nat)
    requires size > 0
    ensures Aligned(listed, albums, size, k) <==> GapsFrom(listed, albums, size, k * size)
    decreases |listed| - k * size
  {
    if k * size < |listed| {
      NextStart(size, k);
      AlignedMeaning(listed, albums, size, k + 1);
      GapsByPage(listed, albums, size, k);
    }
  }

  lemma GapsByPage<Album>(listed: seq<int>, albums: map<int, Album>, size: nat, k: nat)
    requires size > 0 && k * size < |listed|
    ensures var here, after := Take(Drop(listed, k * size), size), Drop(listed, (k + 1) * size);
            GapsFrom(listed, albums, size, k * size) <==>
            (|Found(here, albums)| == |here| || Found(after, albums) == [])
            && GapsFrom(listed, albums, size, (k + 1) * size)
  {
    hide Found, Take, Drop;
    var start, next := k * size, (k + 1) * size;
    NextStart(size, k);
    var here, after := Take(Drop(listed, start), size), Drop(listed, next);
    forall i | start <= i < |listed| ensures i / size == k <==> i < next {
      PageOfIndex(i, size, k);
    }
    AllFound(here, albums);
    AllFound(after, albums);
    PageParts(listed, start, size);
    GapsSplit(listed, albums, size, k, here, after);
  }

  lemma PageParts(listed: seq<int>, start: nat, size: nat)
    requires start < |listed|
    ensures var here, after := Take(Drop(listed, start), size), Drop(listed, start + size);
            && |here| + |after| == |listed| - start && (after != [] ==> |here| == size) && |here| <= size
            && (forall i :: 0 <= i < |here| ==> here[i] == listed[start + i])
            && (forall i :: 0 <= i < |after| ==> after[i] == listed[start + size + i])
  {
  }

  lemma GapsSplit<Album>(listed: seq<int>, albums: map<int, Album>, size: nat, k: nat, here: seq<int>, after: seq<int>)
    requires size > 0 && (k + 1) * size == k * size + size
    requires forall i :: k * size <= i < |listed| ==> (i / size == k <==> i < k * size + size)
    requires |here| + |after| == |listed| - k * size && (after != [] ==> |here| == size) && |here| <= size
    requires forall i :: 0 <= i < |here| ==> here[i] == listed[k * size + i]
    requires forall i :: 0 <= i < |after| ==> after[i] == listed[k * size + size + i]
    ensures GapsFrom(listed, albums, size, k * size) <==>
            ((forall i :: 0 <= i < |here| ==> here[i] in albums) || (forall i :: 0 <= i < |after| ==> after[i] !in albums))
            && GapsFrom(listed, albums, size, k * size + size)
  {
    var start := k * size;
    forall i | start <= i < |listed|
      ensures if i < start + size then here[i - start] == listed[i] else after[i - start - size] == listed[i]
    {
    }
    if GapsFrom(listed, albums, size, start) {
      forall i, j | 0 <= i < |here| && here[i] !in albums && 0 <= j < |after| ensures after[j] !in albums {
        assert listed[start + i] == here[i] && listed[start + size + j] == after[j];
      }
    }
  }

  /** Asking for page after page gives exactly the loadable albums of the listing, with no gap and no repeat, if
      and only if no unloadable album is listed on an earlier page than a loadable one. */
  lemma PagesAreTheListing<Album>(listed: seq<int>, albums: map<int, Album>, size: nat)
    requires size > 0
    ensures Pages(listed, albums, size, 0) == Found(listed, albums) <==> GapsStayOnTheirPage(listed, albums, size)
  {
    PagesFrom(listed, albums, size, 0);
    AlignedMeaning(listed, albums, size, 0);
  }

  /** In particular when every listed album can be loaded: then each is shown on the page of its position. */
  lemma {:induction false} EveryAlbumLoads<Album>(listed: seq<int>, albums: map<int, Album>, size: nat)
    requires size > 0 && forall i :: 0 <= i < |listed| ==> listed[i] in albums
    ensures Pages(listed, albums, size, 0) == Found(listed, albums)
    ensures |Found(listed, albums)| == |listed|
    ensures forall i :: 0 <= i < |listed| ==> Found(listed, albums)[i] == albums[listed[i]]
  {
    PagesAreTheListing(listed, albums, size);
    FoundInPlace(listed, albums);
  }

  lemma {:induction false} FoundInPlace<Album>(ids: seq<int>, albums: map<int, Album>)
    requires forall i :: 0 <= i < |ids| ==> ids[i] in albums
    ensures |Found(ids, albums)| == |ids|
    ensures forall i :: 0 <= i < |ids| ==> Found(ids, albums)[i] == albums[ids[i]]
  {
    if ids != [] {
      FoundInPlace(ids[1..], albums);
    }
  }
}
