/** The listing and its pages, told by the songs alone: which albums there are, in which order, and which of them a
    page shows. */
module CatalogMeaning {
  import opened Seqs
  import opened Catalog

  /** Song i is of the library and of album a. */
  predicate IsOf(songs: seq<Track>, library: int, a: int, i: int) {
    0 <= i < |songs| && songs[i].library == library && songs[i].album == a
  }

  /** Song i is the first of the library and of album a. */
  predicate IsFirstOf(songs: seq<Track>, library: int, a: int, i: int) {
    IsOf(songs, library, a, i) && forall j :: 0 <= j < i ==> !IsOf(songs, library, a, j)
  }

  /** r lists the library's albums, each once, by their first songs. */
  ghost predicate IsListing(songs: seq<Track>, library: int, r: seq<int>) {
    && (forall a :: a in r <==> exists i :: IsOf(songs, library, a, i))
    && (forall x, y, i, j :: 0 <= x < y < |r| && IsFirstOf(songs, library, r[x], i) && IsFirstOf(songs, library, r[y], j)
                             ==> i < j)
    && Distinct(r)
  }

  lemma IsOfNext(songs: seq<Track>, library: int, a: int, i: int)
    requires songs != []
    ensures var n := |songs| - 1;
            && (IsOf(songs, library, a, i) <==>
                IsOf(songs[..n], library, a, i) || (i == n && songs[n].library == library && songs[n].album == a))
            && (IsOf(songs[..n], library, a, i) ==> i < n)
  {
  }

  /** A first song stays first; a later one is none. */
  lemma FirstOfNext(songs: seq<Track>, library: int, a: int, i: int)
    requires songs != []
    ensures var n := |songs| - 1;
            IsFirstOf(songs, library, a, i) <==>
            IsFirstOf(songs[..n], library, a, i)
            || (i == n && IsOf(songs, library, a, n) && !exists j :: IsOf(songs[..n], library, a, j))
  {
    hide IsOf;
    var n := |songs| - 1;
    forall j
      ensures IsOf(songs, library, a, j) <==> IsOf(songs[..n], library, a, j) || (j == n && IsOf(songs, library, a, n))
      ensures IsOf(songs[..n], library, a, j) ==> 0 <= j < n
      ensures IsOf(songs, library, a, j) ==> 0 <= j <= n
    {
      StepOf(songs, library, a, j);
    }
    if IsFirstOf(songs, library, a, i) && i == n {
      forall j ensures !IsOf(songs[..n], library, a, j) {
        assert 0 <= j < n ==> !IsOf(songs, library, a, j);
      }
    }
  }

  lemma StepOf(songs: seq<Track>, library: int, a: int, j: int)
    requires songs != []
    ensures var n := |songs| - 1;
            && (IsOf(songs, library, a, j) <==> IsOf(songs[..n], library, a, j) || (j == n && IsOf(songs, library, a, n)))
            && (IsOf(songs[..n], library, a, j) ==> 0 <= j < n)
            && (IsOf(songs, library, a, j) ==> 0 <= j <= n)
  {
  }

  lemma ListingNext(songs: seq<Track>, library: int, r: seq<int>)
    requires songs != [] && IsListing(songs[..|songs| - 1], library, r)
    ensures var s := songs[|songs| - 1];
            IsListing(songs, library, if s.library != library || s.album in r then r else r + [s.album])
  {
    var n := |songs| - 1;
    var s := songs[n];
    var r' := if s.library != library || s.album in r then r else r + [s.album];
    hide IsOf, IsFirstOf;
    forall a ensures a in r' <==> exists i :: IsOf(songs, library, a, i) {
      MemberNext(songs, songs[..n], library, r, a);
    }
    forall x, y, i, j | 0 <= x < y < |r'| && IsFirstOf(songs, library, r'[x], i) && IsFirstOf(songs, library, r'[y], j)
      ensures i < j
    {
      OrderStays(songs, library, r, r', x, y, i, j);
    }
  }

  lemma MemberNext(songs: seq<Track>, front: seq<Track>, library: int, r: seq<int>, a: int)
    requires songs != [] && front == songs[..|songs| - 1] && (a in r <==> exists i :: IsOf(front, library, a, i))
    ensures var s := songs[|songs| - 1];
            a in (if s.library != library || s.album in r then r else r + [s.album])
            <==> exists i :: IsOf(songs, library, a, i)
  {
    var n := |songs| - 1;
    var s := songs[n];
    if i :| IsOf(songs, library, a, i) {
      IsOfNext(songs, library, a, i);
    }
    if a in r {
      var i :| IsOf(front, library, a, i);
      IsOfNext(songs, library, a, i);
      assert IsOf(songs, library, a, i);
    } else if s.library == library && s.album == a {
      assert IsOf(songs, library, a, n);
    }
  }

  lemma OrderStays(songs: seq<Track>, library: int, r: seq<int>, r': seq<int>, x: nat, y: nat, i: int, j: int)
    requires songs != [] && IsListing(songs[..|songs| - 1], library, r)
    requires var s := songs[|songs| - 1]; r' == if s.library != library || s.album in r then r else r + [s.album]
    requires x < y < |r'| && IsFirstOf(songs, library, r'[x], i) && IsFirstOf(songs, library, r'[y], j)
    ensures i < j
  {
    var n := |songs| - 1;
    assert r'[x] == r[x] && r[x] in r;
    FirstOfNext(songs, library, r'[x], i);
    FirstOfNext(songs, library, r'[y], j);
    hide IsFirstOf;
    var k :| IsOf(songs[..n], library, r[x], k);
    assert IsFirstOf(songs[..n], library, r[x], i);
    FirstIsEarly(songs, library, r[x], i);
    if y < |r| {
      assert r[y] in r;
      var m :| IsOf(songs[..n], library, r[y], m);
      assert IsFirstOf(songs[..n], library, r[y], j);
    } else {
      assert r'[y] !in r;
    }
  }

  lemma FirstIsEarly(songs: seq<Track>, library: int, a: int, i: int)
    requires songs != [] && IsFirstOf(songs[..|songs| - 1], library, a, i)
    ensures i < |songs| - 1
  {
  }

  lemma {:induction false} ListingMeaning(songs: seq<Track>, library: int)
    ensures IsListing(songs, library, Listed(songs, library))
  {
    if songs != [] {
      var n := |songs| - 1;
      ListingMeaning(songs[..n], library);
      ListedNext(songs, library, n);
      assert songs[..n + 1] == songs;
      ListingNext(songs, library, Listed(songs[..n], library));
      hide IsListing, Listed;
    }
  }

  // ----- pages

  /** The listed albums from a position on that can be loaded, and those before a position. */
  ghost function Loadable<Album>(listed: seq<int>, albums: map<int, Album>, from: int, to: int): set<int> {
    set i | 0 <= i < |listed| && from <= i < to && listed[i] in albums
  }

  lemma LoadableNext<Album>(listed: seq<int>, x: int, albums: map<int, Album>, from: int, to: int)
    requires to <= |listed|
    ensures Loadable(listed + [x], albums, from, to) == Loadable(listed, albums, from, to)
    ensures var added := if from <= |listed| && x in albums then {|listed|} else {};
            && Loadable(listed + [x], albums, from, |listed| + 1) == Loadable(listed, albums, from, |listed|) + added
            && |Loadable(listed + [x], albums, from, |listed| + 1)| == |Loadable(listed, albums, from, |listed|)| + |added|
  {
    assert forall i :: 0 <= i < |listed| ==> (listed + [x])[i] == listed[i];
    assert |listed| !in Loadable(listed, albums, from, |listed|);
  }

  /** Where each loadable album stands among those found. */
  ghost predicate InPlace<Album>(listed: seq<int>, albums: map<int, Album>, from: int, found: seq<Album>) {
    && |found| == |Loadable(listed, albums, from, |listed|)|
    && (forall i :: i in Loadable(listed, albums, from, |listed|) ==>
                    var before := |Loadable(listed, albums, from, i)|;
                    before < |found| && found[before] == albums[listed[i]])
  }

  lemma EarlierStay<Album>(listed: seq<int>, x: int, albums: map<int, Album>, from: int)
    ensures forall i :: 0 <= i <= |listed| ==> Loadable(listed + [x], albums, from, i) == Loadable(listed, albums, from, i)
  {
    forall i | 0 <= i <= |listed| ensures Loadable(listed + [x], albums, from, i) == Loadable(listed, albums, from, i) {
      LoadableNext(listed, x, albums, from, i);
    }
  }

  lemma InPlaceNext<Album>(listed: seq<int>, x: int, albums: map<int, Album>, from: int, found: seq<Album>)
    requires InPlace(listed, albums, from, found)
    ensures InPlace(listed + [x], albums, from, if from <= |listed| && x in albums then found + [albums[x]] else found)
  {
    hide Loadable;
    var n, all := |listed|, listed + [x];
    LoadableNext(listed, x, albums, from, n);
    EarlierStay(listed, x, albums, from);
    InRange(listed, albums, from, n);
    InRange(all, albums, from, n + 1);
    var found' := if from <= n && x in albums then found + [albums[x]] else found;
    forall i | i in Loadable(all, albums, from, n + 1)
      ensures |Loadable(all, albums, from, i)| < |found'| && found'[|Loadable(all, albums, from, i)|] == albums[all[i]]
    {
      assert i in Loadable(listed, albums, from, n) || i == n;
    }
  }

  lemma InRange<Album>(listed: seq<int>, albums: map<int, Album>, from: int, to: int)
    ensures forall i :: i in Loadable(listed, albums, from, to) ==> 0 <= i < |listed| && i < to && listed[i] in albums
  {
  }

  lemma {:induction false} FoundMeaning<Album>(listed: seq<int>, albums: map<int, Album>, offset: int)
    ensures InPlace(listed, albums, offset, Found(Drop(listed, offset), albums))
  {
    if listed == [] {
      assert Drop(listed, offset) == [];
    } else {
      var n := |listed| - 1;
      FoundMeaning(listed[..n], albums, offset);
      assert listed == listed[..n] + [listed[n]];
      TakenNext(listed[..n], listed[n], albums, offset);
      InPlaceNext(listed[..n], listed[n], albums, offset, Found(Drop(listed[..n], offset), albums));
      hide InPlace, Found, Drop;
    }
  }

  /** A page shows as many of the loadable albums listed from `offset` on as there are, but at most `limit`; each of
      them is shown, if the page reaches that far, in the place that the number of those before it gives. A negative
      offset is 0, and a negative limit too. */
  lemma PageMeaning<Album>(listed: seq<int>, albums: map<int, Album>, limit: int, offset: int)
    ensures var page, there := Page(listed, albums, limit, offset), Loadable(listed, albums, offset, |listed|);
            && |page| == (if limit <= 0 then 0 else if limit < |there| then limit else |there|)
            && forall i :: i in there ==>
                 var before := |Loadable(listed, albums, offset, i)|;
                 before < limit ==> before < |page| && page[before] == albums[listed[i]]
  {
    FoundMeaning(listed, albums, offset);
    InRange(listed, albums, offset, |listed|);
    hide Found, Drop, Loadable;
  }
}
