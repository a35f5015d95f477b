/** Filtering, subsequences and duplicate-free sequences: the list vocabulary the other modules share. */
module Seqs {

  /** The elements of s that satisfy p, in order. */
  function Keep<T>(s: seq<T>, p: T -> bool): (r: seq<T>)
    ensures |r| <= |s|
  {
    if s == [] then []
    else if p(s[0]) then [s[0]] + Keep(s[1..], p)
    else Keep(s[1..], p)
  }

  lemma {:induction false} KeepMembers<T>(s: seq<T>, p: T -> bool)
    ensures forall i :: 0 <= i < |Keep(s, p)| ==> Keep(s, p)[i] in s && p(Keep(s, p)[i])
    ensures forall i :: 0 <= i < |s| && p(s[i]) ==> s[i] in Keep(s, p)
  {
    if s != [] {
      KeepMembers(s[1..], p);
      assert s == [s[0]] + s[1..];
    }
  }

  lemma KeepCons<T>(x: T, s: seq<T>, p: T -> bool)
    ensures Keep([x] + s, p) == if p(x) then [x] + Keep(s, p) else Keep(s, p)
  {
    assert ([x] + s)[1..] == s;
  }

  lemma Regroup<T>(a: seq<T>, b: seq<T>, c: seq<T>)
    ensures a + (b + c) == a + b + c
  {
  }

  lemma Uncons<T>(s: seq<T>)
    requires s != []
    ensures s == [s[0]] + s[1..]
  {
  }

  lemma {:induction false} KeepConcat<T>(a: seq<T>, b: seq<T>, p: T -> bool)
    ensures Keep(a + b, p) == Keep(a, p) + Keep(b, p)
  {
    if a == [] {
      assert a + b == b;
    } else {
      var x, tail := a[0], a[1..];
      Uncons(a);
      Regroup([x], tail, b);
      KeepConcat(tail, b, p);
      KeepCons(x, tail + b, p);
      Regroup([x], Keep(tail, p), Keep(b, p));
    }
  }

  lemma {:induction false} KeepEverything<T>(s: seq<T>, p: T -> bool)
    requires forall x :: x in s ==> p(x)
    ensures Keep(s, p) == s
  {
    if s != [] {
      KeepEverything(s[1..], p);
    }
  }

  /** Filters that agree on the elements of s give the same result. */
  lemma {:induction false} KeepSame<T>(s: seq<T>, p: T -> bool, q: T -> bool)
    requires forall x :: x in s ==> p(x) == q(x)
    ensures Keep(s, p) == Keep(s, q)
  {
    if s != [] {
      KeepSame(s[1..], p, q);
    }
  }

  /** Filtering twice is filtering once by the conjunction. */
  lemma {:induction false} KeepTwice<T>(s: seq<T>, p: T -> bool, q: T -> bool, both: T -> bool)
    requires forall x :: x in s ==> both(x) == (p(x) && q(x))
    ensures Keep(Keep(s, p), q) == Keep(s, both)
  {
    if s != [] {
      KeepTwice(s[1..], p, q, both);
      KeepCons(s[0], Keep(s[1..], p), q);
    }
  }

  predicate Distinct<T(==)>(s: seq<T>) {
    forall i, j :: 0 <= i < j < |s| ==> s[i] != s[j]
  }

  function Elements<T>(s: seq<T>): (r: set<T>) {
    set x | x in s
  }

  lemma {:induction false} DistinctCount<T>(s: seq<T>)
    requires Distinct(s)
    ensures |Elements(s)| == |s|
  {
    if s != [] {
      DistinctCount(s[1..]);
      assert Elements(s) == Elements(s[1..]) + {s[0]};
      assert s[0] !in s[1..];
    }
  }

  lemma {:induction false} SubsetCount<T>(a: set<T>, b: set<T>)
    requires a <= b
    ensures |a| <= |b|
  {
    assert b == a + (b - a);
  }

  /** The first n elements, or all of them. */
  function Take<T>(s: seq<T>, n: int): seq<T> {
    if n <= 0 then [] else if n < |s| then s[..n] else s
  }

  /** a can be obtained from b by deleting elements. */
  predicate Subsequence<T(==)>(a: seq<T>, b: seq<T>) {
    if a == [] then true
    else if b == [] then false
    else if a[0] == b[0] then Subsequence(a[1..], b[1..])
    else Subsequence(a, b[1..])
  }

  lemma {:induction false} SubsequenceDropHead<T>(a: seq<T>, b: seq<T>)
    requires a != [] && Subsequence(a, b)
    ensures Subsequence(a[1..], b)
    decreases |b|, 0
  {
    if a[0] == b[0] {
      SubsequenceSkip(a[1..], b[0], b[1..]);
      assert [b[0]] + b[1..] == b;
    } else {
      SubsequenceDropHead(a, b[1..]);
      SubsequenceSkip(a[1..], b[0], b[1..]);
      assert [b[0]] + b[1..] == b;
    }
  }

  lemma {:induction false} SubsequenceSkip<T>(a: seq<T>, x: T, b: seq<T>)
    requires Subsequence(a, b)
    ensures Subsequence(a, [x] + b)
    decreases |b|, 1
  {
    assert ([x] + b)[1..] == b;
    if a != [] && a[0] == x {
      if a[0] == b[0] {
        SubsequenceSkip(a[1..], b[0], b[1..]);
        assert [b[0]] + b[1..] == b;
      } else {
        SubsequenceDropHead(a, b);
      }
    }
  }

  lemma SubsequenceCons<T>(x: T, a: seq<T>, b: seq<T>)
    requires Subsequence(a, b)
    ensures Subsequence([x] + a, [x] + b)
  {
    assert ([x] + a)[1..] == a && ([x] + b)[1..] == b;
  }

  lemma {:induction false} SubsequenceKeep<T>(a: seq<T>, b: seq<T>, p: T -> bool)
    requires Subsequence(a, b)
    ensures Subsequence(Keep(a, p), Keep(b, p))
    ensures |a| - |Keep(a, p)| <= |b| - |Keep(b, p)|
  {
    if a == [] {
    } else if a[0] == b[0] {
      SubsequenceKeep(a[1..], b[1..], p);
      if p(a[0]) {
        SubsequenceCons(a[0], Keep(a[1..], p), Keep(b[1..], p));
      }
    } else {
      SubsequenceKeep(a, b[1..], p);
      if p(b[0]) {
        SubsequenceSkip(Keep(a, p), b[0], Keep(b[1..], p));
      }
    }
  }

  /** Dropping the last element of a, or of both, keeps a a subsequence of b. */
  lemma {:induction false} SubsequenceDropLast<T>(a: seq<T>, b: seq<T>)
    requires a != [] && Subsequence(a, b)
    ensures b != []
    ensures Subsequence(a[..|a| - 1], b[..|b| - 1])
    ensures Subsequence(a[..|a| - 1], b)
  {
    var a', b' := a[..|a| - 1], b[..|b| - 1];
    if a[0] == b[0] {
      if |a| > 1 {
        SubsequenceDropLast(a[1..], b[1..]);
        assert a'[1..] == a[1..][..|a[1..]| - 1];
        assert b'[1..] == b[1..][..|b[1..]| - 1];
      }
    } else {
      SubsequenceDropLast(a, b[1..]);
      assert b'[1..] == b[1..][..|b[1..]| - 1];
    }
  }
}
