/** Sequence helpers shared by the server and the page: distinct elements,
    and `xs.filter(x => x !== y)`, which the page applies to identity lists
    and Socket.IO applies to the sockets of a namespace when one closes. */
module Seqs {

  predicate NoDuplicates<T(==)>(s: seq<T>)
  {
    forall i, j :: 0 <= i < j < |s| ==> s[i] != s[j]
  }

  lemma NoDuplicatesRemoveAt<T>(s: seq<T>, i: nat)
    requires NoDuplicates(s) && i < |s|
    ensures NoDuplicates(s[..i] + s[i + 1..])
  {
    var r := s[..i] + s[i + 1..];
    forall a, b | 0 <= a < b < |r| ensures r[a] != r[b] {
      var a' := if a < i then a else a + 1;
      var b' := if b < i then b else b + 1;
      assert r[a] == s[a'] && r[b] == s[b'];
    }
  }

  lemma NoDuplicatesAppend<T>(s: seq<T>, x: T)
    requires NoDuplicates(s) && x !in s
    ensures NoDuplicates(s + [x])
  {
    var r := s + [x];
    forall a, b | 0 <= a < b < |r| ensures r[a] != r[b] {
      if b == |s| { assert r[a] == s[a]; }
    }
  }

  /** `xs.filter(x => x !== y)`. */
  function Without<T(==, !new)>(xs: seq<T>, y: T): (r: seq<T>)
    ensures y !in r
    ensures forall x :: x in r <==> x in xs && x != y
  {
    if xs == [] then []
    else if xs[0] == y then Without(xs[1..], y)
    else [xs[0]] + Without(xs[1..], y)
  }

  /** The filter works piece by piece, so the kept elements stay in their
      relative order. */
  lemma {:induction false} WithoutAppend<T(!new)>(a: seq<T>, b: seq<T>, y: T)
    ensures Without(a + b, y) == Without(a, y) + Without(b, y)
  {
    if a == [] {
      assert a + b == b;
    } else {
      assert (a + b)[0] == a[0];
      assert (a + b)[1..] == a[1..] + b;
      WithoutAppend(a[1..], b, y);
    }
  }

  /** Every element other than `y` is kept as often as it occurs. */
  lemma {:induction false} WithoutKeepsOthers<T(!new)>(xs: seq<T>, y: T, x: T)
    requires x != y
    ensures multiset(Without(xs, y))[x] == multiset(xs)[x]
  {
    if xs != [] {
      WithoutKeepsOthers(xs[1..], y, x);
      assert xs == [xs[0]] + xs[1..];
    }
  }

  /** A sequence without `y` passes the filter unchanged. */
  lemma {:induction false} WithoutAbsent<T(!new)>(xs: seq<T>, y: T)
    requires y !in xs
    ensures Without(xs, y) == xs
  {
    if xs != [] {
      assert xs == [xs[0]] + xs[1..];
      WithoutAbsent(xs[1..], y);
    }
  }

  /** Filtering keeps the elements distinct. */
  lemma {:induction false} WithoutNoDuplicates<T(!new)>(xs: seq<T>, y: T)
    requires NoDuplicates(xs)
    ensures NoDuplicates(Without(xs, y))
  {
    if xs != [] {
      WithoutNoDuplicates(xs[1..], y);
      assert xs[0] !in xs[1..];
    }
  }
}
