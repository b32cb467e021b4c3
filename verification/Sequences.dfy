// Rearrangements of sequences and of their images under a function.
module Sequences {

  function Image<T, U>(f: T -> U, s: seq<T>): (image: seq<U>)
    ensures |image| == |s| && forall i :: 0 <= i < |s| ==> image[i] == f(s[i])
  {
    seq(|s|, i requires 0 <= i < |s| => f(s[i]))
  }

  function Without<T>(s: seq<T>, i: nat): (rest: seq<T>)
    requires i < |s|
  {
    s[..i] + s[i + 1..]
  }

  lemma SplitMultiset<T>(s: seq<T>, i: nat)
    requires i < |s|
    ensures multiset(s) == multiset(Without(s, i)) + multiset{s[i]}
  {
    assert s == s[..i] + [s[i]] + s[i + 1..];
  }

  lemma ImageSplit<T, U>(f: T -> U, s: seq<T>, i: nat)
    requires i < |s|
    ensures multiset(Image(f, s)) == multiset(Image(f, Without(s, i))) + multiset{f(s[i])}
  {
    SplitMultiset(Image(f, s), i);
    assert Image(f, Without(s, i)) == Without(Image(f, s), i);
  }

  lemma SameRest<T>(a: seq<T>, b: seq<T>, i: nat)
    requires a != [] && i < |b| && a[0] == b[i] && multiset(a) == multiset(b)
    ensures multiset(Without(a, 0)) == multiset(Without(b, i))
  {
    SplitMultiset(a, 0);
    SplitMultiset(b, i);
    var one := multiset{a[0]};
    assert multiset(Without(a, 0)) == multiset(a) - one == multiset(Without(b, i));
  }

  lemma {:induction false} SameImages<T, U>(f: T -> U, a: seq<T>, b: seq<T>)
    requires multiset(a) == multiset(b)
    ensures multiset(Image(f, a)) == multiset(Image(f, b))
    decreases |a|
  {
    if a == [] {
      assert |multiset(b)| == 0;
    } else {
      assert a[0] in multiset(b);
      var i :| 0 <= i < |b| && b[i] == a[0];
      SameRest(a, b, i);
      SameImages(f, Without(a, 0), Without(b, i));
      ImageSplit(f, a, 0);
      ImageSplit(f, b, i);
    }
  }

  lemma PrefixStep<T>(s: seq<T>, n: nat)
    requires n < |s|
    ensures s[..n + 1] == s[..n] + [s[n]]
  {
  }

  lemma PrefixWhole<T>(s: seq<T>)
    ensures s[..|s|] == s
  {
  }

  ghost predicate AllOf<T>(p: T -> bool, s: seq<T>) {
    forall i :: 0 <= i < |s| ==> p(s[i])
  }

  lemma AllGrow<T>(p: T -> bool, s: seq<T>, n: nat)
    requires |s| == n + 1
    ensures AllOf(p, s) <==> AllOf(p, s[..n]) && p(s[n])
  {
    assert forall i :: 0 <= i < n ==> s[..n][i] == s[i];
  }

  predicate Distinct<T(==)>(s: seq<T>) {
    forall i, k :: 0 <= i < k < |s| ==> s[i] != s[k]
  }

  /** Distinct elements of a pool are no more than the pool has places. */
  lemma {:induction false} Pigeonhole<T>(s: seq<T>, pool: seq<T>)
    requires Distinct(s) && forall i :: 0 <= i < |s| ==> s[i] in pool
    ensures |s| <= |pool|
  {
    if s == [] {
    } else {
      var n := |s| - 1;
      var at :| 0 <= at < |pool| && pool[at] == s[n];
      var rest := Without(pool, at);
      forall i | 0 <= i < n ensures s[..n][i] in rest {
        var j :| 0 <= j < |pool| && pool[j] == s[i];
        assert rest[if j < at then j else j - 1] == s[i];
      }
      Pigeonhole(s[..n], rest);
    }
  }

  /** A sequence splits in one way only into a part made of `p` elements and a rest
      that does not start with one. */
  lemma SplitUnique<T>(p: T -> bool, a: seq<T>, b: seq<T>, r: seq<T>, s: seq<T>)
    requires a + r == b + s
    requires (forall i :: 0 <= i < |a| ==> p(a[i])) && (forall i :: 0 <= i < |b| ==> p(b[i]))
    requires (r == [] || !p(r[0])) && (s == [] || !p(s[0]))
    ensures a == b && r == s
  {
    var whole := a + r;
    assert forall i :: 0 <= i < |b| ==> whole[i] == b[i];
    assert r != [] ==> whole[|a|] == r[0];
    assert s != [] ==> whole[|b|] == s[0];
    assert a == whole[..|a|] && b == whole[..|b|];
    assert r == whole[|a|..] && s == whole[|b|..];
  }

  lemma FirstOfAll<T>(p: T -> bool, first: T, s: seq<T>)
    ensures AllOf(p, [first] + s) <==> p(first) && AllOf(p, s)
  {
    var whole := [first] + s;
    assert whole[0] == first;
    assert forall i :: 0 <= i < |s| ==> s[i] == whole[i + 1];
  }

  lemma LastOfAll<T>(p: T -> bool, s: seq<T>, last: T)
    ensures AllOf(p, s + [last]) <==> AllOf(p, s) && p(last)
  {
    assert (s + [last])[..|s|] == s;
    AllGrow(p, s + [last], |s|);
  }

  lemma FirstOfDistinct<T>(first: T, s: seq<T>)
    ensures Distinct([first] + s) <==> first !in s && Distinct(s)
  {
    var whole := [first] + s;
    assert whole[0] == first;
    assert forall i :: 0 <= i < |s| ==> s[i] == whole[i + 1];
    if !Distinct(whole) && first !in s {
      var i, k :| 0 <= i < k < |whole| && whole[i] == whole[k];
      assert s[k - 1] == whole[k];
      assert i > 0 && s[i - 1] == whole[i];
    }
  }

  lemma LastOfDistinct<T>(s: seq<T>, last: T)
    ensures Distinct(s + [last]) <==> Distinct(s) && last !in s
  {
    var whole := s + [last];
    assert forall i :: 0 <= i < |s| ==> whole[i] == s[i];
    assert whole[|s|] == last;
  }

  lemma PrefixOfAll<T>(p: T -> bool, s: seq<T>, n: nat)
    requires n <= |s|
    ensures AllOf(p, s) ==> AllOf(p, s[..n])
  {
  }

  lemma PrefixOfDistinct<T>(s: seq<T>, n: nat)
    requires n <= |s|
    ensures Distinct(s) ==> Distinct(s[..n])
  {
  }
}
