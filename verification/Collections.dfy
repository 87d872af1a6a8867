/** Small result types, and sequences used as orderings of finite sets: a database may return rows in any order. */
module Collections {
  datatype Option<+T> = None | Some(value: T)

  /** What a remote lookup returns. */
  datatype Lookup<+T> = Found(value: T) | Failed(error: string)

  function Map<X, Y>(f: X -> Y, s: seq<X>): (r: seq<Y>)
    ensures |r| == |s| && forall i :: 0 <= i < |s| ==> r[i] == f(s[i])
  {
    seq(|s|, i requires 0 <= i < |s| => f(s[i]))
  }

  ghost predicate Distinct<X>(s: seq<X>) {
    forall i, j :: 0 <= i < j < |s| ==> s[i] != s[j]
  }

  /** `s` lists every element of `xs` exactly once, in some order. */
  ghost predicate Enumerates<X>(s: seq<X>, xs: set<X>) {
    Distinct(s) && (forall x :: x in s ==> x in xs) && (forall x :: x in xs ==> x in s)
  }

  lemma {:induction false} DistinctCount<X>(s: seq<X>, x: X)
    requires Distinct(s)
    ensures multiset(s)[x] == if x in s then 1 else 0
  {
    if s == [] {
    } else {
      var front, last := s[..|s| - 1], s[|s| - 1];
      DistinctCount(front, x);
      assert s == front + [last];
    }
  }

  /** The order of an enumeration is the only thing that can differ between two of them. */
  lemma EnumerationsAgree<X>(s: seq<X>, t: seq<X>, xs: set<X>)
    requires Enumerates(s, xs) && Enumerates(t, xs)
    ensures multiset(s) == multiset(t)
  {
    forall x: X
      ensures multiset(s)[x] == multiset(t)[x]
    {
      DistinctCount(s, x);
      DistinctCount(t, x);
    }
  }

  function Without<X>(s: seq<X>, k: nat): seq<X>
    requires k < |s|
  {
    s[..k] + s[k + 1..]
  }

  lemma WithoutCount<X>(s: seq<X>, k: nat)
    requires k < |s|
    ensures multiset(s) == multiset{s[k]} + multiset(Without(s, k))
  {
    assert s == s[..k] + [s[k]] + s[k + 1..];
  }

  lemma WithoutMap<X, Y>(f: X -> Y, s: seq<X>, k: nat)
    requires k < |s|
    ensures multiset(Map(f, s)) == multiset{f(s[k])} + multiset(Map(f, Without(s, k)))
  {
    WithoutCount(Map(f, s), k);
    assert Map(f, Without(s, k)) == Without(Map(f, s), k);
  }

  lemma WithoutSame<X>(s: seq<X>, t: seq<X>, k: nat)
    requires multiset(s) == multiset(t) && s != [] && k < |t| && t[k] == s[0]
    ensures multiset(Without(s, 0)) == multiset(Without(t, k))
  {
    WithoutCount(s, 0);
    WithoutCount(t, k);
    assert multiset(Without(s, 0)) == multiset(s) - multiset{s[0]};
    assert multiset(Without(t, k)) == multiset(t) - multiset{t[k]};
  }

  lemma {:induction false} MapKeepsMultisets<X, Y>(f: X -> Y, s: seq<X>, t: seq<X>)
    requires multiset(s) == multiset(t)
    ensures multiset(Map(f, s)) == multiset(Map(f, t))
    decreases |s|
  {
    assert |s| == |multiset(s)| == |multiset(t)| == |t|;
    if s != [] {
      assert s[0] in multiset(t);
      var k :| 0 <= k < |t| && t[k] == s[0];
      WithoutSame(s, t, k);
      MapKeepsMultisets(f, Without(s, 0), Without(t, k));
      WithoutMap(f, s, 0);
      WithoutMap(f, t, k);
    }
  }
}
