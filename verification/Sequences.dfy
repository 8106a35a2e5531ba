/** Facts about sequences and sets that several modules use. */
module Sequences {

  lemma Regroup<T>(a: seq<T>, x: T, b: seq<T>)
    ensures a + ([x] + b) == a + [x] + b
  {
  }

  lemma {:induction false} DistinctSize<T>(xs: seq<T>, s: set<T>)
    requires forall i, j :: 0 <= i < j < |xs| ==> xs[i] != xs[j]
    requires forall x :: x in s <==> x in xs
    ensures |s| == |xs|
  {
    if xs == [] {
      assert s == {};
    } else {
      var last := |xs| - 1;
      assert xs == xs[..last] + [xs[last]];
      DistinctSize(xs[..last], s - {xs[last]});
    }
  }

  ghost predicate Injective<A, B>(s: set<A>, f: A -> B) {
    forall x, y :: x in s && y in s && f(x) == f(y) ==> x == y
  }

  ghost function Image<A, B>(s: set<A>, f: A -> B): set<B> {
    set x | x in s :: f(x)
  }

  /** An image is no larger than the set, and as large exactly for an injective function. */
  lemma {:induction false} ImageSize<A, B>(s: set<A>, f: A -> B)
    ensures |Image(s, f)| <= |s|
    ensures |Image(s, f)| == |s| <==> Injective(s, f)
    decreases s
  {
    if x :| x in s {
      var rest := s - {x};
      ImageSize(rest, f);
      assert Image(s, f) == Image(rest, f) + {f(x)};
      assert |s| == |rest| + 1;
      if f(x) in Image(rest, f) {
        assert Image(s, f) == Image(rest, f);
        assert !Injective(s, f);
      } else {
        assert Injective(s, f) <==> Injective(rest, f);
      }
    } else {
      assert Image(s, f) == {};
    }
  }

  // ----- counting positions -----

  function OneIf(b: bool): nat {
    if b then 1 else 0
  }

  ghost function Where<T>(xs: seq<T>, p: T -> bool): set<nat> {
    set i: nat | i < |xs| && p(xs[i])
  }

  /** The positions of two elements, the first one earlier, of which `p` holds. */
  ghost function Earlier<T>(xs: seq<T>, p: (T, T) -> bool): set<(nat, nat)> {
    set i: nat, j: nat | i < j < |xs| && p(xs[i], xs[j]) :: (i, j)
  }

  /** The positions of two different elements of which `p` holds in that order. */
  ghost function Ordered<T>(xs: seq<T>, p: (T, T) -> bool): set<(nat, nat)> {
    set i: nat, j: nat | i < |xs| && j < |xs| && i != j && p(xs[i], xs[j]) :: (i, j)
  }

  ghost function Before<T>(p: (T, T) -> bool, y: T): T -> bool {
    x => p(x, y)
  }

  lemma WhereSnoc<T>(xs: seq<T>, x: T, p: T -> bool)
    ensures |Where(xs + [x], p)| == |Where(xs, p)| + OneIf(p(x))
  {
    var all := xs + [x];
    assert all[|xs|] == x && forall i :: 0 <= i < |xs| ==> all[i] == xs[i];
    if p(x) {
      assert Where(all, p) == Where(xs, p) + {|xs|};
    } else {
      assert Where(all, p) == Where(xs, p);
    }
  }

  lemma EarlierSnoc<T>(xs: seq<T>, x: T, p: (T, T) -> bool)
    ensures |Earlier(xs + [x], p)| == |Earlier(xs, p)| + |Where(xs, Before(p, x))|
  {
    var all, n := xs + [x], |xs|;
    var mine, f := Where(xs, Before(p, x)), (i: nat) => (i, n);
    ImageSize(mine, f);
    assert Injective(mine, f);
    forall i: nat, j: nat | i < j <= n
      ensures (i, j) in Earlier(all, p) <==> (i, j) in Earlier(xs, p) + Image(mine, f)
    {
      assert all[i] == xs[i];
      if j == n {
        assert all[j] == x;
        assert f(i) == (i, n);
      } else {
        assert all[j] == xs[j];
      }
    }
    assert Earlier(all, p) == Earlier(xs, p) + Image(mine, f);
    assert Earlier(xs, p) !! Image(mine, f);
  }

  /** Two orders of a pair make up the ordered pairs. */
  lemma OrderedIsBoth<T>(xs: seq<T>, p: (T, T) -> bool, q: (T, T) -> bool)
    requires forall i: nat, j: nat :: i < |xs| && j < |xs| ==> q(xs[i], xs[j]) == p(xs[j], xs[i])
    ensures |Ordered(xs, p)| == |Earlier(xs, p)| + |Earlier(xs, q)|
  {
    var swapped, f := Earlier(xs, q), (t: (nat, nat)) => (t.1, t.0);
    ImageSize(swapped, f);
    assert Injective(swapped, f);
    forall i: nat, j: nat | i < |xs| && j < i && p(xs[i], xs[j])
      ensures (i, j) in Image(swapped, f)
    {
      assert (j, i) in swapped && f((j, i)) == (i, j);
    }
    assert Ordered(xs, p) == Earlier(xs, p) + Image(swapped, f);
    assert Earlier(xs, p) !! Image(swapped, f);
  }
}
