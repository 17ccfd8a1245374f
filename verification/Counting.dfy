/** How many elements of a multiset satisfy a predicate. Degrees are counts. */
module Counting {

  ghost function Indicator(b: bool): nat {
    if b then 1 else 0
  }

  ghost function Pick<T>(m: multiset<T>): (x: T)
    requires m != multiset{}
    ensures x in m
  {
    var x :| x in m;
    x
  }

  ghost function Count<T>(m: multiset<T>, p: T -> bool): nat
    decreases |m|
  {
    if m == multiset{} then 0
    else
      Indicator(p(Pick(m))) + Count(m - multiset{Pick(m)}, p)
  }

  /** The element chosen first does not matter. */
  lemma {:induction false} CountAdd<T>(m: multiset<T>, x: T, p: T -> bool)
    ensures Count(m + multiset{x}, p) == Count(m, p) + Indicator(p(x))
    decreases |m|
  {
    var n := m + multiset{x};
    assert n != multiset{} by { assert x in n; }
    var y := Pick(n);
    if y == x {
      assert n - multiset{y} == m;
    } else {
      var k := m - multiset{y};
      assert n - multiset{y} == k + multiset{x};
      assert m == k + multiset{y};
      CountAdd(k, x, p);
      CountAdd(k, y, p);
    }
  }

  lemma {:induction false} CountUnion<T>(a: multiset<T>, b: multiset<T>, p: T -> bool)
    ensures Count(a + b, p) == Count(a, p) + Count(b, p)
    decreases |b|
  {
    if b == multiset{} {
      assert a + b == a;
    } else {
      var x :| x in b;
      var c := b - multiset{x};
      assert b == c + multiset{x};
      assert a + b == (a + c) + multiset{x};
      CountUnion(a, c, p);
      CountAdd(a + c, x, p);
      CountAdd(c, x, p);
    }
  }

  lemma {:induction false} CountZero<T>(m: multiset<T>, p: T -> bool)
    ensures Count(m, p) == 0 <==> forall x :: x in m ==> !p(x)
    decreases |m|
  {
    if m != multiset{} {
      var x :| x in m;
      var k := m - multiset{x};
      assert m == k + multiset{x};
      CountAdd(k, x, p);
      CountZero(k, p);
      forall y | y in m ensures y == x || y in k { }
    }
  }

  /** A predicate that is the exclusive union of two others counts their sum. */
  lemma {:induction false} CountDisjoint<T>(m: multiset<T>, p: T -> bool, q: T -> bool, r: T -> bool)
    requires forall x :: x in m ==> !(p(x) && q(x)) && (r(x) <==> p(x) || q(x))
    ensures Count(m, r) == Count(m, p) + Count(m, q)
    decreases |m|
  {
    if m != multiset{} {
      var x :| x in m;
      var k := m - multiset{x};
      assert m == k + multiset{x};
      forall y | y in k ensures y in m { }
      CountDisjoint(k, p, q, r);
      CountAdd(k, x, p);
      CountAdd(k, x, q);
      CountAdd(k, x, r);
    }
  }

  /** A count that grows with its predicate, and stays put only if no element
      separates the two. */
  lemma {:induction false} CountSubset<T>(m: multiset<T>, p: T -> bool, q: T -> bool)
    requires forall x :: x in m && p(x) ==> q(x)
    ensures Count(m, p) <= Count(m, q)
    ensures Count(m, p) == Count(m, q) ==> forall x :: x in m && q(x) ==> p(x)
  {
    var d := x => q(x) && !p(x);
    CountDisjoint(m, p, d, q);
    CountZero(m, d);
  }
}
