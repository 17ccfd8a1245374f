/** `itertools.combinations`: which lists it yields, each once, and how many. */
module Combinations {
  import opened Sequences

  function Prefixed<T>(x: T, lists: seq<seq<T>>): (r: seq<seq<T>>)
    ensures |r| == |lists|
    ensures forall i {:trigger r[i]} :: 0 <= i < |r| ==> r[i] == [x] + lists[i]
  {
    seq(|lists|, i requires 0 <= i < |lists| => [x] + lists[i])
  }

  /** In lexicographic order of positions. */
  function Choose<T>(xs: seq<T>, r: nat): seq<seq<T>> {
    if r == 0 then [[]]
    else if xs == [] then []
    else Prefixed(xs[0], Choose(xs[1..], r - 1)) + Choose(xs[1..], r)
  }

  /** `ys` keeps some elements of `xs`, in order. */
  ghost predicate IsSublist<T>(ys: seq<T>, xs: seq<T>) {
    if ys == [] then true
    else xs != [] && ((ys[0] == xs[0] && IsSublist(ys[1..], xs[1..])) || IsSublist(ys, xs[1..]))
  }

  lemma {:induction false} SublistMembers<T(!new)>(ys: seq<T>, xs: seq<T>)
    requires IsSublist(ys, xs)
    ensures forall y :: y in ys ==> y in xs
  {
    if ys != [] {
      if ys[0] == xs[0] && IsSublist(ys[1..], xs[1..]) {
        SublistMembers(ys[1..], xs[1..]);
        assert ys == [ys[0]] + ys[1..];
      } else {
        SublistMembers(ys, xs[1..]);
      }
    }
  }

  /** One more element, kept or not. */
  lemma {:induction false} SublistSnoc<T(!new)>(ys: seq<T>, xs: seq<T>, x: T)
    requires IsSublist(ys, xs)
    ensures IsSublist(ys, xs + [x]) && IsSublist(ys + [x], xs + [x])
  {
    if xs == [] {
      assert [x][1..] == [] && ys + [x] == [x] && xs + [x] == [x];
    } else {
      assert (xs + [x])[1..] == xs[1..] + [x];
      if ys != [] && ys[0] == xs[0] && IsSublist(ys[1..], xs[1..]) {
        assert (ys + [x])[1..] == ys[1..] + [x];
        SublistSnoc(ys[1..], xs[1..], x);
      } else {
        SublistSnoc(ys, xs[1..], x);
      }
    }
  }

  lemma PrefixedMembers<T(!new)>(x: T, lists: seq<seq<T>>, ys: seq<T>)
    ensures ys in Prefixed(x, lists) <==> ys != [] && ys[0] == x && ys[1..] in lists
  {
    if ys in Prefixed(x, lists) {
      var i :| 0 <= i < |lists| && Prefixed(x, lists)[i] == ys;
      assert ys[1..] == lists[i];
    }
    if ys != [] && ys[0] == x && ys[1..] in lists {
      var i :| 0 <= i < |lists| && lists[i] == ys[1..];
      assert Prefixed(x, lists)[i] == ys;
    }
  }

  /** One step of the choice: with the first element, or without it. */
  lemma ChooseStep<T(!new)>(xs: seq<T>, r: nat, ys: seq<T>)
    requires r > 0 && xs != []
    ensures ys in Choose(xs, r) <==>
      (ys != [] && ys[0] == xs[0] && ys[1..] in Choose(xs[1..], r - 1)) || ys in Choose(xs[1..], r)
  {
    var first, rest := Choose(xs[1..], r - 1), Choose(xs[1..], r);
    InConcat(Prefixed(xs[0], first), rest, ys);
    PrefixedMembers(xs[0], first, ys);
  }

  lemma {:induction false} ChooseSizes<T>(xs: seq<T>, r: nat)
    ensures forall i :: 0 <= i < |Choose(xs, r)| ==> |Choose(xs, r)[i]| == r
  {
    if r > 0 && xs != [] {
      ChooseSizes(xs[1..], r - 1);
      ChooseSizes(xs[1..], r);
    }
  }

  lemma {:induction false} ChooseSize<T(!new)>(xs: seq<T>, r: nat, ys: seq<T>)
    requires ys in Choose(xs, r)
    ensures |ys| == r
  {
    ChooseSizes(xs, r);
  }

  lemma {:induction false} ChooseSublists<T(!new)>(xs: seq<T>, r: nat, ys: seq<T>)
    requires |ys| == r
    ensures ys in Choose(xs, r) <==> IsSublist(ys, xs)
  {
    if r == 0 {
      assert Choose(xs, r)[0] == ys;
    } else if xs != [] {
      ChooseStep(xs, r, ys);
      ChooseSublists(xs[1..], r, ys);
      ChooseSublists(xs[1..], r - 1, ys[1..]);
    }
  }

  /** Exactly the sub-lists of the given size. */
  lemma {:induction false} ChooseExact<T(!new)>(xs: seq<T>, r: nat, ys: seq<T>)
    ensures ys in Choose(xs, r) <==> |ys| == r && IsSublist(ys, xs)
  {
    if ys in Choose(xs, r) {
      ChooseSize(xs, r, ys);
    }
    if |ys| == r {
      ChooseSublists(xs, r, ys);
    }
  }

  /** Distinct elements are chosen in distinct ways. */
  lemma {:induction false} ChooseDistinct<T(!new)>(xs: seq<T>, r: nat)
    requires NoDuplicates(xs)
    ensures NoDuplicates(Choose(xs, r))
  {
    if r > 0 && xs != [] {
      var x, rest := xs[0], xs[1..];
      ChooseDistinct(rest, r - 1);
      ChooseDistinct(rest, r);
      var a, b := Prefixed(x, Choose(rest, r - 1)), Choose(rest, r);
      forall i, j | 0 <= i < j < |a| ensures a[i] != a[j] {
        assert a[i][1..] == Choose(rest, r - 1)[i] && a[j][1..] == Choose(rest, r - 1)[j];
      }
      assert x !in rest;
      forall ys | ys in a ensures ys !in b {
        PrefixedMembers(x, Choose(rest, r - 1), ys);
        ChooseExact(rest, r, ys);
        assert ys[0] in ys;
        if IsSublist(ys, rest) {
          SublistMembers(ys, rest);
        }
      }
      NoDuplicatesConcat(a, b);
    }
  }

  // ------------------------------------------------------------------ counting

  function Binomial(n: nat, r: nat): nat {
    if r == 0 then 1 else if n == 0 then 0 else Binomial(n - 1, r - 1) + Binomial(n - 1, r)
  }

  lemma {:induction false} ChooseCount<T>(xs: seq<T>, r: nat)
    ensures |Choose(xs, r)| == Binomial(|xs|, r)
  {
    if r > 0 && xs != [] {
      ChooseCount(xs[1..], r - 1);
      ChooseCount(xs[1..], r);
    }
  }

  function Pow2(n: nat): nat {
    if n == 0 then 1 else 2 * Pow2(n - 1)
  }

  /** The first `k` entries of row `n` of Pascal's triangle. */
  function RowSum(n: nat, k: nat): nat {
    if k == 0 then 0 else RowSum(n, k - 1) + Binomial(n, k - 1)
  }

  lemma {:induction false} RowStep(n: nat, k: nat)
    requires k > 0
    ensures RowSum(n + 1, k) == RowSum(n, k) + RowSum(n, k - 1)
  {
    if k > 1 {
      RowStep(n, k - 1);
    } else {
      assert RowSum(n + 1, 1) == 1 && RowSum(n, 1) == 1 by {
        assert RowSum(n + 1, 0) == 0 && RowSum(n, 0) == 0;
      }
    }
  }

  lemma {:induction false} BeyondRow(n: nat, r: nat)
    requires r > n
    ensures Binomial(n, r) == 0
  {
    if n > 0 {
      BeyondRow(n - 1, r - 1);
      BeyondRow(n - 1, r);
    }
  }

  /** A set of `n` has two to the `n` subsets. */
  lemma {:induction false} RowTotal(n: nat)
    ensures RowSum(n, n + 1) == Pow2(n)
  {
    if n == 0 {
      assert RowSum(0, 0) == 0;
    } else {
      RowTotal(n - 1);
      RowStep(n - 1, n + 1);
      BeyondRow(n - 1, n);
    }
  }

  // ------------------------------------------------------------------ the order

  /** `a` comes before `b`: at the first place where their elements come from
      different positions of `xs`, that of `a` is the smaller. */
  ghost predicate Before<T>(xs: seq<T>, a: seq<T>, b: seq<T>) {
    exists k, p, q :: 0 <= k < |a| && k < |b| && a[..k] == b[..k] && Places(xs, a[k], b[k], p, q)
  }

  ghost predicate Places<T>(xs: seq<T>, x: T, y: T, p: int, q: int) {
    0 <= p < q < |xs| && xs[p] == x && xs[q] == y
  }

  lemma BeforeLater<T>(xs: seq<T>, a: seq<T>, b: seq<T>)
    requires xs != [] && Before(xs[1..], a, b)
    ensures Before(xs, a, b)
  {
    var k, p, q :| 0 <= k < |a| && k < |b| && a[..k] == b[..k] && Places(xs[1..], a[k], b[k], p, q);
    assert Places(xs, a[k], b[k], p + 1, q + 1);
  }

  lemma BeforeLonger<T>(xs: seq<T>, x: T, a: seq<T>, b: seq<T>)
    requires Before(xs, a, b)
    ensures Before(xs, [x] + a, [x] + b)
  {
    var k, p, q :| 0 <= k < |a| && k < |b| && a[..k] == b[..k] && Places(xs, a[k], b[k], p, q);
    assert ([x] + a)[..k + 1] == [x] + a[..k] && ([x] + b)[..k + 1] == [x] + b[..k];
    assert ([x] + a)[k + 1] == a[k] && ([x] + b)[k + 1] == b[k];
  }

  /** A choice with the first element comes before one without. */
  lemma BeforeFirst<T(!new)>(xs: seq<T>, r: nat, a: seq<T>, b: seq<T>)
    requires r > 0 && xs != [] && a != [] && a[0] == xs[0] && b in Choose(xs[1..], r)
    ensures Before(xs, a, b)
  {
    ChooseSize(xs[1..], r, b);
    ChooseExact(xs[1..], r, b);
    SublistMembers(b, xs[1..]);
    assert b[0] in b;
    var q :| 0 <= q < |xs[1..]| && xs[1..][q] == b[0];
    assert a[..0] == b[..0] && Places(xs, a[0], b[0], 0, q + 1);
  }

  ghost function Earlier<T>(xs: seq<T>): (seq<T>, seq<T>) -> bool {
    (a: seq<T>, b: seq<T>) => Before(xs, a, b)
  }

  lemma LaterOrdered<T>(xs: seq<T>, lists: seq<seq<T>>)
    requires xs != [] && Ordered(Earlier(xs[1..]), lists)
    ensures Ordered(Earlier(xs), lists)
  {
    forall i, j | 0 <= i < j < |lists| ensures Earlier(xs)(lists[i], lists[j]) {
      assert Earlier(xs[1..])(lists[i], lists[j]);
      BeforeLater(xs, lists[i], lists[j]);
    }
  }

  lemma PrefixedOrdered<T>(xs: seq<T>, x: T, lists: seq<seq<T>>)
    requires Ordered(Earlier(xs), lists)
    ensures Ordered(Earlier(xs), Prefixed(x, lists))
  {
    forall i, j | 0 <= i < j < |lists| ensures Earlier(xs)(Prefixed(x, lists)[i], Prefixed(x, lists)[j]) {
      assert Earlier(xs)(lists[i], lists[j]);
      BeforeLonger(xs, x, lists[i], lists[j]);
    }
  }

  /** Choices come in the lexicographic order of their positions. */
  lemma {:induction false} ChooseOrder<T(!new)>(xs: seq<T>, r: nat)
    ensures Ordered(Earlier(xs), Choose(xs, r))
  {
    if r > 0 && xs != [] {
      var first, rest := Choose(xs[1..], r - 1), Choose(xs[1..], r);
      ChooseOrder(xs[1..], r - 1);
      LaterOrdered(xs, first);
      PrefixedOrdered(xs, xs[0], first);
      ChooseOrder(xs[1..], r);
      LaterOrdered(xs, rest);
      var with := Prefixed(xs[0], first);
      forall i, j | 0 <= i < |with| && 0 <= j < |rest| ensures Earlier(xs)(with[i], rest[j]) {
        assert rest[j] in rest;
        BeforeFirst(xs, r, with[i], rest[j]);
      }
      OrderedConcat(Earlier(xs), with, rest);
    }
  }
}
