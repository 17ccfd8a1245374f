/** List idioms shared by the modules below. */
module Sequences {

  /** `s[::-1]`, or what `s.reverse()` leaves. */
  function Reverse<T>(s: seq<T>): (r: seq<T>)
    ensures |r| == |s|
    ensures forall i {:trigger r[i]} :: 0 <= i < |s| ==> r[i] == s[|s| - 1 - i]
  {
    seq(|s|, i requires 0 <= i < |s| => s[|s| - 1 - i])
  }

  lemma ReverseSnoc<T>(s: seq<T>, x: T)
    ensures Reverse(s + [x]) == [x] + Reverse(s)
  {
  }

  lemma InConcat<T>(a: seq<T>, b: seq<T>, x: T)
    ensures x in a + b <==> x in a || x in b
  {
  }

  lemma ReverseMembers<T>(s: seq<T>, x: T)
    ensures x in Reverse(s) <==> x in s
  {
    if k :| 0 <= k < |s| && s[k] == x {
      assert Reverse(s)[|s| - 1 - k] == x;
    }
  }

  lemma {:induction false} ReverseCounts<T>(s: seq<T>)
    ensures multiset(Reverse(s)) == multiset(s)
  {
    if s != [] {
      var rest, last := s[..|s| - 1], s[|s| - 1];
      assert s == rest + [last];
      ReverseSnoc(rest, last);
      ReverseCounts(rest);
    }
  }

  ghost predicate NoDuplicates<T>(s: seq<T>) {
    forall i, j :: 0 <= i < j < |s| ==> s[i] != s[j]
  }

  lemma {:induction false} NoDuplicatesOnce<N(!new)>(s: seq<N>, x: N)
    requires NoDuplicates(s)
    ensures multiset(s)[x] == if x in s then 1 else 0
  {
    if s != [] {
      assert s == s[..|s| - 1] + [s[|s| - 1]];
      NoDuplicatesOnce(s[..|s| - 1], x);
    }
  }

  /** How many different elements a list has. */
  lemma {:induction false} DistinctCount<T(!new)>(s: seq<T>)
    ensures |set x | x in s| <= |s|
    ensures |set x | x in s| == |s| <==> NoDuplicates(s)
  {
    if s != [] {
      var rest, last := s[..|s| - 1], s[|s| - 1];
      assert s == rest + [last];
      DistinctCount(rest);
      assert (set x | x in s) == (set x | x in rest) + {last};
      if last in rest {
        var i :| 0 <= i < |rest| && rest[i] == last;
        assert s[i] == s[|s| - 1];
        assert (set x | x in s) == (set x | x in rest);
      }
    }
  }

  lemma SameMembersDistinct<T(!new)>(a: seq<T>, b: seq<T>)
    requires NoDuplicates(a) && multiset(a) == multiset(b)
    ensures NoDuplicates(b)
  {
    forall i, j | 0 <= i < j < |b| ensures b[i] != b[j] {
      NoDuplicatesOnce(a, b[i]);
      assert b == b[..j] + b[j..];
      assert b[..j][i] == b[i] && b[j..][0] == b[j];
    }
  }

  /** What holds of each element of a shorter prefix. */
  lemma EachNext<T>(p: T -> bool, less: seq<T>, more: seq<T>)
    requires |more| == |less| + 1 && more[..|less|] == less && forall i :: 0 <= i < |less| ==> p(less[i])
    ensures (forall i :: 0 <= i < |more| ==> p(more[i])) <==> p(more[|less|])
  {
    forall i | 0 <= i < |less| ensures p(more[i]) {
      assert more[i] == less[i];
    }
  }

  lemma TakeNext<T>(s: seq<T>, i: nat)
    requires i < |s|
    ensures s[i] in s && s[..i + 1] == s[..i] + [s[i]]
    ensures multiset(s[..i + 1]) == multiset(s[..i]) + multiset{s[i]}
  {
    assert s[..i + 1] == s[..i] + [s[i]];
  }

  lemma DropNext<T>(a: seq<T>, s: seq<T>, k: nat)
    requires k < |s|
    ensures a + s[k..] == a + [s[k]] + s[k + 1..]
  {
    assert s[k..] == [s[k]] + s[k + 1..];
  }

  /** `[f(x) for x in s]`. */
  function Map<A, B>(f: A -> B, s: seq<A>): (r: seq<B>)
    ensures |r| == |s|
    ensures forall i {:trigger r[i]} :: 0 <= i < |s| ==> r[i] == f(s[i])
  {
    seq(|s|, i requires 0 <= i < |s| => f(s[i]))
  }

  lemma MapCons<A, B>(f: A -> B, x: A, rest: seq<A>)
    ensures Map(f, [x] + rest) == [f(x)] + Map(f, rest)
  {
  }

  lemma MapConcat<A, B>(f: A -> B, s: seq<A>, t: seq<A>)
    ensures Map(f, s + t) == Map(f, s) + Map(f, t)
  {
  }

  lemma MapMembers<A(!new), B>(f: A -> B, s: seq<A>, y: B)
    ensures y in Map(f, s) <==> exists x :: x in s && f(x) == y
  {
    if x :| x in s && f(x) == y {
      var i :| 0 <= i < |s| && s[i] == x;
      assert Map(f, s)[i] == y;
    }
    if y in Map(f, s) {
      var i :| 0 <= i < |s| && Map(f, s)[i] == y;
      assert s[i] in s;
    }
  }

  /** `for x in s: out.extend(f(x))`. */
  function Gather<A, B>(f: A -> seq<B>, s: seq<A>): seq<B> {
    if s == [] then [] else Gather(f, s[..|s| - 1]) + f(s[|s| - 1])
  }

  lemma {:induction false} GatherConcat<A, B>(f: A -> seq<B>, s: seq<A>, t: seq<A>)
    ensures Gather(f, s + t) == Gather(f, s) + Gather(f, t)
  {
    if t == [] {
      assert s + t == s;
    } else {
      var n := |t| - 1;
      assert (s + t)[..|s + t| - 1] == s + t[..n];
      GatherConcat(f, s, t[..n]);
    }
  }

  lemma GatherOne<A, B>(f: A -> seq<B>, x: A)
    ensures Gather(f, [x]) == f(x)
  {
    assert [x][..0] == [];
  }

  /** Everything gathered comes from some element, and all of it arrives. */
  lemma {:induction false} GatherMembers<A(!new), B>(f: A -> seq<B>, s: seq<A>, y: B)
    ensures y in Gather(f, s) <==> exists x :: x in s && y in f(x)
  {
    if s != [] {
      var rest, last := s[..|s| - 1], s[|s| - 1];
      assert s == rest + [last];
      GatherMembers(f, rest, y);
      assert forall x :: x in s <==> x in rest || x == last;
    }
  }

  /** Gathering at most one item each, never the same from two, repeats nothing. */
  lemma {:induction false} GatherDistinct<A(!new), B(!new)>(f: A -> seq<B>, s: seq<A>)
    requires NoDuplicates(s) && forall x :: |f(x)| <= 1
    requires forall x, y, b :: b in f(x) && b in f(y) ==> x == y
    ensures NoDuplicates(Gather(f, s))
  {
    if s != [] {
      var rest, last := s[..|s| - 1], s[|s| - 1];
      GatherDistinct(f, rest);
      if f(last) != [] {
        GatherMembers(f, rest, f(last)[0]);
        assert f(last)[0] in f(last);
        assert f(last)[0] !in Gather(f, rest);
      }
    }
  }

  lemma {:induction false} GatherCount<A(!new), B>(f: A -> seq<B>, s: seq<A>)
    requires forall i :: 0 <= i < |s| ==> |f(s[i])| == 1
    ensures |Gather(f, s)| == |s|
  {
    if s != [] {
      GatherCount(f, s[..|s| - 1]);
    }
  }

  /** `for k in range(r): out.extend(stage(k))`. */
  function Stages<T>(stage: nat -> seq<T>, r: nat): seq<T> {
    if r == 0 then [] else Stages(stage, r - 1) + stage(r - 1)
  }

  lemma {:induction false} StagesMembers<T>(stage: nat -> seq<T>, r: nat, x: T)
    ensures x in Stages(stage, r) <==> exists k: nat :: k < r && x in stage(k)
  {
    if r > 0 {
      StagesMembers(stage, r - 1, x);
      InConcat(Stages(stage, r - 1), stage(r - 1), x);
    }
  }

  lemma {:induction false} StagesPrefix<T>(stage: nat -> seq<T>, r: nat, n: nat)
    requires r <= n
    ensures Stages(stage, r) <= Stages(stage, n)
  {
    if r < n {
      StagesPrefix(stage, r, n - 1);
    }
  }

  lemma NoDuplicatesConcat<T>(a: seq<T>, b: seq<T>)
    requires NoDuplicates(a) && NoDuplicates(b) && forall x :: x in a ==> x !in b
    ensures NoDuplicates(a + b)
  {
    forall i, j | 0 <= i < |a| && 0 <= j < |b| ensures a[i] != b[j] {
      assert a[i] in a;
    }
  }

  /** Stages that share nothing repeat nothing. */
  lemma {:induction false} StagesDistinct<T(!new)>(stage: nat -> seq<T>, r: nat)
    requires forall k: nat :: k < r ==> NoDuplicates(stage(k))
    requires forall j: nat, k: nat, x :: j < k < r && x in stage(j) ==> x !in stage(k)
    ensures NoDuplicates(Stages(stage, r))
  {
    if r > 0 {
      StagesDistinct(stage, r - 1);
      var below, here := Stages(stage, r - 1), stage(r - 1);
      forall x | x in below ensures x !in here {
        StagesMembers(stage, r - 1, x);
      }
      NoDuplicatesConcat(below, here);
    }
  }

  /** Every element is before all later ones. */
  ghost predicate Ordered<T>(before: (T, T) -> bool, s: seq<T>) {
    forall i, j :: 0 <= i < j < |s| ==> before(s[i], s[j])
  }

  lemma OrderedConcat<T>(before: (T, T) -> bool, a: seq<T>, b: seq<T>)
    requires Ordered(before, a) && Ordered(before, b)
    requires forall i, j :: 0 <= i < |a| && 0 <= j < |b| ==> before(a[i], b[j])
    ensures Ordered(before, a + b)
  {
  }

  /** Gathering at most one for each keeps the order. */
  lemma {:induction false} OrderedGather<A(!new), B>(f: A -> seq<B>, s: seq<A>, before: (A, A) -> bool,
                                                     after: (B, B) -> bool)
    requires Ordered(before, s) && forall x :: |f(x)| <= 1
    requires forall x, y :: before(x, y) && f(x) != [] && f(y) != [] ==> after(f(x)[0], f(y)[0])
    ensures Ordered(after, Gather(f, s))
  {
    if s != [] {
      var rest, last := s[..|s| - 1], s[|s| - 1];
      OrderedGather(f, rest, before, after);
      var some := Gather(f, rest);
      forall i, j | 0 <= i < |some| && 0 <= j < |f(last)| ensures after(some[i], f(last)[j]) {
        assert some[i] in some;
        GatherMembers(f, rest, some[i]);
        var x :| x in rest && some[i] in f(x);
        var k :| 0 <= k < |rest| && rest[k] == x;
        assert before(s[k], s[|s| - 1]) && f(x)[0] == some[i];
      }
      OrderedConcat(after, some, f(last));
    }
  }

  // --------------------------------------------------------------- stable sort

  /** `s.sort(...)`, one element at a time; `after(x, y)` when `x` must follow `y`. */
  function Sorted<T>(after: (T, T) -> bool, s: seq<T>): seq<T> {
    if s == [] then [] else Insert(after, Sorted(after, s[..|s| - 1]), s[|s| - 1])
  }

  function Insert<T>(after: (T, T) -> bool, s: seq<T>, x: T): seq<T> {
    if s == [] || !after(s[|s| - 1], x) then s + [x] else Insert(after, s[..|s| - 1], x) + [s[|s| - 1]]
  }

  ghost predicate InOrder<T>(after: (T, T) -> bool, s: seq<T>) {
    forall i, j :: 0 <= i < j < |s| ==> !after(s[i], s[j])
  }

  ghost predicate WeakOrder<T(!new)>(after: (T, T) -> bool) {
    && (forall x, y :: after(x, y) ==> !after(y, x))
    && forall x, y, z :: !after(x, y) && !after(y, z) ==> !after(x, z)
  }

  lemma {:induction false} InsertOrdered<T(!new)>(after: (T, T) -> bool, s: seq<T>, x: T)
    requires InOrder(after, s) && WeakOrder(after)
    ensures InOrder(after, Insert(after, s, x))
    ensures multiset(Insert(after, s, x)) == multiset(s) + multiset{x}
  {
    if s != [] {
      var rest, last := s[..|s| - 1], s[|s| - 1];
      assert s == rest + [last];
      if after(last, x) {
        InsertOrdered(after, rest, x);
        var placed := Insert(after, rest, x);
        forall i | 0 <= i < |placed| ensures !after(placed[i], last) {
          InsertMembers(after, rest, x, placed[i]);
        }
      } else {
        assert forall i :: 0 <= i < |rest| ==> !after(s[i], last);
      }
    }
  }

  lemma {:induction false} InsertMembers<T(!new)>(after: (T, T) -> bool, s: seq<T>, x: T, y: T)
    requires y in Insert(after, s, x) && multiset(Insert(after, s, x)) == multiset(s) + multiset{x}
    ensures y == x || y in s
  {
    assert y in multiset(Insert(after, s, x));
  }

  lemma {:induction false} SortedKeeps<T(!new)>(after: (T, T) -> bool, s: seq<T>)
    requires WeakOrder(after)
    ensures InOrder(after, Sorted(after, s)) && multiset(Sorted(after, s)) == multiset(s)
  {
    if s != [] {
      var rest, last := s[..|s| - 1], s[|s| - 1];
      assert s == rest + [last];
      SortedKeeps(after, rest);
      InsertOrdered(after, Sorted(after, rest), last);
    }
  }

  function OnlyIf<T>(p: T -> bool): T -> seq<T> {
    (x: T) => if p(x) then [x] else []
  }

  lemma {:induction false} GatherSnoc<A, B>(f: A -> seq<B>, s: seq<A>, x: A)
    ensures Gather(f, s + [x]) == Gather(f, s) + f(x)
  {
    assert (s + [x])[..|s|] == s;
  }

  lemma {:induction false} InsertStable<T>(after: (T, T) -> bool, s: seq<T>, x: T, tied: T -> bool)
    requires forall y, z :: tied(y) && tied(z) ==> !after(y, z)
    ensures Gather(OnlyIf(tied), Insert(after, s, x)) == Gather(OnlyIf(tied), s) + OnlyIf(tied)(x)
  {
    if s != [] && after(s[|s| - 1], x) {
      var rest, last := s[..|s| - 1], s[|s| - 1];
      InsertStable(after, rest, x, tied);
      GatherSnoc(OnlyIf(tied), Insert(after, rest, x), last);
      assert OnlyIf(tied)(x) == [] || OnlyIf(tied)(last) == [];
    } else {
      GatherSnoc(OnlyIf(tied), s, x);
    }
  }

  /** The sort is stable: what ties keeps its order. */
  lemma {:induction false} SortedStable<T>(after: (T, T) -> bool, s: seq<T>, tied: T -> bool)
    requires forall y, z :: tied(y) && tied(z) ==> !after(y, z)
    ensures Gather(OnlyIf(tied), Sorted(after, s)) == Gather(OnlyIf(tied), s)
  {
    if s != [] {
      SortedStable(after, s[..|s| - 1], tied);
      InsertStable(after, Sorted(after, s[..|s| - 1]), s[|s| - 1], tied);
    }
  }
}
