/** Directed multigraphs as multisets of edges: degrees, walks, connection. */
module Graphs {
  import opened Counting

  // ---------------------------------------------------------------- degrees

  ghost function From<N>(u: N): ((N, N)) -> bool {
    (e: (N, N)) => e.0 == u
  }

  ghost function Into<N>(u: N): ((N, N)) -> bool {
    (e: (N, N)) => e.1 == u
  }

  ghost function Out<N>(g: multiset<(N, N)>, u: N): nat {
    Count(g, From(u))
  }

  ghost function In<N>(g: multiset<(N, N)>, u: N): nat {
    Count(g, Into(u))
  }

  /** In-degree equals out-degree everywhere. */
  ghost predicate Balanced<N(!new)>(g: multiset<(N, N)>) {
    forall u: N :: Out(g, u) == In(g, u)
  }

  lemma DegreeUnion<N>(a: multiset<(N, N)>, b: multiset<(N, N)>, u: N)
    ensures Out(a + b, u) == Out(a, u) + Out(b, u)
    ensures In(a + b, u) == In(a, u) + In(b, u)
  {
    CountUnion(a, b, From(u));
    CountUnion(a, b, Into(u));
  }

  lemma DegreeSingle<N>(e: (N, N), u: N)
    ensures Out(multiset{e}, u) == Indicator(e.0 == u)
    ensures In(multiset{e}, u) == Indicator(e.1 == u)
  {
    assert multiset{} + multiset{e} == multiset{e};
    CountAdd(multiset{}, e, From(u));
    CountAdd(multiset{}, e, Into(u));
  }

  lemma DegreeZero<N>(g: multiset<(N, N)>, u: N)
    ensures Out(g, u) == 0 <==> forall e :: e in g ==> e.0 != u
    ensures In(g, u) == 0 <==> forall e :: e in g ==> e.1 != u
  {
    CountZero(g, From(u));
    CountZero(g, Into(u));
  }

  // ------------------------------------------------------------------ walks

  /** The consecutive pairs of a list of nodes. */
  function Steps<N>(c: seq<N>): (r: seq<(N, N)>)
    ensures |r| == if |c| == 0 then 0 else |c| - 1
    ensures forall i {:trigger r[i]} :: 0 <= i < |r| ==> r[i] == (c[i], c[i + 1])
  {
    if |c| == 0 then [] else seq(|c| - 1, i requires 0 <= i < |c| - 1 => (c[i], c[i + 1]))
  }

  lemma StepsCons<N>(u: N, c: seq<N>)
    requires c != []
    ensures Steps([u] + c) == [(u, c[0])] + Steps(c)
    ensures multiset(Steps([u] + c)) == multiset{(u, c[0])} + multiset(Steps(c))
  {
    assert Steps([u] + c) == [(u, c[0])] + Steps(c);
  }

  lemma StepsSnoc<N>(c: seq<N>, v: N)
    requires c != []
    ensures Steps(c + [v]) == Steps(c) + [(c[|c| - 1], v)]
    ensures multiset(Steps(c + [v])) == multiset(Steps(c)) + multiset{(c[|c| - 1], v)}
  {
    assert Steps(c + [v]) == Steps(c) + [(c[|c| - 1], v)];
  }

  /** Along a walk only the two ends can be out of balance. */
  lemma {:induction false} WalkBalance<N>(c: seq<N>, u: N)
    requires c != []
    ensures Out(multiset(Steps(c)), u) + Indicator(u == c[|c| - 1])
         == In(multiset(Steps(c)), u) + Indicator(u == c[0])
  {
    if |c| == 1 {
      assert Steps(c) == [];
      DegreeZero(multiset(Steps(c)), u);
    } else {
      var d := c[1..];
      assert c == [c[0]] + d;
      StepsCons(c[0], d);
      WalkBalance(d, u);
      DegreeUnion(multiset{(c[0], d[0])}, multiset(Steps(d)), u);
      DegreeSingle((c[0], d[0]), u);
    }
  }

  /** A list of nodes every step of which is an edge. */
  ghost predicate IsWalk<N>(g: multiset<(N, N)>, p: seq<N>) {
    p != [] && forall i :: 0 <= i < |p| - 1 ==> (p[i], p[i + 1]) in g
  }

  /** A directed path leads from `a` to `b`. */
  ghost predicate Reaches<N(!new)>(g: multiset<(N, N)>, a: N, b: N) {
    exists p: seq<N> :: IsWalk(g, p) && p[0] == a && p[|p| - 1] == b
  }

  // ------------------------------------------------------------- connection

  /** Adjacent when the direction of edges is ignored. */
  ghost predicate Linked<N>(g: multiset<(N, N)>, a: N, b: N) {
    (a, b) in g || (b, a) in g
  }

  ghost predicate IsPath<N>(g: multiset<(N, N)>, p: seq<N>) {
    p != [] && forall i :: 0 <= i < |p| - 1 ==> Linked(g, p[i], p[i + 1])
  }

  /** An undirected path joins `a` and `b`. */
  ghost predicate Connected<N(!new)>(g: multiset<(N, N)>, a: N, b: N) {
    exists p: seq<N> :: IsPath(g, p) && p[0] == a && p[|p| - 1] == b
  }

  lemma ConnectedRefl<N(!new)>(g: multiset<(N, N)>, a: N)
    ensures Connected(g, a, a)
  {
    assert IsPath(g, [a]);
  }

  lemma ConnectedStep<N(!new)>(g: multiset<(N, N)>, a: N, b: N, c: N)
    requires Connected(g, a, b) && Linked(g, b, c)
    ensures Connected(g, a, c)
  {
    var p :| IsPath(g, p) && p[0] == a && p[|p| - 1] == b;
    var q := p + [c];
    assert IsPath(g, q);
    assert q[|q| - 1] == c;
  }

  lemma ConnectedSym<N(!new)>(g: multiset<(N, N)>, a: N, b: N)
    requires Connected(g, a, b)
    ensures Connected(g, b, a)
  {
    var p :| IsPath(g, p) && p[0] == a && p[|p| - 1] == b;
    var q := seq(|p|, i requires 0 <= i < |p| => p[|p| - 1 - i]);
    forall i | 0 <= i < |q| - 1 ensures Linked(g, q[i], q[i + 1]) {
      var j := |p| - 2 - i;
      assert Linked(g, p[j], p[j + 1]);
    }
    assert IsPath(g, q);
  }

  lemma ConnectedTrans<N(!new)>(g: multiset<(N, N)>, a: N, b: N, c: N)
    requires Connected(g, a, b) && Connected(g, b, c)
    ensures Connected(g, a, c)
  {
    var p :| IsPath(g, p) && p[0] == a && p[|p| - 1] == b;
    var q :| IsPath(g, q) && q[0] == b && q[|q| - 1] == c;
    var r := p + q[1..];
    forall i | 0 <= i < |r| - 1 ensures Linked(g, r[i], r[i + 1]) {
      if i < |p| - 1 {
        assert Linked(g, p[i], p[i + 1]);
      } else {
        var j := i - (|p| - 1);
        assert r[i] == q[j] && r[i + 1] == q[j + 1];
        assert Linked(g, q[j], q[j + 1]);
      }
    }
    assert IsPath(g, r);
    assert r[|r| - 1] == c;
  }

  /** Everything on a walk is connected to where it starts. */
  lemma {:induction false} WalkConnects<N(!new)>(g: multiset<(N, N)>, p: seq<N>, k: nat)
    requires IsWalk(g, p) && k < |p|
    ensures Connected(g, p[0], p[k])
  {
    if k == 0 {
      ConnectedRefl(g, p[0]);
    } else {
      WalkConnects(g, p, k - 1);
      assert (p[k - 1], p[k - 1 + 1]) in g;
      ConnectedStep(g, p[0], p[k - 1], p[k]);
    }
  }

  /** No edge crosses the boundary of `s`. */
  ghost predicate Closed<N>(g: multiset<(N, N)>, s: set<N>) {
    forall e :: e in g ==> (e.0 in s <==> e.1 in s)
  }

  lemma {:induction false} ClosedHoldsPath<N(!new)>(g: multiset<(N, N)>, s: set<N>, p: seq<N>, k: nat)
    requires Closed(g, s) && IsPath(g, p) && p[0] in s && k < |p|
    ensures p[k] in s
  {
    if k > 0 {
      ClosedHoldsPath(g, s, p, k - 1);
      assert Linked(g, p[k - 1], p[k - 1 + 1]);
    }
  }

  lemma ClosedHoldsConnected<N(!new)>(g: multiset<(N, N)>, s: set<N>, a: N, b: N)
    requires Closed(g, s) && a in s && Connected(g, a, b)
    ensures b in s
  {
    var p :| IsPath(g, p) && p[0] == a && p[|p| - 1] == b;
    ClosedHoldsPath(g, s, p, |p| - 1);
  }

  function Nodes<N(==)>(c: seq<N>): set<N> {
    set v | v in c
  }

  /** The nodes on `c` are one whole weakly connected component of `g`. */
  ghost predicate IsComponent<N(!new)>(g: multiset<(N, N)>, c: seq<N>) {
    && c != []
    && Closed(g, Nodes(c))
    && (forall v :: v in c ==> Connected(g, c[0], v))
  }

  /** Membership of a component is exactly undirected connection. */
  lemma ComponentIsConnection<N(!new)>(g: multiset<(N, N)>, c: seq<N>, a: N, b: N)
    requires IsComponent(g, c) && a in c
    ensures b in c <==> Connected(g, a, b)
  {
    if b in c {
      ConnectedSym(g, c[0], a);
      ConnectedTrans(g, a, c[0], b);
    }
    if Connected(g, a, b) {
      ClosedHoldsConnected(g, Nodes(c), a, b);
    }
  }

  // ---------------------------------------------- balance and directed reach

  ghost function FromSet<N>(s: set<N>): ((N, N)) -> bool {
    (e: (N, N)) => e.0 in s
  }

  ghost function IntoSet<N>(s: set<N>): ((N, N)) -> bool {
    (e: (N, N)) => e.1 in s
  }

  /** In a balanced graph as many edges leave a set of nodes as enter it. */
  lemma {:induction false} BalancedCut<N(!new)>(g: multiset<(N, N)>, s: set<N>)
    requires Balanced(g)
    ensures Count(g, FromSet(s)) == Count(g, IntoSet(s))
  {
    if s == {} {
      CountZero(g, FromSet(s));
      CountZero(g, IntoSet(s));
    } else {
      var u :| u in s;
      var t := s - {u};
      BalancedCut(g, t);
      CountDisjoint(g, FromSet(t), From(u), FromSet(s));
      CountDisjoint(g, IntoSet(t), Into(u), IntoSet(s));
      assert Out(g, u) == In(g, u);
    }
  }

  /** So a set that no edge leaves is entered by none. */
  lemma BalancedNoExit<N(!new)>(g: multiset<(N, N)>, s: set<N>)
    requires Balanced(g)
    requires forall e :: e in g && e.0 in s ==> e.1 in s
    ensures Closed(g, s)
  {
    BalancedCut(g, s);
    CountSubset(g, FromSet(s), IntoSet(s));
    forall e | e in g ensures e.0 in s <==> e.1 in s {
      if e.1 in s {
        assert IntoSet(s)(e) && FromSet(s)(e);
      }
    }
  }

  /** Undirected connection in a balanced graph is directed reachability: this
      is what lets the engine decompose on the undirected view and still start
      anywhere in a component. */
  lemma BalancedConnectedReaches<N(!new)>(g: multiset<(N, N)>, a: N, b: N)
    requires Balanced(g)
    ensures Connected(g, a, b) <==> Reaches(g, a, b)
  {
    if Reaches(g, a, b) {
      var p :| IsWalk(g, p) && p[0] == a && p[|p| - 1] == b;
      WalkConnects(g, p, |p| - 1);
    }
    if Connected(g, a, b) {
      assert IsWalk(g, [a]);
      assert Reaches(g, a, a);
      var heads := set e | e in g && Reaches(g, a, e.1) :: e.1;
      var s := heads + {a};
      forall e | e in g && e.0 in s ensures e.1 in s {
        assert Reaches(g, a, e.0);
        var p :| IsWalk(g, p) && p[0] == a && p[|p| - 1] == e.0;
        assert IsWalk(g, p + [e.1]);
        assert (p + [e.1])[|p|] == e.1;
        assert Reaches(g, a, e.1);
      }
      BalancedNoExit(g, s);
      ClosedHoldsConnected(g, s, a, b);
    }
  }
}
