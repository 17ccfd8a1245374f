/** The engine's Eulerian traversal (test_suite/__init__.py, lines 76-103 and
    241-322): target edges, balance check, decomposition, one walk a component. */
module Traversal {
  import opened Wrappers
  import opened Counting
  import opened Graphs
  import opened Hierholzer
  import opened Components
  import opened Sequences
  import Combinations

  // ------------------------------------------------------------ target edges

  function Arrows<N(==)>(u: N, vs: seq<N>): seq<(N, N)> {
    if vs == [] then []
    else Arrows(u, vs[..|vs| - 1]) + (if u != vs[|vs| - 1] then [(u, vs[|vs| - 1])] else [])
  }

  /** `[(u, v) for u in us for v in vs if u != v]`. */
  function AllArrows<N(==)>(us: seq<N>, vs: seq<N>): seq<(N, N)> {
    if us == [] then []
    else AllArrows(us[..|us| - 1], vs) + Arrows(us[|us| - 1], vs)
  }

  /** The edges of `edges` whose ends are both in `nodes`, in order. */
  function Within<N(==)>(edges: seq<(N, N)>, nodes: seq<N>): seq<(N, N)> {
    if edges == [] then []
    else
      var e := edges[|edges| - 1];
      Within(edges[..|edges| - 1], nodes) + (if e.0 in nodes && e.1 in nodes then [e] else [])
  }

  /** Lines 277-283. An empty list, like an absent one, asks for the complete digraph. */
  function Target<N(==)>(sdks: seq<N>, edges: Option<seq<(N, N)>>): seq<(N, N)> {
    if edges.Some? && edges.value != [] then Within(edges.value, sdks) else AllArrows(sdks, sdks)
  }

  /** All ends are among `nodes`. */
  ghost predicate EndsIn<N(!new)>(edges: seq<(N, N)>, nodes: seq<N>) {
    forall e :: e in edges ==> e.0 in nodes && e.1 in nodes
  }

  lemma {:induction false} ArrowsCount<N(!new)>(u: N, vs: seq<N>, a: N, b: N)
    ensures multiset(Arrows(u, vs))[(a, b)] == if a == u && a != b then multiset(vs)[b] else 0
  {
    if vs != [] {
      var rest, v := vs[..|vs| - 1], vs[|vs| - 1];
      assert vs == rest + [v];
      ArrowsCount(u, rest, a, b);
    }
  }

  /** Between distinct ids, as many arrows as pairs of their occurrences. */
  lemma {:induction false} AllArrowsCount<N(!new)>(us: seq<N>, vs: seq<N>, a: N, b: N)
    ensures multiset(AllArrows(us, vs))[(a, b)] == if a == b then 0 else multiset(us)[a] * multiset(vs)[b]
  {
    if us != [] {
      var rest, u := us[..|us| - 1], us[|us| - 1];
      assert us == rest + [u];
      AllArrowsCount(rest, vs, a, b);
      ArrowsCount(u, vs, a, b);
      var m, k := multiset(rest)[a], multiset(vs)[b];
      assert multiset(AllArrows(us, vs)) == multiset(AllArrows(rest, vs)) + multiset(Arrows(u, vs));
      if a == u {
        assert multiset(us)[a] == m + 1;
        Distribute(m, 1, k);
      } else {
        assert multiset(us)[a] == m;
      }
    }
  }

  lemma Distribute(x: int, y: int, z: int)
    ensures (x + y) * z == x * z + y * z
  {
  }

  lemma {:induction false} WithinMembers<N(!new)>(edges: seq<(N, N)>, nodes: seq<N>)
    ensures forall e :: e in Within(edges, nodes) <==> e in edges && e.0 in nodes && e.1 in nodes
  {
    if edges != [] {
      assert edges == edges[..|edges| - 1] + [edges[|edges| - 1]];
      WithinMembers(edges[..|edges| - 1], nodes);
    }
  }

  /** Edges that already lie among `nodes` are all kept. */
  lemma {:induction false} WithinAll<N(!new)>(edges: seq<(N, N)>, nodes: seq<N>)
    requires EndsIn(edges, nodes)
    ensures Within(edges, nodes) == edges
  {
    if edges != [] {
      var rest, e := edges[..|edges| - 1], edges[|edges| - 1];
      assert edges == rest + [e];
      assert e in edges;
      WithinAll(rest, nodes);
    }
  }

  lemma {:induction false} WithinCount<N(!new)>(edges: seq<(N, N)>, nodes: seq<N>, e: (N, N))
    ensures multiset(Within(edges, nodes))[e] == if e.0 in nodes && e.1 in nodes then multiset(edges)[e] else 0
  {
    if edges != [] {
      var rest, last := edges[..|edges| - 1], edges[|edges| - 1];
      assert edges == rest + [last];
      WithinCount(rest, nodes, e);
    }
  }

  /** How often `a -> b` is to be walked: as often as listed between known ids, or
      else once for each pair of two different ids. */
  ghost function Wanted<N>(sdks: seq<N>, edges: Option<seq<(N, N)>>, a: N, b: N): nat {
    if edges.Some? && edges.value != [] then
      if a in sdks && b in sdks then multiset(edges.value)[(a, b)] else 0
    else if a == b then 0
    else multiset(sdks)[a] * multiset(sdks)[b]
  }

  lemma TargetCount<N(!new)>(sdks: seq<N>, edges: Option<seq<(N, N)>>, a: N, b: N)
    ensures multiset(Target(sdks, edges))[(a, b)] == Wanted(sdks, edges, a, b)
  {
    AllArrowsCount(sdks, sdks, a, b);
    if edges.Some? {
      WithinCount(edges.value, sdks, (a, b));
    }
  }

  lemma TargetEnds<N(!new)>(sdks: seq<N>, edges: Option<seq<(N, N)>>)
    ensures EndsIn(Target(sdks, edges), sdks)
  {
    if edges.Some? && edges.value != [] {
      WithinMembers(edges.value, sdks);
    } else {
      forall e | e in AllArrows(sdks, sdks) ensures e.0 in sdks && e.1 in sdks {
        AllArrowsCount(sdks, sdks, e.0, e.1);
        assert e in multiset(AllArrows(sdks, sdks));
        assert multiset(sdks)[e.0] * multiset(sdks)[e.1] > 0;
        assert e.0 in multiset(sdks) && e.1 in multiset(sdks);
      }
    }
  }

  /** Distinct ids: the complete digraph has each ordered pair once. */
  lemma CompleteDigraph<N(!new)>(sdks: seq<N>, a: N, b: N)
    requires NoDuplicates(sdks)
    ensures multiset(AllArrows(sdks, sdks))[(a, b)] == Indicator(a != b && a in sdks && b in sdks)
  {
    AllArrowsCount(sdks, sdks, a, b);
    NoDuplicatesOnce(sdks, a);
    NoDuplicatesOnce(sdks, b);
  }

  lemma DefaultTarget<N(!new)>(sdks: seq<N>, edges: Option<seq<(N, N)>>, a: N, b: N)
    requires NoDuplicates(sdks) && (edges == None || edges == Some([]))
    ensures multiset(Target(sdks, edges))[(a, b)] == Indicator(a != b && a in sdks && b in sdks)
  {
    CompleteDigraph(sdks, a, b);
  }

  lemma CompletePair<N>(a: N, b: N)
    requires a != b
    ensures AllArrows([a, b], [a, b]) == [(a, b), (b, a)]
  {
    assert [a, b][..1] == [a] && [a][..0] == [];
    assert Arrows(a, [a]) == [] && Arrows(b, [a]) == [(b, a)];
    assert Arrows(a, [a, b]) == [(a, b)] && Arrows(b, [a, b]) == [(b, a)];
    assert AllArrows([a], [a, b]) == [(a, b)];
  }

  /** A graph with every edge matched by its reverse is balanced. */
  lemma {:induction false} SymmetricBalanced<N(!new)>(g: multiset<(N, N)>, u: N)
    requires forall a: N, b: N :: g[(a, b)] == g[(b, a)]
    ensures Out(g, u) == In(g, u)
    decreases |g|
  {
    if g == multiset{} {
      DegreeZero(g, u);
    } else {
      var e := Pick(g);
      assert g[(e.0, e.1)] == g[(e.1, e.0)];
      var pair := if e.0 == e.1 then multiset{e} else multiset{e} + multiset{(e.1, e.0)};
      var rest := g - pair;
      assert g == rest + pair;
      forall a: N, b: N ensures rest[(a, b)] == rest[(b, a)] {
        SymmetricRest(g, e, a, b);
      }
      SymmetricBalanced(rest, u);
      DegreeUnion(rest, pair, u);
      PairBalanced(e, u);
    }
  }

  lemma SymmetricRest<N(!new)>(g: multiset<(N, N)>, e: (N, N), a: N, b: N)
    requires g[(a, b)] == g[(b, a)]
    ensures var pair := if e.0 == e.1 then multiset{e} else multiset{e} + multiset{(e.1, e.0)};
      (g - pair)[(a, b)] == (g - pair)[(b, a)]
  {
  }

  lemma PairBalanced<N(!new)>(e: (N, N), u: N)
    ensures var pair := if e.0 == e.1 then multiset{e} else multiset{e} + multiset{(e.1, e.0)};
      Out(pair, u) == In(pair, u)
  {
    DegreeSingle(e, u);
    DegreeSingle((e.1, e.0), u);
    DegreeUnion(multiset{e}, multiset{(e.1, e.0)}, u);
  }

  /** An edge and its reverse are balanced. */
  lemma RoundTripBalanced<N(!new)>(a: N, b: N)
    requires a != b
    ensures Balanced(multiset([(a, b), (b, a)]))
  {
    assert multiset([(a, b), (b, a)]) == multiset{(a, b)} + multiset{(b, a)};
    forall u: N ensures Out(multiset([(a, b), (b, a)]), u) == In(multiset([(a, b), (b, a)]), u) {
      PairBalanced((a, b), u);
    }
  }

  /** The complete digraph can always be walked, whatever the ids. */
  lemma CompleteBalanced<N(!new)>(sdks: seq<N>)
    ensures Balanced(multiset(AllArrows(sdks, sdks)))
  {
    var g := multiset(AllArrows(sdks, sdks));
    forall a: N, b: N ensures g[(a, b)] == g[(b, a)] {
      AllArrowsCount(sdks, sdks, a, b);
      AllArrowsCount(sdks, sdks, b, a);
    }
    forall u: N ensures Out(g, u) == In(g, u) {
      SymmetricBalanced(g, u);
    }
  }

  // ------------------------------------------------------------ specification

  /** The edges walked by all circuits, in walking order. */
  function AllSteps<N>(circuits: seq<seq<N>>): seq<(N, N)> {
    Gather((c: seq<N>) => Steps(c), circuits)
  }

  /** `[n for n in sdks if out_degree[n] > 0]`. */
  ghost function ActiveNodes<N>(sdks: seq<N>, g: multiset<(N, N)>): seq<N> {
    if sdks == [] then []
    else
      ActiveNodes(sdks[..|sdks| - 1], g)
      + (if Out(g, sdks[|sdks| - 1]) > 0 then [sdks[|sdks| - 1]] else [])
  }

  /** Closed walks over one component each, that between them use every edge of
      `target` exactly once and nothing else. */
  ghost predicate IsTour<N(!new)>(target: seq<(N, N)>, circuits: seq<seq<N>>) {
    && multiset(AllSteps(circuits)) == multiset(target)
    && (forall c :: c in circuits ==> |c| >= 2 && c[0] == c[|c| - 1] && IsComponent(multiset(target), c))
    && (forall i, j, v :: 0 <= i < |circuits| && 0 <= j < |circuits| && i != j && v in circuits[i] ==>
         v !in circuits[j])
  }

  /** The tail that keeps the meeting order: all but the root's component. */
  function Others<N(==)>(sorted: seq<seq<N>>, x: N): seq<seq<N>> {
    if sorted != [] && x in sorted[0] then sorted[1..] else sorted
  }

  /** The root's circuit comes first and starts at the root. The others keep the
      order in which `nodes` meets them and start where it does. */
  ghost predicate RootLeads<N(!new)>(nodes: seq<N>, current: N, circuits: seq<seq<N>>) {
    && (forall c :: c in circuits ==> c != [])
    && (forall i :: 0 <= i < |circuits| && current in circuits[i] ==> i == 0 && circuits[i][0] == current)
    && (exists at: seq<nat> :: MetAt(nodes, Others(circuits, current), at))
  }

  /** What the traversal returns: no edges, no hops. */
  ghost predicate IsTraversal<N(!new)>(sdks: seq<N>, current: N, target: seq<(N, N)>, circuits: seq<seq<N>>) {
    if target == [] then circuits == [[current]]
    else IsTour(target, circuits) && RootLeads(ActiveNodes(sdks, multiset(target)), current, circuits)
  }

  /** What closed walks step over is balanced. */
  lemma {:induction false} ClosedWalksBalance<N(!new)>(circuits: seq<seq<N>>, u: N)
    requires forall c :: c in circuits ==> c != [] && c[0] == c[|c| - 1]
    ensures Out(multiset(AllSteps(circuits)), u) == In(multiset(AllSteps(circuits)), u)
  {
    if circuits == [] {
      DegreeZero(multiset(AllSteps(circuits)), u);
    } else {
      var rest, last := circuits[..|circuits| - 1], circuits[|circuits| - 1];
      assert circuits == rest + [last];
      ClosedWalksBalance(rest, u);
      AllStepsSnoc(rest, last);
      DegreeUnion(multiset(AllSteps(rest)), multiset(Steps(last)), u);
      WalkBalance(last, u);
    }
  }

  /** Only balanced edges have a traversal. */
  lemma TraversedIsBalanced<N(!new)>(sdks: seq<N>, current: N, target: seq<(N, N)>, circuits: seq<seq<N>>)
    requires IsTraversal(sdks, current, target, circuits)
    ensures Balanced(multiset(target))
  {
    forall u: N ensures Out(multiset(target), u) == In(multiset(target), u) {
      if target == [] {
        DegreeZero(multiset(target), u);
      } else {
        ClosedWalksBalance(circuits, u);
      }
    }
  }

  /** Two edges are walked in the same circuit exactly when they are connected. */
  lemma SameCircuit<N(!new)>(target: seq<(N, N)>, circuits: seq<seq<N>>, i: nat, a: N, b: N)
    requires IsTour(target, circuits) && i < |circuits| && a in circuits[i]
    ensures b in circuits[i] <==> Connected(multiset(target), a, b)
    ensures b in circuits[i] <==> Connected(multiset(target), b, a)
  {
    assert circuits[i] in circuits;
    ComponentIsConnection(multiset(target), circuits[i], a, b);
    if Connected(multiset(target), b, a) {
      ConnectedSym(multiset(target), b, a);
    }
    if b in circuits[i] {
      ConnectedSym(multiset(target), a, b);
    }
  }

  /** Every wanted edge is walked, exactly as often as wanted. */
  lemma WalkedAsWanted<N(!new)>(sdks: seq<N>, current: N, edges: Option<seq<(N, N)>>, circuits: seq<seq<N>>, a: N, b: N)
    requires IsTraversal(sdks, current, Target(sdks, edges), circuits)
    ensures multiset(AllSteps(circuits))[(a, b)] == Wanted(sdks, edges, a, b)
  {
    TargetCount(sdks, edges, a, b);
    if Target(sdks, edges) == [] {
      GatherOne((c: seq<N>) => Steps(c), [current]);
    }
  }

  lemma WalkedAll<N(!new)>(sdks: seq<N>, current: N, edges: Option<seq<(N, N)>>, circuits: seq<seq<N>>)
    requires IsTraversal(sdks, current, Target(sdks, edges), circuits)
    ensures forall a, b :: multiset(AllSteps(circuits))[(a, b)] == Wanted(sdks, edges, a, b)
  {
    forall a, b ensures multiset(AllSteps(circuits))[(a, b)] == Wanted(sdks, edges, a, b) {
      WalkedAsWanted(sdks, current, edges, circuits, a, b);
    }
  }

  /** Without edges, distinct agents: each ordered pair of two is walked once. */
  lemma EachPairOnce<N(!new)>(sdks: seq<N>, current: N, edges: Option<seq<(N, N)>>, circuits: seq<seq<N>>, a: N, b: N)
    requires NoDuplicates(sdks) && (edges == None || edges == Some([]))
    requires IsTraversal(sdks, current, Target(sdks, edges), circuits)
    ensures multiset(AllSteps(circuits))[(a, b)] == Indicator(a != b && a in sdks && b in sdks)
  {
    WalkedAsWanted(sdks, current, edges, circuits, a, b);
    TargetCount(sdks, edges, a, b);
    DefaultTarget(sdks, edges, a, b);
  }

  // ------------------------------------------------- ordering the components

  function Having<N(==)>(comps: seq<seq<N>>, x: N): seq<seq<N>> {
    if comps == [] then []
    else Having(comps[..|comps| - 1], x) + (if x in comps[|comps| - 1] then [comps[|comps| - 1]] else [])
  }

  function Lacking<N(==)>(comps: seq<seq<N>>, x: N): seq<seq<N>> {
    if comps == [] then []
    else Lacking(comps[..|comps| - 1], x) + (if x in comps[|comps| - 1] then [] else [comps[|comps| - 1]])
  }

  /** `components.sort(key=lambda c: current_sdk not in c)`: a stable sort on a
      boolean key, `False` first. */
  function RootFirst<N(==)>(comps: seq<seq<N>>, x: N): seq<seq<N>> {
    Having(comps, x) + Lacking(comps, x)
  }

  lemma {:induction false} RootFirstAbsent<N(!new)>(comps: seq<seq<N>>, x: N)
    requires !Covered(comps, x)
    ensures Having(comps, x) == [] && Lacking(comps, x) == comps
  {
    if comps != [] {
      var rest, last := comps[..|comps| - 1], comps[|comps| - 1];
      assert comps == rest + [last];
      CoveredSnoc(rest, last);
      RootFirstAbsent(rest, x);
    }
  }

  lemma RootFirstSnoc<N>(rest: seq<seq<N>>, last: seq<N>, x: N)
    ensures Having(rest + [last], x) == if x in last then Having(rest, x) + [last] else Having(rest, x)
    ensures Lacking(rest + [last], x) == if x in last then Lacking(rest, x) else Lacking(rest, x) + [last]
  {
    assert (rest + [last])[..|rest|] == rest;
  }

  lemma DroppedSnoc<T>(rest: seq<T>, last: T, k: nat)
    requires k < |rest|
    ensures (rest + [last])[..k] + (rest + [last])[k + 1..] == rest[..k] + rest[k + 1..] + [last]
  {
  }

  /** When one component holds the root, it moves to the front past the others. */
  lemma {:induction false} RootFirstMoves<N(!new)>(comps: seq<seq<N>>, x: N, k: nat)
    requires k < |comps| && x in comps[k]
    requires forall i :: 0 <= i < |comps| && i != k ==> x !in comps[i]
    ensures Having(comps, x) == [comps[k]] && Lacking(comps, x) == comps[..k] + comps[k + 1..]
  {
    var rest, last := comps[..|comps| - 1], comps[|comps| - 1];
    assert comps == rest + [last];
    RootFirstSnoc(rest, last, x);
    if k == |rest| {
      RootFirstAbsent(rest, x);
      assert comps[..k] == rest && comps[k + 1..] == [];
    } else {
      RootFirstMoves(rest, x, k);
      DroppedSnoc(rest, last, k);
    }
  }

  /** Components with one dropped, and their meeting points with it. */
  lemma MetWithout<N(!new)>(nodes: seq<N>, comps: seq<seq<N>>, at: seq<nat>, k: nat)
    requires MetAt(nodes, comps, at) && k < |comps|
    ensures MetAt(nodes, comps[..k] + comps[k + 1..], at[..k] + at[k + 1..])
  {
    var fewer, when := comps[..k] + comps[k + 1..], at[..k] + at[k + 1..];
    forall i | 0 <= i < |when| ensures when[i] == at[if i < k then i else i + 1]
                                    && fewer[i] == comps[if i < k then i else i + 1] { }
  }

  /** `comps` with entry `k` moved to the front. */
  ghost function MoveFront<T>(comps: seq<T>, k: nat): (r: seq<T>)
    requires k < |comps|
    ensures |r| == |comps| && r[0] == comps[k]
    ensures r[1..] == comps[..k] + comps[k + 1..]
    ensures forall i :: 0 < i <= k ==> r[i] == comps[i - 1]
    ensures forall i :: k < i < |comps| ==> r[i] == comps[i]
  {
    [comps[k]] + (comps[..k] + comps[k + 1..])
  }

  lemma MovedComponents<N(!new)>(g: multiset<(N, N)>, comps: seq<seq<N>>, k: nat)
    requires AreComponents(g, comps) && k < |comps|
    ensures AreComponents(g, MoveFront(comps, k))
  {
    var r := MoveFront(comps, k);
    forall i, j, v | 0 <= i < |r| && 0 <= j < |r| && i != j && v in r[i] ensures v !in r[j] {
      var a := if i == 0 then k else if i <= k then i - 1 else i;
      var b := if j == 0 then k else if j <= k then j - 1 else j;
      assert r[i] == comps[a] && r[j] == comps[b] && a != b;
    }
  }

  lemma MovedCovers<N(!new)>(comps: seq<seq<N>>, k: nat, nodes: seq<N>)
    requires CoversAll(comps, nodes) && k < |comps|
    ensures CoversAll(MoveFront(comps, k), nodes)
  {
    var r := MoveFront(comps, k);
    forall m | 0 <= m < |nodes| ensures Covered(r, nodes[m]) {
      assert Covered(comps, nodes[m]);
      var j :| 0 <= j < |comps| && nodes[m] in comps[j];
      assert nodes[m] in r[if j == k then 0 else if j < k then j + 1 else j];
    }
  }

  lemma MovedHeads<N(!new)>(comps: seq<seq<N>>, k: nat, x: N, nodes: seq<N>)
    requires k < |comps| && forall i :: 0 <= i < |comps| && i != k ==> x !in comps[i]
    requires forall i :: 0 <= i < |comps| ==> comps[i] != [] && comps[i][0] in nodes
    ensures forall i :: 0 < i < |comps| ==> x !in MoveFront(comps, k)[i]
    ensures forall i :: 0 <= i < |comps| ==> MoveFront(comps, k)[i] != [] && MoveFront(comps, k)[i][0] in nodes
  {
  }

  /** What the main loop needs of the sorted components. */
  ghost predicate IsSorted<N(!new)>(g: multiset<(N, N)>, nodes: seq<N>, x: N, sorted: seq<seq<N>>, at: seq<nat>) {
    && IsDecomposition(g, nodes, sorted)
    && MetAt(nodes, Others(sorted, x), at)
    && (forall i :: 0 < i < |sorted| ==> x !in sorted[i])
    && (forall i :: 0 <= i < |sorted| ==> sorted[i][0] in nodes)
  }

  lemma Sorting<N(!new)>(g: multiset<(N, N)>, nodes: seq<N>, comps: seq<seq<N>>, at: seq<nat>, x: N)
    returns (at': seq<nat>)
    requires IsDecomposition(g, nodes, comps) && MetAt(nodes, comps, at)
    ensures IsSorted(g, nodes, x, RootFirst(comps, x), at')
    ensures |RootFirst(comps, x)| == |comps|
  {
    HeadsListed(nodes, comps, at);
    if Covered(comps, x) {
      var k :| 0 <= k < |comps| && x in comps[k];
      at' := at[..k] + at[k + 1..];
      SortingMoves(g, nodes, comps, at, x, k);
    } else {
      OthersStay(comps, x);
      at' := at;
    }
  }

  lemma OthersStay<N(!new)>(comps: seq<seq<N>>, x: N)
    requires !Covered(comps, x)
    ensures RootFirst(comps, x) == Others(comps, x) == comps
    ensures forall i :: 0 <= i < |comps| ==> x !in comps[i]
  {
    RootFirstAbsent(comps, x);
  }

  lemma SortingMoves<N(!new)>(g: multiset<(N, N)>, nodes: seq<N>, comps: seq<seq<N>>, at: seq<nat>, x: N, k: nat)
    requires AreComponents(g, comps) && CoversAll(comps, nodes) && MetAt(nodes, comps, at)
    requires forall i :: 0 <= i < |comps| ==> comps[i] != [] && comps[i][0] in nodes
    requires k < |comps| && x in comps[k]
    ensures IsSorted(g, nodes, x, RootFirst(comps, x), at[..k] + at[k + 1..]) && |RootFirst(comps, x)| == |comps|
  {
    RootFirstMoves(comps, x, k);
    var moved := MoveFront(comps, k);
    assert RootFirst(comps, x) == moved;
    assert AreComponents(g, moved) by { MovedComponents(g, comps, k); }
    assert CoversAll(moved, nodes) by { MovedCovers(comps, k, nodes); }
    assert Others(moved, x) == comps[..k] + comps[k + 1..];
    MetWithout(nodes, comps, at, k);
    MovedHeads(comps, k, x, nodes);
  }

  lemma HeadsListed<N(!new)>(nodes: seq<N>, comps: seq<seq<N>>, at: seq<nat>)
    requires MetAt(nodes, comps, at)
    ensures forall i :: 0 <= i < |comps| ==> comps[i] != [] && comps[i][0] in nodes
  {
    forall i | 0 <= i < |comps| ensures comps[i] != [] && comps[i][0] in nodes {
      assert comps[i][0] == nodes[at[i]];
    }
  }

  // ------------------------------------------------------------ the main loop

  /** After walking the components of `done`: exactly their edges are gone. */
  ghost predicate Remaining<N(!new)>(g: multiset<(N, N)>, rest: multiset<(N, N)>, done: seq<seq<N>>) {
    forall e :: rest[e] == if Covered(done, e.0) then 0 else g[e]
  }

  /** A walk in what remains covers the next component of the whole graph. */
  lemma WalkCoversComponent<N(!new)>(g: multiset<(N, N)>, rest: multiset<(N, N)>, done: seq<seq<N>>,
                                     comp: seq<N>, circuit: seq<N>)
    requires Remaining(g, rest, done)
    requires IsComponent(g, comp) && forall v :: v in comp ==> !Covered(done, v)
    requires IsComponent(rest, circuit) && circuit[0] in comp
    ensures Nodes(circuit) == Nodes(comp) && IsComponent(g, circuit)
  {
    forall e | e in rest ensures e in g { assert rest[e] <= g[e]; }
    assert Closed(rest, Nodes(comp));
    forall v | v in circuit ensures v in comp {
      ClosedHoldsConnected(rest, Nodes(comp), circuit[0], v);
    }
    forall e | e in g ensures e.0 in Nodes(circuit) <==> e.1 in Nodes(circuit) {
      if e.0 in comp {
        assert rest[e] == g[e];
      } else {
        assert e.1 !in Nodes(comp);
      }
    }
    ComponentIsConnection(g, comp, circuit[0], circuit[0]);
    forall v | v in comp ensures v in circuit && Connected(g, circuit[0], v) {
      ComponentIsConnection(g, comp, circuit[0], v);
      ClosedHoldsConnected(g, Nodes(circuit), circuit[0], v);
    }
  }

  /** Walking it takes away its edges and no others. */
  lemma RemainingNext<N(!new)>(g: multiset<(N, N)>, rest: multiset<(N, N)>, rest': multiset<(N, N)>,
                               done: seq<seq<N>>, comp: seq<N>, circuit: seq<N>)
    requires Remaining(g, rest, done) && Nodes(circuit) == Nodes(comp)
    requires rest == rest' + multiset(Steps(circuit))
    requires IsComponent(rest, circuit)
    requires forall e :: e in rest' ==> e.0 !in circuit
    ensures Remaining(g, rest', done + [comp])
  {
    CoveredSnoc(done, comp);
    forall e | e in Steps(circuit) ensures e.0 in circuit {
      var k :| 0 <= k < |Steps(circuit)| && Steps(circuit)[k] == e;
      assert circuit[k] == e.0;
    }
    forall e ensures rest'[e] == if Covered(done + [comp], e.0) then 0 else g[e] {
      assert e.0 in comp <==> e.0 in Nodes(circuit);
      if e.0 in circuit {
        assert e !in rest';
      } else {
        assert multiset(Steps(circuit))[e] == 0;
      }
    }
  }

  lemma {:induction false} ActiveMembers<N(!new)>(sdks: seq<N>, g: multiset<(N, N)>)
    ensures forall u :: u in ActiveNodes(sdks, g) <==> u in sdks && Out(g, u) > 0
  {
    if sdks != [] {
      assert sdks == sdks[..|sdks| - 1] + [sdks[|sdks| - 1]];
      ActiveMembers(sdks[..|sdks| - 1], g);
    }
  }

  /** They come in the order of the agents. */
  lemma {:induction false} ActiveInOrder<N(!new)>(sdks: seq<N>, g: multiset<(N, N)>)
    ensures Combinations.IsSublist(ActiveNodes(sdks, g), sdks)
  {
    if sdks != [] {
      var rest, last := sdks[..|sdks| - 1], sdks[|sdks| - 1];
      assert sdks == rest + [last];
      ActiveInOrder(rest, g);
      Combinations.SublistSnoc(ActiveNodes(rest, g), rest, last);
      assert ActiveNodes(rest, g) + [] == ActiveNodes(rest, g);
    }
  }

  /** What is connected to an end of an edge is one. */
  lemma ConnectedHasEdge<N(!new)>(g: multiset<(N, N)>, a: N, b: N, e: (N, N)) returns (f: (N, N))
    requires Connected(g, a, b) && e in g && (e.0 == a || e.1 == a)
    ensures f in g && (f.0 == b || f.1 == b)
  {
    var p :| IsPath(g, p) && p[0] == a && p[|p| - 1] == b;
    if |p| == 1 {
      f := e;
    } else {
      var u, v := p[|p| - 2], p[|p| - 2 + 1];
      assert Linked(g, u, v);
      f := if (u, v) in g then (u, v) else (v, u);
    }
  }

  /** The components of a balanced graph hold exactly the nodes with edges. */
  lemma DecomposedIsActive<N(!new)>(sdks: seq<N>, target: seq<(N, N)>, comps: seq<seq<N>>, at: seq<nat>, v: N)
    requires EndsIn(target, sdks) && Balanced(multiset(target))
    requires var nodes := ActiveNodes(sdks, multiset(target));
      IsDecomposition(multiset(target), nodes, comps) && MetAt(nodes, comps, at)
    ensures Covered(comps, v) <==> v in ActiveNodes(sdks, multiset(target))
    ensures Covered(comps, v) <==> exists e :: e in target && (e.0 == v || e.1 == v)
  {
    var g, nodes := multiset(target), ActiveNodes(sdks, multiset(target));
    ActiveMembers(sdks, g);
    DegreeZero(g, v);
    if e :| e in target && (e.0 == v || e.1 == v) {
      assert e in g;
    }
    if i :| 0 <= i < |comps| && v in comps[i] {
      var head := nodes[at[i]];
      DegreeZero(g, head);
      var e :| e in g && e.0 == head;
      var f := ConnectedHasEdge(g, head, v, e);
      assert f in target;
    }
    if k :| 0 <= k < |nodes| && nodes[k] == v {
      assert Covered(comps, nodes[k]);
    }
  }

  /** Once every component is walked, no edge is left. */
  lemma NothingRemains<N(!new)>(sdks: seq<N>, target: seq<(N, N)>, rest: multiset<(N, N)>,
                                            comps: seq<seq<N>>)
    requires EndsIn(target, sdks) && Remaining(multiset(target), rest, comps)
    requires CoversAll(comps, ActiveNodes(sdks, multiset(target)))
    ensures rest == multiset{}
  {
    var nodes := ActiveNodes(sdks, multiset(target));
    ActiveMembers(sdks, multiset(target));
    forall e ensures rest[e] == 0 {
      if e in target {
        DegreeZero(multiset(target), e.0);
        assert e.0 in nodes;
        var k :| 0 <= k < |nodes| && nodes[k] == e.0;
        assert Covered(comps, nodes[k]);
      } else {
        assert multiset(target)[e] == 0;
      }
    }
    assert rest == multiset{};
  }

  // ----------------------------------------------------------- the algorithm

  /** Lines 286-292: adjacency lists and degrees of the target edges. */
  method Tabulate<N(==,!new)>(target: seq<(N, N)>, sdks: seq<N>)
    returns (adj: Adjacency<N>, inDegree: map<N, nat>, outDegree: map<N, nat>)
    requires EndsIn(target, sdks)
    ensures fresh(adj) && adj.Valid() && adj.edges == multiset(target) && adj.lists.Keys == Nodes(sdks)
    ensures Tallied(inDegree, outDegree, sdks, multiset(target))
  {
    adj := new Adjacency(sdks);
    inDegree := map u | u in sdks :: 0;
    outDegree := map u | u in sdks :: 0;
    NoDegrees<N>();
    for i := 0 to |target|
      invariant fresh(adj) && adj.Valid() && adj.edges == multiset(target[..i]) && adj.lists.Keys == Nodes(sdks)
      invariant Tallied(inDegree, outDegree, sdks, multiset(target[..i]))
    {
      var e := target[i];
      TakeNext(target, i);
      TallyAdd(inDegree, outDegree, sdks, multiset(target[..i]), e);
      adj.Append(e.0, e.1);
      outDegree := outDegree[e.0 := outDegree[e.0] + 1];
      inDegree := inDegree[e.1 := inDegree[e.1] + 1];
    }
    assert target[..|target|] == target;
  }

  /** The dictionaries hold the degrees of the listed nodes. */
  ghost predicate Tallied<N(!new)>(inDegree: map<N, nat>, outDegree: map<N, nat>, sdks: seq<N>, g: multiset<(N, N)>) {
    && inDegree.Keys == outDegree.Keys == Nodes(sdks)
    && forall u :: u in sdks ==> outDegree[u] == Out(g, u) && inDegree[u] == In(g, u)
  }

  lemma NoDegrees<N(!new)>()
    ensures forall u: N :: Out(multiset{}, u) == 0 && In(multiset{}, u) == 0
  {
    forall u: N ensures Out(multiset{}, u) == 0 && In(multiset{}, u) == 0 {
      DegreeZero(multiset{}, u);
    }
  }

  lemma TallyAdd<N(!new)>(inDegree: map<N, nat>, outDegree: map<N, nat>, sdks: seq<N>,
                          g: multiset<(N, N)>, e: (N, N))
    requires Tallied(inDegree, outDegree, sdks, g) && e.0 in sdks && e.1 in sdks
    ensures Tallied(inDegree[e.1 := inDegree[e.1] + 1], outDegree[e.0 := outDegree[e.0] + 1], sdks, g + multiset{e})
  {
    forall u | u in sdks
      ensures Out(g + multiset{e}, u) == Out(g, u) + Indicator(e.0 == u)
      ensures In(g + multiset{e}, u) == In(g, u) + Indicator(e.1 == u)
    {
      DegreeUnion(g, multiset{e}, u);
      DegreeSingle(e, u);
    }
  }

  /** Lines 93-99. */
  method VerifyEulerian<N(==)>(inDegree: map<N, nat>, outDegree: map<N, nat>, sdks: seq<N>) returns (ok: bool)
    requires Nodes(sdks) <= inDegree.Keys && Nodes(sdks) <= outDegree.Keys
    ensures ok <==> forall i :: 0 <= i < |sdks| ==> inDegree[sdks[i]] == outDegree[sdks[i]]
  {
    for i := 0 to |sdks|
      invariant forall j :: 0 <= j < i ==> inDegree[sdks[j]] == outDegree[sdks[j]]
    {
      assert sdks[i] in Nodes(sdks);
      if inDegree[sdks[i]] != outDegree[sdks[i]] {
        return false;
      }
    }
    return true;
  }

  function WithEdges<N(==)>(sdks: seq<N>, outDegree: map<N, nat>): seq<N>
    requires forall u :: u in sdks ==> u in outDegree
  {
    if sdks == [] then []
    else
      var u := sdks[|sdks| - 1];
      WithEdges(sdks[..|sdks| - 1], outDegree) + (if outDegree[u] > 0 then [u] else [])
  }

  lemma {:induction false} WithEdgesIsActive<N(!new)>(sdks: seq<N>, outDegree: map<N, nat>, g: multiset<(N, N)>)
    requires forall u :: u in sdks ==> u in outDegree && outDegree[u] == Out(g, u)
    ensures WithEdges(sdks, outDegree) == ActiveNodes(sdks, g)
  {
    if sdks != [] {
      WithEdgesIsActive(sdks[..|sdks| - 1], outDegree, g);
    }
  }

  /** Degrees outside the listed nodes are zero, so checking these is enough. */
  lemma BalancedOnNodes<N(!new)>(target: seq<(N, N)>, sdks: seq<N>)
    requires EndsIn(target, sdks)
    ensures Balanced(multiset(target)) <==>
      forall u :: u in sdks ==> Out(multiset(target), u) == In(multiset(target), u)
  {
    forall u: N | u !in sdks ensures Out(multiset(target), u) == In(multiset(target), u) {
      DegreeZero(multiset(target), u);
    }
  }

  /** Circuit `i` is a closed walk over component `i`, from the root if it can be. */
  ghost predicate Walked<N(!new)>(g: multiset<(N, N)>, current: N, comp: seq<N>, circuit: seq<N>) {
    && |circuit| >= 2 && circuit[0] == circuit[|circuit| - 1]
    && IsComponent(g, circuit) && comp != []
    && Nodes(circuit) == Nodes(comp)
    && circuit[0] == if current in comp then current else comp[0]
  }

  /** A component is disjoint from the ones before it. */
  lemma Unwalked<N(!new)>(g: multiset<(N, N)>, comps: seq<seq<N>>, i: nat)
    requires AreComponents(g, comps) && i < |comps|
    ensures forall v :: v in comps[i] ==> !Covered(comps[..i], v)
  {
    forall v | v in comps[i] ensures !Covered(comps[..i], v) {
      forall j | 0 <= j < i ensures v !in comps[..i][j] {
        assert comps[..i][j] == comps[j];
      }
    }
  }

  /** A component lies within any edge-closed set that holds its head. */
  lemma ComponentWithin<N(!new)>(g: multiset<(N, N)>, keys: set<N>, comp: seq<N>, v: N)
    requires IsComponent(g, comp) && comp[0] in keys && v in comp
    requires forall e :: e in g ==> e.0 in keys && e.1 in keys
    ensures v in keys
  {
    ClosedHoldsConnected(g, keys, comp[0], v);
  }

  /** A component whose head has an edge out takes at least one step. */
  lemma WalkMoves<N(!new)>(g: multiset<(N, N)>, rest: multiset<(N, N)>, rest': multiset<(N, N)>,
                           done: seq<seq<N>>, comp: seq<N>, circuit: seq<N>)
    requires Remaining(g, rest, done) && comp != [] && Nodes(circuit) == Nodes(comp)
    requires !Covered(done, comp[0]) && Out(g, comp[0]) > 0
    requires rest == rest' + multiset(Steps(circuit))
    requires forall e :: e in rest' ==> e.0 !in circuit
    ensures |circuit| >= 2
  {
    DegreeZero(g, comp[0]);
    var e :| e in g && e.0 == comp[0];
    assert comp[0] in Nodes(comp) && rest[e] == g[e];
    assert e !in rest';
    assert e in multiset(Steps(circuit));
    assert Steps(circuit) != [];
  }

  lemma AllStepsSnoc<N>(circuits: seq<seq<N>>, c: seq<N>)
    ensures AllSteps(circuits + [c]) == AllSteps(circuits) + Steps(c)
    ensures multiset(AllSteps(circuits + [c])) == multiset(AllSteps(circuits)) + multiset(Steps(c))
  {
    assert (circuits + [c])[..|circuits|] == circuits;
  }

  ghost predicate AllWalked<N(!new)>(g: multiset<(N, N)>, current: N, comps: seq<seq<N>>, circuits: seq<seq<N>>) {
    && |circuits| == |comps|
    && forall i {:trigger circuits[i]} :: 0 <= i < |comps| ==> Walked(g, current, comps[i], circuits[i])
  }

  lemma StartListed<N(!new)>(g: multiset<(N, N)>, keys: set<N>, comps: seq<seq<N>>, i: nat, start: N)
    requires AreComponents(g, comps) && i < |comps| && comps[i] != [] && comps[i][0] in keys
    requires start in comps[i]
    requires forall e :: e in g ==> e.0 in keys && e.1 in keys
    ensures start in keys
  {
    assert IsComponent(g, comps[i]);
    ComponentWithin(g, keys, comps[i], start);
  }

  /** One pass of the main loop. */
  lemma WalkStep<N(!new)>(g: multiset<(N, N)>, rest: multiset<(N, N)>, rest': multiset<(N, N)>, comps: seq<seq<N>>,
                          i: nat, current: N, circuits: seq<seq<N>>, circuit: seq<N>)
    requires AreComponents(g, comps) && i < |comps| && comps[i] != [] && Out(g, comps[i][0]) > 0
    requires Remaining(g, rest, comps[..i]) && AllWalked(g, current, comps[..i], circuits)
    requires rest == rest' + multiset(Steps(circuit))
    requires IsComponent(rest, circuit) && circuit[0] == circuit[|circuit| - 1]
    requires circuit[0] == if current in comps[i] then current else comps[i][0]
    requires forall e :: e in rest' ==> e.0 !in circuit
    ensures Remaining(g, rest', comps[..i + 1]) && AllWalked(g, current, comps[..i + 1], circuits + [circuit])
  {
    TakeNext(comps, i);
    assert IsComponent(g, comps[i]);
    Unwalked(g, comps, i);
    WalkOne(g, rest, rest', comps[..i], comps[i], current, circuit);
    AllWalkedSnoc(g, current, comps[..i], circuits, comps[i], circuit);
  }

  lemma StepsRegroup<N(!new)>(g: multiset<(N, N)>, rest: multiset<(N, N)>, rest': multiset<(N, N)>,
                              circuits: seq<seq<N>>, circuit: seq<N>)
    requires g == rest + multiset(AllSteps(circuits)) && rest == rest' + multiset(Steps(circuit))
    ensures g == rest' + multiset(AllSteps(circuits + [circuit]))
  {
    AllStepsSnoc(circuits, circuit);
  }

  lemma WalkOne<N(!new)>(g: multiset<(N, N)>, rest: multiset<(N, N)>, rest': multiset<(N, N)>,
                         done: seq<seq<N>>, comp: seq<N>, current: N, circuit: seq<N>)
    requires IsComponent(g, comp) && Out(g, comp[0]) > 0 && forall v :: v in comp ==> !Covered(done, v)
    requires Remaining(g, rest, done) && rest == rest' + multiset(Steps(circuit))
    requires IsComponent(rest, circuit) && circuit[0] == circuit[|circuit| - 1]
    requires circuit[0] == if current in comp then current else comp[0]
    requires forall e :: e in rest' ==> e.0 !in circuit
    ensures Remaining(g, rest', done + [comp]) && Walked(g, current, comp, circuit)
  {
    WalkCoversComponent(g, rest, done, comp, circuit);
    WalkMoves(g, rest, rest', done, comp, circuit);
    RemainingNext(g, rest, rest', done, comp, circuit);
  }

  lemma AllWalkedSnoc<N(!new)>(g: multiset<(N, N)>, current: N, comps: seq<seq<N>>, circuits: seq<seq<N>>,
                               comp: seq<N>, circuit: seq<N>)
    requires AllWalked(g, current, comps, circuits) && Walked(g, current, comp, circuit)
    ensures AllWalked(g, current, comps + [comp], circuits + [circuit])
  {
  }

  /** Lines 308-320. */
  method WalkAll<N(==,!new)>(adj: Adjacency<N>, comps: seq<seq<N>>, current: N)
    returns (circuits: seq<seq<N>>)
    requires adj.Valid() && Balanced(adj.edges) && AreComponents(adj.edges, comps)
    requires forall i :: 0 <= i < |comps| ==>
      comps[i] != [] && comps[i][0] in adj.lists && Out(adj.edges, comps[i][0]) > 0
    modifies adj
    ensures adj.Valid() && old(adj.edges) == adj.edges + multiset(AllSteps(circuits))
    ensures Remaining(old(adj.edges), adj.edges, comps)
    ensures AllWalked(old(adj.edges), current, comps, circuits)
  {
    ghost var g, keys := adj.edges, adj.lists.Keys;
    circuits := [];
    for i := 0 to |comps|
      invariant adj.Valid() && Balanced(adj.edges) && adj.lists.Keys == keys
      invariant g == adj.edges + multiset(AllSteps(circuits))
      invariant Remaining(g, adj.edges, comps[..i])
      invariant AllWalked(g, current, comps[..i], circuits)
    {
      var comp := comps[i];
      var start := if current in comp then current else comp[0];
      ghost var rest := adj.edges;
      StartListed(g, keys, comps, i, start);
      var circuit, ticks := adj.Walk(start);
      WalkStep(g, rest, adj.edges, comps, i, current, circuits, circuit);
      StepsRegroup(g, rest, adj.edges, circuits, circuit);
      circuits := circuits + [circuit];
    }
    assert comps[..|comps|] == comps;
  }

  /** Walked components keep the order and the starts they were sorted into. */
  lemma WalksLead<N(!new)>(g: multiset<(N, N)>, nodes: seq<N>, current: N, sorted: seq<seq<N>>, at: seq<nat>,
                           circuits: seq<seq<N>>)
    requires IsSorted(g, nodes, current, sorted, at) && AllWalked(g, current, sorted, circuits)
    ensures RootLeads(nodes, current, circuits)
  {
    forall i | 0 <= i < |circuits|
      ensures circuits[i] != []
      ensures forall v :: v in circuits[i] <==> v in sorted[i]
      ensures current in circuits[i] ==> i == 0 && circuits[i][0] == current
      ensures current !in circuits[i] ==> circuits[i][0] == sorted[i][0]
    {
      assert Walked(g, current, sorted[i], circuits[i]);
      forall v ensures v in circuits[i] <==> v in sorted[i] {
        assert v in Nodes(circuits[i]) <==> v in Nodes(sorted[i]);
      }
    }
    OthersMet(nodes, Others(sorted, current), Others(circuits, current), at);
  }

  lemma OthersMet<N(!new)>(nodes: seq<N>, comps: seq<seq<N>>, circuits: seq<seq<N>>, at: seq<nat>)
    requires MetAt(nodes, comps, at) && |circuits| == |comps|
    requires forall i :: 0 <= i < |comps| ==> circuits[i] != [] && circuits[i][0] == comps[i][0]
    requires forall i, v :: 0 <= i < |comps| && v in circuits[i] ==> v in comps[i]
    ensures MetAt(nodes, circuits, at)
  {
  }

  lemma WalksTour<N(!new)>(target: seq<(N, N)>, current: N, comps: seq<seq<N>>, circuits: seq<seq<N>>)
    requires AreComponents(multiset(target), comps) && AllWalked(multiset(target), current, comps, circuits)
    requires multiset(AllSteps(circuits)) == multiset(target)
    ensures IsTour(target, circuits)
  {
    var g := multiset(target);
    forall c | c in circuits ensures |c| >= 2 && c[0] == c[|c| - 1] && IsComponent(g, c) {
      var i :| 0 <= i < |circuits| && circuits[i] == c;
      assert Walked(g, current, comps[i], circuits[i]);
    }
    forall i, j, v | 0 <= i < |circuits| && 0 <= j < |circuits| && i != j && v in circuits[i]
      ensures v !in circuits[j]
    {
      assert Walked(g, current, comps[i], circuits[i]) && Walked(g, current, comps[j], circuits[j]);
      assert v in Nodes(circuits[i]) && v in Nodes(comps[i]);
      assert v !in Nodes(comps[j]) && Nodes(circuits[j]) == Nodes(comps[j]);
    }
  }

  /** There are components to walk exactly when there are edges. */
  lemma ComponentsExist<N(!new)>(sdks: seq<N>, target: seq<(N, N)>, comps: seq<seq<N>>, at: seq<nat>)
    requires EndsIn(target, sdks)
    requires var nodes := ActiveNodes(sdks, multiset(target));
      CoversAll(comps, nodes) && MetAt(nodes, comps, at)
    ensures comps == [] <==> target == []
  {
    var nodes := ActiveNodes(sdks, multiset(target));
    ActiveMembers(sdks, multiset(target));
    if target != [] {
      var e := target[0];
      assert e in target && e in multiset(target);
      DegreeZero(multiset(target), e.0);
      var k :| 0 <= k < |nodes| && nodes[k] == e.0;
      assert Covered(comps, nodes[k]);
    }
    if comps != [] {
      HeadsListed(nodes, comps, at);
      DegreeZero(multiset(target), comps[0][0]);
      assert comps[0][0] in nodes;
      var e :| e in multiset(target) && e.0 == comps[0][0];
      assert e in target;
    }
  }

  /** `_euler_traversal_with_hierholzer`: a traversal if the target edges are
      balanced, a `ValueError` otherwise. */
  method EulerTraversal<N(==,!new)>(current: N, sdks: seq<N>, edges: Option<seq<(N, N)>>)
    returns (r: Result<seq<seq<N>>>)
    ensures r.Ok? <==> Balanced(multiset(Target(sdks, edges)))
    ensures r.Ok? ==> IsTraversal(sdks, current, Target(sdks, edges), r.value)
    ensures r.Ok? ==> forall a, b :: multiset(AllSteps(r.value))[(a, b)] == Wanted(sdks, edges, a, b)
    ensures r.Err? ==> r.error == ValueError
  {
    var target := Target(sdks, edges);
    ghost var g := multiset(target);
    TargetEnds(sdks, edges);
    var adj, inDegree, outDegree := Tabulate(target, sdks);
    var ok := VerifyEulerian(inDegree, outDegree, sdks);
    BalancedOnNodes(target, sdks);
    if !ok {
      return Err(ValueError);
    }
    var nodes := WithEdges(sdks, outDegree);
    WithEdgesIsActive(sdks, outDegree, g);
    ActiveMembers(sdks, g);
    ghost var at;
    var comps;
    comps, at := Decompose(nodes, adj.lists, g);
    ComponentsExist(sdks, target, comps, at);
    if comps == [] {
      WalkedAll(sdks, current, edges, [[current]]);
      return Ok([[current]]);
    }
    ghost var at' := Sorting(g, nodes, comps, at, current);
    comps := RootFirst(comps, current);
    var circuits := WalkAll(adj, comps, current);
    NothingRemains(sdks, target, adj.edges, comps);
    assert multiset(AllSteps(circuits)) == g;
    WalksLead(g, nodes, current, comps, at', circuits);
    WalksTour(target, current, comps, circuits);
    WalkedAll(sdks, current, edges, circuits);
    return Ok(circuits);
  }
}
