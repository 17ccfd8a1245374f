/** Splitting the nodes that carry edges into connected components of the
    undirected view (test_suite/__init__.py, lines 47-73). */
module Components {
  import opened Graphs
  import opened Hierholzer
  import opened Sequences

  /** Some list of `comps` holds `n`. */
  ghost predicate Covered<N>(comps: seq<seq<N>>, n: N) {
    exists i :: 0 <= i < |comps| && n in comps[i]
  }

  /** `comps` are distinct components of `g`, each listing its nodes once. */
  ghost predicate AreComponents<N(!new)>(g: multiset<(N, N)>, comps: seq<seq<N>>) {
    && (forall i :: 0 <= i < |comps| ==> IsComponent(g, comps[i]) && NoDuplicates(comps[i]))
    && (forall i, j, v :: 0 <= i < |comps| && 0 <= j < |comps| && i != j && v in comps[i] ==> v !in comps[j])
  }

  ghost predicate CoversAll<N(!new)>(comps: seq<seq<N>>, nodes: seq<N>) {
    forall k {:trigger Covered(comps, nodes[k])} :: 0 <= k < |nodes| ==> Covered(comps, nodes[k])
  }

  /** `comps` are the components that the nodes of `nodes` lie in. */
  ghost predicate IsDecomposition<N(!new)>(g: multiset<(N, N)>, nodes: seq<N>, comps: seq<seq<N>>) {
    AreComponents(g, comps) && CoversAll(comps, nodes)
  }

  /** Component `i` is headed by `nodes[at[i]]`, the first of `nodes` in it, and
      the components come in the order of their heads. */
  ghost predicate MetAt<N>(nodes: seq<N>, comps: seq<seq<N>>, at: seq<nat>) {
    && |at| == |comps|
    && (forall i :: 0 <= i < |at| ==> at[i] < |nodes| && comps[i] != [] && comps[i][0] == nodes[at[i]])
    && (forall i, j :: 0 <= i < j < |at| ==> at[i] < at[j])
    && (forall i, k :: 0 <= i < |at| && 0 <= k < at[i] ==> nodes[k] !in comps[i])
  }

  /** A component met at a node outside another shares no node with it. */
  lemma ComponentsApart<N(!new)>(g: multiset<(N, N)>, c: seq<N>, d: seq<N>, v: N)
    requires IsComponent(g, c) && IsComponent(g, d) && d[0] !in c && v in d
    ensures v !in c
  {
    if v in c {
      ConnectedSym(g, d[0], v);
      ComponentIsConnection(g, c, v, d[0]);
    }
  }

  /** Two listed nodes share a component exactly when an undirected path joins them. */
  lemma SharedComponentIsConnection<N(!new)>(g: multiset<(N, N)>, nodes: seq<N>, comps: seq<seq<N>>, a: N, b: N)
    requires IsDecomposition(g, nodes, comps) && a in nodes && b in nodes
    ensures Connected(g, a, b) <==> exists i :: 0 <= i < |comps| && a in comps[i] && b in comps[i]
  {
    assert Covered(comps, a);
    var k :| 0 <= k < |comps| && a in comps[k];
    ComponentIsConnection(g, comps[k], a, b);
    forall i | 0 <= i < |comps| && a in comps[i] && b in comps[i] ensures i == k { }
  }

  // ------------------------------------------------------ the undirected view

  /** `b` has been met as a neighbour in `a`'s own list. */
  ghost predicate Met<N>(adj: map<N, seq<N>>, done: set<N>, u: N, i: nat, a: N, b: N)
    requires u in adj && i <= |adj[u]|
  {
    a in adj && ((a in done && b in adj[a]) || (a == u && b in adj[u][..i]))
  }

  ghost predicate ViewSoFar<N(!new)>(adj: map<N, seq<N>>, view: map<N, set<N>>, done: set<N>, u: N, i: nat)
    requires u in adj && i <= |adj[u]|
  {
    && view.Keys == adj.Keys
    && forall a, b :: a in adj ==> (b in view[a] <==> Met(adj, done, u, i, a, b) || Met(adj, done, u, i, b, a))
  }

  lemma LinkedIsMet<N(!new)>(adj: map<N, seq<N>>, g: multiset<(N, N)>, a: N, b: N)
    requires Represents(adj, g) && a in adj
    ensures (a, b) in g <==> b in adj[a]
  {
    assert multiset(adj[a])[b] == g[(a, b)];
  }

  lemma ViewStep<N(!new)>(adj: map<N, seq<N>>, view: map<N, set<N>>, done: set<N>, u: N, i: nat, v: N)
    requires u in adj && i < |adj[u]| && v == adj[u][i] && v in adj
    requires ViewSoFar(adj, view, done, u, i)
    ensures var once := view[u := view[u] + {v}];
      ViewSoFar(adj, once[v := once[v] + {u}], done, u, i + 1)
  {
    assert adj[u][..i + 1] == adj[u][..i] + [v];
    assert v in adj[u];
    forall a, b ensures Met(adj, done, u, i + 1, a, b) <==> Met(adj, done, u, i, a, b) || (a == u && b == v) { }
  }

  lemma ViewStart<N(!new)>(adj: map<N, seq<N>>, view: map<N, set<N>>, done: set<N>, u: N, w: N)
    requires u in adj && w in adj && ViewSoFar(adj, view, done, u, 0)
    ensures ViewSoFar(adj, view, done, w, 0)
  {
    forall a, b ensures Met(adj, done, u, 0, a, b) <==> Met(adj, done, w, 0, a, b) { }
  }

  lemma ViewNext<N(!new)>(adj: map<N, seq<N>>, view: map<N, set<N>>, done: set<N>, u: N, w: N)
    requires u in adj && w in adj && ViewSoFar(adj, view, done, u, |adj[u]|)
    ensures ViewSoFar(adj, view, done + {u}, w, 0)
  {
    assert adj[u][..|adj[u]|] == adj[u];
    forall a, b ensures Met(adj, done, u, |adj[u]|, a, b) <==> Met(adj, done + {u}, w, 0, a, b) { }
  }

  lemma ViewDone<N(!new)>(adj: map<N, seq<N>>, g: multiset<(N, N)>, view: map<N, set<N>>, u: N)
    requires Represents(adj, g) && u in adj && ViewSoFar(adj, view, adj.Keys, u, 0)
    ensures IsView(g, view)
  {
    forall a, b | a in view ensures b in view[a] <==> Linked(g, a, b) {
      LinkedIsMet(adj, g, a, b);
      if b in adj {
        LinkedIsMet(adj, g, b, a);
      }
    }
  }

  /** `view` maps every node to its neighbours, whichever way the edges point. */
  ghost predicate IsView<N(!new)>(g: multiset<(N, N)>, view: map<N, set<N>>) {
    && (forall e :: e in g ==> e.0 in view && e.1 in view)
    && (forall a, b :: a in view ==> (b in view[a] <==> Linked(g, a, b)))
  }

  method UndirectedView<N(==,!new)>(adj: map<N, seq<N>>, ghost g: multiset<(N, N)>) returns (view: map<N, set<N>>)
    requires Represents(adj, g)
    ensures view.Keys == adj.Keys && IsView(g, view)
  {
    view := map u | u in adj :: {};
    if adj.Keys == {} {
      return;
    }
    ghost var any :| any in adj;
    var todo := adj.Keys;
    while todo != {}
      invariant todo <= adj.Keys
      invariant ViewSoFar(adj, view, adj.Keys - todo, any, 0)
    {
      var u :| u in todo;
      ghost var done := adj.Keys - todo;
      ViewStart(adj, view, done, any, u);
      for i := 0 to |adj[u]|
        invariant ViewSoFar(adj, view, done, u, i)
      {
        var v := adj[u][i];
        LinkedIsMet(adj, g, u, v);
        ViewStep(adj, view, done, u, i, v);
        view := view[u := view[u] + {v}];
        view := view[v := view[v] + {u}];
      }
      ViewNext(adj, view, done, u, any);
      todo := todo - {u};
      assert adj.Keys - todo == done + {u};
    }
    assert adj.Keys - todo == adj.Keys;
    ViewDone(adj, g, view, any);
  }

  // ---------------------------------------------------------- one component

  /** Lines 67-70: the neighbours not visited yet are marked and pushed. */
  method PushUnseen<N(==,!new)>(neighbours: set<N>, stack: seq<N>, visited: set<N>)
    returns (stack': seq<N>, visited': set<N>)
    requires NoDuplicates(stack) && Nodes(stack) <= visited
    ensures NoDuplicates(stack') && Nodes(stack') == Nodes(stack) + (neighbours - visited)
    ensures visited' == visited + neighbours
  {
    stack', visited' := stack, visited;
    var todo := neighbours;
    while todo != {}
      invariant todo <= neighbours
      invariant NoDuplicates(stack') && Nodes(stack') == Nodes(stack) + (neighbours - todo - visited)
      invariant visited' == visited + (neighbours - todo)
    {
      var v :| v in todo;
      if v !in visited' {
        visited' := visited' + {v};
        stack' := stack' + [v];
      }
      todo := todo - {v};
    }
  }

  /** Everything seen is either collected, neighbours and all, or on the stack. */
  ghost predicate Searching<N(!new)>(view: map<N, set<N>>, g: multiset<(N, N)>, node: N,
                                     component: seq<N>, stack: seq<N>, visited: set<N>)
  {
    && visited == Nodes(component) + Nodes(stack) && visited <= view.Keys
    && NoDuplicates(component) && NoDuplicates(stack) && Nodes(component) !! Nodes(stack)
    && (forall v :: v in visited ==> Connected(g, node, v))
    && (forall u :: u in component ==> view[u] <= visited)
    && (if component == [] then stack == [node] else component[0] == node)
  }

  lemma SearchPop<N(!new)>(view: map<N, set<N>>, g: multiset<(N, N)>, node: N,
                           component: seq<N>, stack: seq<N>, u: N, visited: set<N>)
    requires IsView(g, view) && Searching(view, g, node, component, stack + [u], visited)
    ensures u in view && u !in stack && u !in component && u in visited
    ensures NoDuplicates(stack) && Nodes(stack + [u]) == Nodes(stack) + {u}
    ensures forall v :: v in view[u] ==> Connected(g, node, v) && v in view
  {
    var s := stack + [u];
    assert s[|stack|] == u && u in Nodes(s);
    forall i | 0 <= i < |stack| ensures stack[i] == s[i] { }
    forall v | v in view[u] ensures Connected(g, node, v) && v in view {
      ConnectedStep(g, node, u, v);
    }
  }

  lemma SearchPush<N(!new)>(view: map<N, set<N>>, g: multiset<(N, N)>, node: N, component: seq<N>,
                            stack: seq<N>, u: N, visited: set<N>, stack': seq<N>, visited': set<N>)
    requires IsView(g, view) && Searching(view, g, node, component, stack + [u], visited)
    requires u in view && NoDuplicates(stack') && visited' == visited + view[u]
    requires Nodes(stack') == Nodes(stack) + (view[u] - visited)
    ensures Searching(view, g, node, component + [u], stack', visited')
    ensures Nodes(component + [u]) == Nodes(component) + {u}
  {
    SearchPop(view, g, node, component, stack, u, visited);
  }

  /** Depth-first collection from `node`: lines 61-70. */
  method Collect<N(==,!new)>(view: map<N, set<N>>, node: N, ghost g: multiset<(N, N)>)
    returns (component: seq<N>, visited: set<N>)
    requires IsView(g, view) && node in view
    ensures IsComponent(g, component) && NoDuplicates(component) && component[0] == node
    ensures visited == Nodes(component) <= view.Keys
  {
    component := [];
    var stack := [node];
    visited := {node};
    ConnectedRefl(g, node);
    while stack != []
      invariant Searching(view, g, node, component, stack, visited)
      decreases view.Keys - Nodes(component)
    {
      var u := stack[|stack| - 1];
      ghost var below := stack[..|stack| - 1];
      SearchPop(view, g, node, component, below, u, visited);
      var stack', visited' := PushUnseen(view[u], stack[..|stack| - 1], visited);
      SearchPush(view, g, node, component, below, u, visited, stack', visited');
      component, stack, visited := component + [u], stack', visited';
    }
    ViewClosed(view, g, component);
  }

  /** A set that holds its members' neighbours is crossed by no edge. */
  lemma ViewClosed<N(!new)>(view: map<N, set<N>>, g: multiset<(N, N)>, component: seq<N>)
    requires IsView(g, view) && Nodes(component) <= view.Keys
    requires forall u :: u in component ==> view[u] <= Nodes(component)
    ensures Closed(g, Nodes(component))
  {
    forall e | e in g ensures e.0 in Nodes(component) <==> e.1 in Nodes(component) {
      assert Linked(g, e.0, e.1) && Linked(g, e.1, e.0);
    }
  }

  // -------------------------------------------------------------- the whole

  lemma CoversMore<N(!new)>(comps: seq<seq<N>>, nodes: seq<N>, x: N, c: seq<N>)
    requires CoversAll(comps, nodes) && x in c
    ensures CoversAll(comps + [c], nodes + [x])
  {
    CoveredSnoc(comps, c);
    forall k | 0 <= k < |nodes + [x]| ensures Covered(comps + [c], (nodes + [x])[k]) {
      assert k < |nodes| ==> Covered(comps, nodes[k]);
    }
  }

  /** A component newly found holds none of the nodes before its head. */
  lemma Unmet<N(!new)>(g: multiset<(N, N)>, nodes: seq<N>, comps: seq<seq<N>>, c: seq<N>)
    requires IsDecomposition(g, nodes, comps)
    requires IsComponent(g, c) && !Covered(comps, c[0])
    ensures forall n :: n in nodes ==> n !in c
  {
    forall n | n in nodes ensures n !in c {
      var k :| 0 <= k < |nodes| && nodes[k] == n;
      assert Covered(comps, nodes[k]);
      var j :| 0 <= j < |comps| && n in comps[j];
      assert c[0] !in comps[j];
      if n in c {
        ComponentsApart(g, comps[j], c, n);
      }
    }
  }

  lemma Extend<N(!new)>(g: multiset<(N, N)>, comps: seq<seq<N>>, c: seq<N>)
    requires AreComponents(g, comps) && IsComponent(g, c) && NoDuplicates(c) && !Covered(comps, c[0])
    ensures AreComponents(g, comps + [c])
  {
    forall i, v | 0 <= i < |comps| && v in comps[i] ensures v !in c {
      assert c[0] !in comps[i];
      if v in c {
        ComponentsApart(g, comps[i], c, v);
      }
    }
  }

  lemma CoveredSnoc<N(!new)>(comps: seq<seq<N>>, c: seq<N>)
    ensures forall v :: Covered(comps + [c], v) <==> Covered(comps, v) || v in c
  {
    forall v ensures Covered(comps + [c], v) <==> Covered(comps, v) || v in c {
      var more := comps + [c];
      if Covered(comps, v) {
        var i :| 0 <= i < |comps| && v in comps[i];
        assert v in more[i];
      }
      if v in c {
        assert v in more[|comps|];
      }
    }
  }

  lemma PartialSkip<N(!new)>(g: multiset<(N, N)>, nodes: seq<N>, x: N, comps: seq<seq<N>>, at: seq<nat>)
    requires IsDecomposition(g, nodes, comps) && MetAt(nodes, comps, at) && Covered(comps, x)
    ensures IsDecomposition(g, nodes + [x], comps) && MetAt(nodes + [x], comps, at)
  {
  }

  lemma PartialExtend<N(!new)>(g: multiset<(N, N)>, nodes: seq<N>, x: N, comps: seq<seq<N>>, at: seq<nat>, c: seq<N>)
    requires IsDecomposition(g, nodes, comps) && MetAt(nodes, comps, at) && !Covered(comps, x)
    requires IsComponent(g, c) && NoDuplicates(c) && c[0] == x
    ensures IsDecomposition(g, nodes + [x], comps + [c]) && MetAt(nodes + [x], comps + [c], at + [|nodes|])
  {
    Unmet(g, nodes, comps, c);
    Extend(g, comps, c);
    CoversMore(comps, nodes, x, c);
    MetNext(nodes, x, comps, at, c);
  }

  lemma MetNext<N(!new)>(nodes: seq<N>, x: N, comps: seq<seq<N>>, at: seq<nat>, c: seq<N>)
    requires MetAt(nodes, comps, at) && c != [] && c[0] == x
    requires forall n :: n in nodes ==> n !in c
    ensures MetAt(nodes + [x], comps + [c], at + [|nodes|])
  {
  }

  method Decompose<N(==,!new)>(nodes: seq<N>, adj: map<N, seq<N>>, ghost g: multiset<(N, N)>)
    returns (comps: seq<seq<N>>, ghost at: seq<nat>)
    requires Represents(adj, g) && Nodes(nodes) <= adj.Keys
    ensures IsDecomposition(g, nodes, comps) && MetAt(nodes, comps, at)
  {
    var view := UndirectedView(adj, g);
    var visited := {};
    comps, at := [], [];
    for k := 0 to |nodes|
      invariant forall v :: v in visited <==> Covered(comps, v)
      invariant IsDecomposition(g, nodes[..k], comps) && MetAt(nodes[..k], comps, at)
    {
      var node := nodes[k];
      assert nodes[..k + 1] == nodes[..k] + [node];
      if node !in visited {
        assert node in Nodes(nodes);
        var component, found := Collect(view, node, g);
        PartialExtend(g, nodes[..k], node, comps, at, component);
        CoveredSnoc(comps, component);
        ghost var here: nat := k;
        comps, at := comps + [component], at + [here];
        visited := visited + found;
      } else {
        PartialSkip(g, nodes[..k], node, comps, at);
      }
    }
    assert nodes[..|nodes|] == nodes;
  }
}
