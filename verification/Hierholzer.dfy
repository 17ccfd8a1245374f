/** The adjacency dictionary that the traversal consumes, and the stack-based
    walk that consumes it (test_suite/__init__.py, lines 285-320). */
module Hierholzer {
  import opened Counting
  import opened Graphs
  import opened Sequences

  /** `lists` is an adjacency-list table of exactly the edges `g`. */
  ghost predicate Represents<N(!new)>(lists: map<N, seq<N>>, g: multiset<(N, N)>) {
    && (forall e :: e in g ==> e.0 in lists && e.1 in lists)
    && (forall u, v :: u in lists ==> multiset(lists[u])[v] == g[(u, v)])
  }

  lemma RepresentsAdd<N(!new)>(lists: map<N, seq<N>>, g: multiset<(N, N)>, u: N, v: N)
    requires Represents(lists, g) && u in lists && v in lists
    ensures Represents(lists[u := lists[u] + [v]], g + multiset{(u, v)})
  {
    var added, h := lists[u := lists[u] + [v]], g + multiset{(u, v)};
    forall a, b | a in added ensures multiset(added[a])[b] == h[(a, b)] {
      assert multiset(lists[a])[b] == g[(a, b)];
    }
  }

  lemma RepresentsPop<N(!new)>(lists: map<N, seq<N>>, g: multiset<(N, N)>, u: N, rest: seq<N>, v: N)
    requires Represents(lists, g) && u in lists && lists[u] == rest + [v]
    ensures (u, v) in g && v in lists
    ensures Represents(lists[u := rest], g - multiset{(u, v)})
  {
    var fewer, h := lists[u := rest], g - multiset{(u, v)};
    assert multiset(lists[u])[v] == g[(u, v)];
    forall a, b | a in fewer ensures multiset(fewer[a])[b] == h[(a, b)] {
      assert multiset(lists[a])[b] == g[(a, b)];
    }
  }

  /** An empty list is a node no edge leaves. */
  lemma RepresentsEmpty<N(!new)>(lists: map<N, seq<N>>, g: multiset<(N, N)>, u: N)
    requires Represents(lists, g) && u in lists
    ensures lists[u] == [] <==> Out(g, u) == 0
  {
    DegreeZero(g, u);
    if lists[u] == [] {
      forall e | e in g ensures e.0 != u {
        assert multiset(lists[e.0])[e.1] == g[(e.0, e.1)];
      }
    } else {
      var v := lists[u][0];
      assert v in multiset(lists[u]);
      assert (u, v) in g;
    }
  }

  /** The edge that joins the unfinished stack to the finished circuit. */
  ghost function Pending<N>(junction: N, circuit: seq<N>): multiset<(N, N)> {
    if circuit == [] then multiset{} else multiset{(junction, circuit[0])}
  }

  /** The edges walked so far. */
  ghost function Taken<N>(stack: seq<N>, circuit: seq<N>, junction: N): multiset<(N, N)> {
    multiset(Steps(stack)) + multiset(Steps(circuit))
    + (if stack == [] then multiset{} else Pending(junction, circuit))
  }

  /** What every iteration keeps: the stack is a walk out of `start`, the
      circuit a walk back into it, and together with the pending edge they are
      exactly the edges taken from `g`. */
  ghost predicate Progress<N(!new)>(g: multiset<(N, N)>, rest: multiset<(N, N)>, start: N,
                                    stack: seq<N>, circuit: seq<N>, junction: N)
  {
    Anchored(start, stack, circuit, junction) && g == rest + Taken(stack, circuit, junction)
  }

  /** Both parts hang on the start. */
  ghost predicate Anchored<N>(start: N, stack: seq<N>, circuit: seq<N>, junction: N) {
    && (stack != [] ==> stack[0] == start)
    && (circuit != [] ==> circuit[|circuit| - 1] == start)
    && (circuit == [] ==> stack != [] && junction == start)
    && (stack == [] ==> circuit[0] == start)
  }

  /** The walk gets stuck nowhere but at the junction: anywhere else, balance
      leaves an edge out of the top of the stack. */
  lemma StuckAtJunction<N(!new)>(g: multiset<(N, N)>, rest: multiset<(N, N)>, start: N,
                                 stack: seq<N>, circuit: seq<N>, junction: N)
    requires Balanced(g) && Progress(g, rest, start, stack, circuit, junction)
    requires stack != [] && Out(rest, stack[|stack| - 1]) == 0
    ensures stack[|stack| - 1] == junction
  {
    var u := stack[|stack| - 1];
    TakenBalance(start, stack, circuit, junction, u);
    DegreeUnion(rest, Taken(stack, circuit, junction), u);
    assert Out(g, u) == In(g, u);
  }

  /** What is taken is out of balance only at the top and at the junction. */
  lemma TakenBalance<N(!new)>(start: N, stack: seq<N>, circuit: seq<N>, junction: N, u: N)
    requires stack != [] && stack[0] == start
    requires if circuit == [] then junction == start else circuit[|circuit| - 1] == start
    ensures var t := Taken(stack, circuit, junction);
      Out(t, u) + Indicator(u == stack[|stack| - 1]) == In(t, u) + Indicator(u == junction)
  {
    var s, c, p := multiset(Steps(stack)), multiset(Steps(circuit)), Pending(junction, circuit);
    DegreeUnion(s + c, p, u);
    DegreeUnion(s, c, u);
    WalkBalance(stack, u);
    if circuit == [] {
      DegreeZero(c, u);
      DegreeZero(p, u);
    } else {
      WalkBalance(circuit, u);
      DegreeSingle((junction, circuit[0]), u);
    }
  }

  /** Pushing the head of a fresh edge out of the top. */
  lemma ProgressPush<N(!new)>(g: multiset<(N, N)>, rest: multiset<(N, N)>, start: N,
                              stack: seq<N>, circuit: seq<N>, junction: N, v: N)
    requires Progress(g, rest, start, stack, circuit, junction) && stack != []
    requires (stack[|stack| - 1], v) in rest
    ensures Progress(g, rest - multiset{(stack[|stack| - 1], v)}, start, stack + [v], circuit, junction)
  {
    StepsSnoc(stack, v);
  }

  /** Absorbing the junction into the circuit turns the pending edge into a step. */
  lemma StepsGrow<N(!new)>(junction: N, circuit: seq<N>)
    ensures multiset(Steps([junction] + circuit)) == multiset(Steps(circuit)) + Pending(junction, circuit)
  {
    if circuit == [] {
      assert Steps([junction] + circuit) == [] == Steps(circuit);
    } else {
      StepsCons(junction, circuit);
    }
  }

  /** Moving the stuck top over to the circuit; the new top is the junction. */
  lemma ProgressPop<N(!new)>(g: multiset<(N, N)>, rest: multiset<(N, N)>, start: N,
                             stack: seq<N>, circuit: seq<N>, junction: N, junction': N)
    requires Progress(g, rest, start, stack, circuit, junction) && stack != []
    requires stack[|stack| - 1] == junction
    requires |stack| > 1 ==> junction' == stack[|stack| - 2]
    ensures Progress(g, rest, start, stack[..|stack| - 1], [junction] + circuit, junction')
  {
    var below := stack[..|stack| - 1];
    assert stack == below + [junction];
    AnchoredPop(start, below, circuit, junction, junction');
    TakenPop(below, circuit, junction, junction');
  }

  lemma AnchoredPop<N>(start: N, below: seq<N>, circuit: seq<N>, junction: N, junction': N)
    requires Anchored(start, below + [junction], circuit, junction)
    ensures Anchored(start, below, [junction] + circuit, junction')
  {
    assert (below + [junction])[0] == if below == [] then junction else below[0];
  }

  lemma TakenPop<N(!new)>(below: seq<N>, circuit: seq<N>, junction: N, junction': N)
    requires below != [] ==> junction' == below[|below| - 1]
    ensures Taken(below, [junction] + circuit, junction') == Taken(below + [junction], circuit, junction)
  {
    StepsGrow(junction, circuit);
    if below == [] {
      assert Steps(below + [junction]) == [] == Steps(below);
    } else {
      StepsSnoc(below, junction);
    }
  }

  /** Once the stack is empty the remaining edges are balanced again and none
      touches the circuit. */
  lemma NothingLeftOnCircuit<N(!new)>(g: multiset<(N, N)>, rest: multiset<(N, N)>, start: N,
                                      circuit: seq<N>, junction: N)
    requires Balanced(g) && Progress(g, rest, start, [], circuit, junction)
    requires forall u :: u in circuit ==> Out(rest, u) == 0
    ensures Balanced(rest)
    ensures forall e :: e in rest ==> e.0 !in circuit && e.1 !in circuit
  {
    assert Steps<N>([]) == [];
    assert g == rest + multiset(Steps(circuit));
    forall u: N ensures Out(rest, u) == In(rest, u) {
      DegreeUnion(rest, multiset(Steps(circuit)), u);
      WalkBalance(circuit, u);
      assert Out(g, u) == In(g, u);
    }
    forall e | e in rest ensures e.0 !in circuit && e.1 !in circuit {
      DegreeZero(rest, e.0);
      DegreeZero(rest, e.1);
      assert Out(rest, e.1) == In(rest, e.1);
    }
  }

  /** Hence, the circuit's nodes are one whole component of what there was. */
  lemma CircuitIsComponent<N(!new)>(g: multiset<(N, N)>, rest: multiset<(N, N)>, circuit: seq<N>)
    requires circuit != [] && g == rest + multiset(Steps(circuit))
    requires forall e :: e in rest ==> e.0 !in circuit && e.1 !in circuit
    ensures IsComponent(g, circuit)
  {
    forall e | e in g ensures e.0 in Nodes(circuit) <==> e.1 in Nodes(circuit) {
      if e !in rest {
        assert e in Steps(circuit);
      }
    }
    assert IsWalk(g, circuit) by {
      forall i | 0 <= i < |circuit| - 1 ensures (circuit[i], circuit[i + 1]) in g {
        assert Steps(circuit)[i] in multiset(Steps(circuit));
      }
    }
    forall v | v in circuit ensures Connected(g, circuit[0], v) {
      var k :| 0 <= k < |circuit| && circuit[k] == v;
      WalkConnects(g, circuit, k);
    }
  }

  /** What the loop has done to the table so far: finished nodes have nothing
      left, nodes not met yet are untouched. */
  ghost predicate Consumed<N(!new)>(table: map<N, seq<N>>, lists: map<N, seq<N>>, stack: seq<N>, circuit: seq<N>) {
    && lists.Keys == table.Keys
    && (forall u :: u in stack || u in circuit ==> u in lists)
    && (forall u :: u in circuit ==> lists[u] == [])
    && (forall u :: u in lists && u !in stack && u !in circuit ==> lists[u] == table[u])
  }

  lemma ConsumedPush<N(!new)>(table: map<N, seq<N>>, lists: map<N, seq<N>>, lists': map<N, seq<N>>,
                        stack: seq<N>, circuit: seq<N>, v: N)
    requires Consumed(table, lists, stack, circuit) && stack != [] && v in lists
    requires lists'.Keys == lists.Keys && lists[stack[|stack| - 1]] != []
    requires lists' == lists[stack[|stack| - 1] := lists'[stack[|stack| - 1]]]
    ensures Consumed(table, lists', stack + [v], circuit)
  {
    forall u | u in lists' && u !in stack + [v] && u !in circuit ensures lists'[u] == table[u] {
      assert stack[|stack| - 1] in stack + [v];
      assert u !in stack;
    }
  }

  lemma ConsumedPop<N(!new)>(table: map<N, seq<N>>, lists: map<N, seq<N>>, stack: seq<N>, circuit: seq<N>)
    requires Consumed(table, lists, stack, circuit) && stack != [] && lists[stack[|stack| - 1]] == []
    ensures Consumed(table, lists, stack[..|stack| - 1], circuit + [stack[|stack| - 1]])
  {
    var u := stack[|stack| - 1];
    assert stack == stack[..|stack| - 1] + [u];
  }

  /** What the empty stack amounts to. */
  lemma Finished<N(!new)>(g: multiset<(N, N)>, rest: multiset<(N, N)>, table: map<N, seq<N>>, lists: map<N, seq<N>>,
                          start: N, popped: seq<N>, junction: N)
    requires Balanced(g) && Progress(g, rest, start, [], Reverse(popped), junction)
    requires Represents(lists, rest) && Consumed(table, lists, [], popped)
    ensures Balanced(rest) && IsComponent(g, Reverse(popped))
    ensures g == rest + multiset(Steps(Reverse(popped)))
    ensures Nodes(Reverse(popped)) <= lists.Keys
    ensures forall e :: e in rest ==> e.0 !in Reverse(popped) && e.1 !in Reverse(popped)
    ensures forall u :: u in lists ==> lists[u] == if u in Reverse(popped) then [] else table[u]
  {
    var circuit := Reverse(popped);
    assert Steps<N>([]) == [];
    forall u ensures u in circuit <==> u in popped {
      if u in popped {
        var k :| 0 <= k < |popped| && popped[k] == u;
        assert circuit[|popped| - 1 - k] == u;
      }
    }
    forall u | u in circuit ensures Out(rest, u) == 0 {
      RepresentsEmpty(lists, rest, u);
    }
    NothingLeftOnCircuit(g, rest, start, circuit, junction);
    CircuitIsComponent(g, rest, circuit);
  }

  /** The `adj` dictionary: one list of targets per node, popped in place. */
  class Adjacency<N(==,!new)> {
    var lists: map<N, seq<N>>
    ghost var edges: multiset<(N, N)>  // the edges still in the lists

    ghost predicate Valid()
      reads this
    {
      Represents(lists, edges)
    }

    /** `adj = {u: [] for u in all_sdks}`. */
    constructor (nodes: seq<N>)
      ensures Valid() && edges == multiset{} && lists.Keys == Nodes(nodes)
    {
      lists := map u | u in nodes :: [];
      edges := multiset{};
    }

    /** `adj[u].append(v)`. */
    method Append(u: N, v: N)
      requires Valid() && u in lists && v in lists
      modifies this
      ensures Valid() && edges == old(edges) + multiset{(u, v)}
      ensures lists.Keys == old(lists).Keys && lists == old(lists)[u := old(lists[u]) + [v]]
    {
      RepresentsAdd(lists, edges, u, v);
      lists := lists[u := lists[u] + [v]];
      edges := edges + multiset{(u, v)};
    }

    /** `v = adj[u].pop()`. */
    method Pop(u: N) returns (v: N)
      requires Valid() && u in lists && lists[u] != []
      modifies this
      ensures Valid() && v in lists && (u, v) in old(edges)
      ensures edges == old(edges) - multiset{(u, v)}
      ensures lists.Keys == old(lists).Keys && old(lists[u]) == lists[u] + [v]
      ensures lists == old(lists)[u := lists[u]]
    {
      var targets := lists[u];
      var rest := targets[..|targets| - 1];
      v := targets[|targets| - 1];
      RepresentsPop(lists, edges, u, rest, v);
      edges := edges - multiset{(u, v)};
      lists := lists[u := rest];
    }

    /** One run of the loop at lines 309-320: a closed walk from `start` over
        every edge of its component, each once, leaving all other lists alone.
        `ticks` counts the iterations. */
    method Walk(start: N) returns (circuit: seq<N>, ghost ticks: nat)
      requires Valid() && start in lists && Balanced(edges)
      modifies this
      ensures Valid() && Balanced(edges)
      ensures circuit != [] && circuit[0] == start == circuit[|circuit| - 1]
      ensures old(edges) == edges + multiset(Steps(circuit))
      ensures IsComponent(old(edges), circuit)
      ensures forall e :: e in edges ==> e.0 !in circuit && e.1 !in circuit
      ensures lists.Keys == old(lists).Keys && Nodes(circuit) <= lists.Keys
      ensures forall u :: u in lists ==> lists[u] == if u in circuit then [] else old(lists)[u]
      ensures ticks == 2 * |Steps(circuit)| + 1
    {
      ghost var before, table := edges, lists;
      var stack := [start];
      circuit := [];
      ghost var junction := start;
      ticks := 0;
      assert Steps([start]) == [] && Steps<N>([]) == [];
      while stack != []
        invariant Valid() && lists.Keys == table.Keys
        invariant Progress(before, edges, start, stack, Reverse(circuit), junction)
        invariant Consumed(table, lists, stack, circuit)
        invariant ticks == 2 * (|before| - |edges|) + 1 - |stack|
        decreases 2 * |edges| + |stack|
      {
        var u := stack[|stack| - 1];
        ghost var rest, was := edges, lists;
        if lists[u] != [] {
          var v := Pop(u);
          ProgressPush(before, rest, start, stack, Reverse(circuit), junction, v);
          ConsumedPush(table, was, lists, stack, circuit, v);
          stack := stack + [v];
        } else {
          RepresentsEmpty(lists, edges, u);
          StuckAtJunction(before, edges, start, stack, Reverse(circuit), junction);
          ghost var next := if |stack| > 1 then stack[|stack| - 2] else start;
          ProgressPop(before, edges, start, stack, Reverse(circuit), junction, next);
          ConsumedPop(table, lists, stack, circuit);
          ReverseSnoc(circuit, u);
          junction := next;
          circuit := circuit + [u];
          stack := stack[..|stack| - 1];
        }
        ticks := ticks + 1;
      }
      Finished(before, edges, table, lists, start, circuit, junction);
      circuit := Reverse(circuit);
    }
  }
}
