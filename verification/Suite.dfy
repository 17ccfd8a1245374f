/** One scenario's instruction and trace tokens: a circuit per component and
    transport, compiled and concatenated (test_suite/__init__.py, lines 177-238). */
module Suite {
  import opened Wrappers
  import opened Graphs
  import opened Sequences
  import opened Traversal
  import opened EdgeStrings
  import opened Instructions

  // ------------------------------------------------------------ the edges meant

  /** The scenario's edge strings can be read; an absent or empty list always can. */
  predicate Readable(sdks: seq<string>, edges: Option<seq<string>>) {
    edges.Some? ==> AllParse(edges.value, |sdks|)
  }

  function ParsedEdges(sdks: seq<string>, edges: Option<seq<string>>): Option<seq<(string, string)>>
    requires Readable(sdks, edges)
  {
    if edges.Some? && edges.value != [] then Some(Named(edges.value, sdks)) else None
  }

  /** The edges the engine sets out to walk. */
  function ScenarioEdges(sdks: seq<string>, edges: Option<seq<string>>): seq<(string, string)>
    requires Readable(sdks, edges)
  {
    Target(sdks, ParsedEdges(sdks, edges))
  }

  lemma {:induction false} NamedEnds(edges: seq<string>, ids: seq<string>)
    requires AllParse(edges, |ids|)
    ensures EndsIn(Named(edges, ids), ids)
  {
    if edges != [] {
      NamedEnds(edges[..|edges| - 1], ids);
    }
  }

  /** Explicit edges are walked as written: none falls outside the scenario. */
  lemma {:induction false} ExplicitEdges(sdks: seq<string>, edges: seq<string>)
    requires AllParse(edges, |sdks|) && edges != []
    ensures ScenarioEdges(sdks, Some(edges)) == Named(edges, sdks)
  {
    NamedEnds(edges, sdks);
    WithinAll(Named(edges, sdks), sdks);
  }

  // ------------------------------------------------------------------- plans

  /** What is walked: a transport and a circuit, in order. */
  datatype Leg = Leg(transport: string, circuit: seq<string>)

  function Legs(transport: string, circuits: seq<seq<string>>): (r: seq<Leg>)
    ensures |r| == |circuits|
    ensures forall i {:trigger r[i]} :: 0 <= i < |r| ==> r[i] == Leg(transport, circuits[i])
  {
    seq(|circuits|, i requires 0 <= i < |circuits| => Leg(transport, circuits[i]))
  }

  /** `tours[k]` is the traversal made for transport `k`. */
  function Plan(transports: seq<string>, tours: seq<seq<seq<string>>>): seq<Leg>
    requires |tours| == |transports|
  {
    if transports == [] then []
    else
      var n := |transports| - 1;
      Plan(transports[..n], tours[..n]) + Legs(transports[n], tours[n])
  }

  /** The circuits of transport `k` follow all those of the transports before it. */
  lemma {:induction false} PlanBlocks(transports: seq<string>, tours: seq<seq<seq<string>>>, k: nat)
    requires |tours| == |transports| && k < |transports|
    ensures Plan(transports[..k], tours[..k]) + Legs(transports[k], tours[k]) <= Plan(transports, tours)
  {
    var n := |transports| - 1;
    if k < n {
      PlanBlocks(transports[..n], tours[..n], k);
      assert transports[..n][..k] == transports[..k] && tours[..n][..k] == tours[..k];
    }
  }

  predicate AllCallable(plan: seq<Leg>, agents: AgentTable) {
    forall i :: 0 <= i < |plan| ==> Callable(plan[i].circuit, agents)
  }

  function CompiledLegs(plan: seq<Leg>, agents: AgentTable, options: HopOptions): (r: seq<Instruction>)
    requires AllCallable(plan, agents)
    ensures |r| == |plan|
    ensures forall i {:trigger r[i]} :: 0 <= i < |r| ==>
      r[i] == Compiled(plan[i].circuit, plan[i].transport, agents, options)
  {
    seq(|plan|, i requires 0 <= i < |plan| => Compiled(plan[i].circuit, plan[i].transport, agents, options))
  }

  /** One leg's chain of tokens: the hops from last to first, then the terminal. */
  function Chain(leg: Leg): seq<string> {
    Reverse(HopTokens(leg.circuit, leg.transport)) + [Terminal(leg.transport)]
  }

  function PlanTokens(plan: seq<Leg>): seq<string> {
    Gather(Chain, plan)
  }

  /** `steps` and `tokens` are what the plan compiles to. */
  ghost predicate Built(plan: seq<Leg>, agents: AgentTable, options: HopOptions,
                        steps: seq<Instruction>, tokens: seq<string>)
  {
    AllCallable(plan, agents) && steps == CompiledLegs(plan, agents, options) && tokens == PlanTokens(plan)
  }

  lemma BuiltConcat(a: seq<Leg>, b: seq<Leg>, agents: AgentTable, options: HopOptions,
                    s: seq<Instruction>, t: seq<Instruction>, u: seq<string>, v: seq<string>)
    requires Built(a, agents, options, s, u) && Built(b, agents, options, t, v)
    ensures Built(a + b, agents, options, s + t, u + v)
  {
    CompiledConcat(a, b, agents, options);
    GatherConcat(Chain, a, b);
  }

  lemma CallableConcat(a: seq<Leg>, b: seq<Leg>, agents: AgentTable)
    requires AllCallable(a, agents) && AllCallable(b, agents)
    ensures AllCallable(a + b, agents)
  {
  }

  lemma CompiledConcat(a: seq<Leg>, b: seq<Leg>, agents: AgentTable, options: HopOptions)
    requires AllCallable(a, agents) && AllCallable(b, agents)
    ensures AllCallable(a + b, agents)
    ensures CompiledLegs(a + b, agents, options) == CompiledLegs(a, agents, options) + CompiledLegs(b, agents, options)
  {
    CallableConcat(a, b, agents);
    var all := CompiledLegs(a + b, agents, options);
    var parts := CompiledLegs(a, agents, options) + CompiledLegs(b, agents, options);
    forall i | 0 <= i < |all| ensures all[i] == parts[i] {
      assert (a + b)[i] == if i < |a| then a[i] else b[i - |a|];
    }
  }

  /** Every transport gets a traversal of the same edges. */
  ghost predicate AreTours(sdks: seq<string>, target: seq<(string, string)>, tours: seq<seq<seq<string>>>)
  {
    tours == [] || (sdks != [] && forall k {:trigger IsTraversal(sdks, sdks[0], target, tours[k])} ::
      0 <= k < |tours| ==> IsTraversal(sdks, sdks[0], target, tours[k]))
  }

  lemma AreToursSnoc(sdks: seq<string>, target: seq<(string, string)>, tours: seq<seq<seq<string>>>,
                     tour: seq<seq<string>>)
    requires sdks != [] && AreTours(sdks, target, tours) && IsTraversal(sdks, sdks[0], target, tour)
    ensures AreTours(sdks, target, tours + [tour])
  {
    forall k | 0 <= k < |tours + [tour]| ensures IsTraversal(sdks, sdks[0], target, (tours + [tour])[k]) {
      if k < |tours| {
        assert IsTraversal(sdks, sdks[0], target, tours[k]);
      }
    }
  }

  const TRANSPORT_ORDER: seq<string> := ["jsonrpc", "grpc", "http_json"]

  /** Lines 208-210; `setOrder` is the unspecified order of the frozen set. */
  function Transports(protocols: Option<seq<string>>, setOrder: seq<string>): seq<string> {
    if protocols.Some? then protocols.value else setOrder
  }

  /** Some edge leads to an agent nobody started. */
  ghost predicate CallsMissing(target: seq<(string, string)>, agents: AgentTable) {
    exists e :: e in target && e.1 !in agents
  }

  /** Why a transport cannot be built: nowhere to start, no circuit, or an agent
      nobody started. */
  ghost function Failure(sdks: seq<string>, target: seq<(string, string)>): Error {
    if sdks == [] then IndexError else if !Balanced(multiset(target)) then ValueError else RuntimeError
  }

  /** With no agents there is nothing to walk. */
  lemma NothingToWalk(edges: Option<seq<(string, string)>>)
    ensures Target<string>([], edges) == [] && Balanced(multiset(Target<string>([], edges)))
  {
    var target := Target<string>([], edges);
    assert target != [] ==> target[0] in target;
    TargetEnds<string>([], edges);
    CompleteBalanced<string>([]);
  }

  // ------------------------------------------- which agents a traversal calls

  lemma AllStepsMembers<N(!new)>(circuits: seq<seq<N>>, e: (N, N))
    ensures e in AllSteps(circuits) <==> exists c :: c in circuits && e in Steps(c)
  {
    GatherMembers((c: seq<N>) => Steps(c), circuits, e);
  }

  /** A traversal calls exactly the heads of the edges. */
  lemma TraversalCallable(sdks: seq<string>, current: string, target: seq<(string, string)>,
                          circuits: seq<seq<string>>, agents: AgentTable)
    requires IsTraversal(sdks, current, target, circuits)
    ensures (forall c :: c in circuits ==> Callable(c, agents)) <==> !CallsMissing(target, agents)
  {
    if target == [] {
    } else {
      forall e ensures e in target <==> e in AllSteps(circuits) {
        assert e in target <==> e in multiset(target);
        assert e in AllSteps(circuits) <==> e in multiset(AllSteps(circuits));
      }
      if e :| e in target && e.1 !in agents {
        AllStepsMembers(circuits, e);
        var c :| c in circuits && e in Steps(c);
        var i :| 0 <= i < |Steps(c)| && Steps(c)[i] == e;
        assert c[i + 1] !in agents;
      }
      if c :| c in circuits && !Callable(c, agents) {
        var i :| 0 < i < |c| && c[i] !in agents;
        var e := Steps(c)[i - 1];
        assert e == (c[i - 1], c[i]);
        AllStepsMembers(circuits, e);
        assert e in target;
      }
    }
  }

  /** Lines 213-233: one transport's circuits, compiled. */
  method OneTransport(sdks: seq<string>, parsed: Option<seq<(string, string)>>, transport: string,
                      agents: AgentTable, options: HopOptions)
    returns (r: Result<(seq<Instruction>, seq<string>)>, ghost tour: seq<seq<string>>)
    ensures r.Ok? <==> sdks != [] && Balanced(multiset(Target(sdks, parsed)))
                       && !CallsMissing(Target(sdks, parsed), agents)
    ensures r.Err? ==> r.error == Failure(sdks, Target(sdks, parsed))
    ensures r.Ok? ==> IsTraversal(sdks, sdks[0], Target(sdks, parsed), tour)
    ensures r.Ok? ==> Built(Legs(transport, tour), agents, options, r.value.0, r.value.1)
  {
    tour := [];
    if sdks == [] {
      return Err(IndexError), tour;
    }
    var t := EulerTraversal(sdks[0], sdks, parsed);
    if t.Err? {
      return Err(t.error), tour;
    }
    tour := t.value;
    TraversalCallable(sdks, sdks[0], Target(sdks, parsed), t.value, agents);
    r := CompileLegs(t.value, transport, agents, options);
  }

  /** Lines 212-238: every transport in turn. */
  method BuildSuite(sdks: seq<string>, parsed: Option<seq<(string, string)>>, transports: seq<string>,
                    agents: AgentTable, options: HopOptions)
    returns (r: Result<(seq<Instruction>, seq<string>)>, ghost tours: seq<seq<seq<string>>>)
    ensures r.Ok? <==> transports == [] || (sdks != [] && Balanced(multiset(Target(sdks, parsed)))
                                            && !CallsMissing(Target(sdks, parsed), agents))
    ensures r.Err? ==> r.error == Failure(sdks, Target(sdks, parsed))
    ensures r.Ok? ==> |tours| == |transports| && AreTours(sdks, Target(sdks, parsed), tours)
    ensures r.Ok? ==> Built(Plan(transports, tours), agents, options, r.value.0, r.value.1)
  {
    tours := [];
    ghost var target := Target(sdks, parsed);
    var steps, tokens := [], [];
    for k := 0 to |transports|
      invariant |tours| == k && AreTours(sdks, target, tours)
      invariant k > 0 ==> sdks != [] && Balanced(multiset(target)) && !CallsMissing(target, agents)
      invariant Built(Plan(transports[..k], tours), agents, options, steps, tokens)
    {
      var leg, tour := OneTransport(sdks, parsed, transports[k], agents, options);
      if leg.Err? {
        return Err(leg.error), tours;
      }
      AreToursSnoc(sdks, target, tours, tour);
      PlanNext(transports, k, tours, tour);
      BuiltConcat(Plan(transports[..k], tours), Legs(transports[k], tour), agents, options,
                  steps, leg.value.0, tokens, leg.value.1);
      tours := tours + [tour];
      steps := steps + leg.value.0;
      tokens := tokens + leg.value.1;
    }
    assert transports[..|transports|] == transports;
    return Ok((steps, tokens)), tours;
  }

  /** `create_test_suite`. Unreadable or unbalanced edges are a `ValueError`, a
      hop to an agent that was never started a `RuntimeError`; with no agent at
      all there is no `sdks[0]`. */
  method CreateTestSuite(sdks: seq<string>, agents: AgentTable, edges: Option<seq<string>>,
                         protocols: Option<seq<string>>, options: HopOptions, setOrder: seq<string>)
    returns (r: Result<(Instruction, seq<string>)>, ghost tours: seq<seq<seq<string>>>)
    ensures r == Err(ValueError) <==>
      !Readable(sdks, edges)
      || (Transports(protocols, setOrder) != [] && !Balanced(multiset(ScenarioEdges(sdks, edges))))
    ensures r == Err(IndexError) <==>
      Readable(sdks, edges) && Transports(protocols, setOrder) != [] && sdks == []
    ensures r == Err(RuntimeError) <==>
      && Readable(sdks, edges) && Transports(protocols, setOrder) != []
      && Balanced(multiset(ScenarioEdges(sdks, edges))) && CallsMissing(ScenarioEdges(sdks, edges), agents)
    ensures r.Ok? ==> var transports := Transports(protocols, setOrder);
      && |tours| == |transports| && AreTours(sdks, ScenarioEdges(sdks, edges), tours)
      && r.value.0.SeriesOfSteps?
      && Built(Plan(transports, tours), agents, options, r.value.0.instructions, r.value.1)
  {
    var parsed: Option<seq<(string, string)>> := None;
    if edges.Some? && edges.value != [] {
      var p := ParseEdgeStrings(edges.value, sdks);
      if p.Err? {
        return Err(p.error), [];
      }
      parsed := Some(p.value);
    }
    assert parsed == ParsedEdges(sdks, edges);
    NothingToWalk(parsed);
    var suite;
    suite, tours := BuildSuite(sdks, parsed, Transports(protocols, setOrder), agents, options);
    if suite.Err? {
      return Err(suite.error), tours;
    }
    return Ok((SeriesOfSteps(suite.value.0), suite.value.1)), tours;
  }

  lemma {:induction false} PlanNext(transports: seq<string>, k: nat, tours: seq<seq<seq<string>>>,
                                    tour: seq<seq<string>>)
    requires k < |transports| && |tours| == k
    ensures Plan(transports[..k + 1], tours + [tour]) == Plan(transports[..k], tours) + Legs(transports[k], tour)
  {
    assert transports[..k + 1][..k] == transports[..k] && (tours + [tour])[..k] == tours;
  }

  /** Lines 219-233, for the circuits of one transport. */
  method CompileLegs(circuits: seq<seq<string>>, transport: string, agents: AgentTable, options: HopOptions)
    returns (r: Result<(seq<Instruction>, seq<string>)>)
    ensures r.Ok? <==> forall c :: c in circuits ==> Callable(c, agents)
    ensures r.Ok? ==> Built(Legs(transport, circuits), agents, options, r.value.0, r.value.1)
    ensures r.Err? ==> r.error == RuntimeError
  {
    var steps, tokens := [], [];
    for i := 0 to |circuits|
      invariant forall j :: 0 <= j < i ==> Callable(circuits[j], agents)
      invariant Built(Legs(transport, circuits[..i]), agents, options, steps, tokens)
    {
      var c := TraversalToInstruction(circuits[i], transport, agents, options);
      if c.Err? {
        assert circuits[i] in circuits;
        return Err(c.error);
      }
      BuiltNext(circuits, i, transport, agents, options, steps, tokens, c.value.0);
      steps := steps + [c.value.0];
      tokens := tokens + (c.value.1 + [Terminal(transport)]);
    }
    assert circuits[..|circuits|] == circuits;
    return Ok((steps, tokens));
  }

  lemma BuiltOne(leg: Leg, agents: AgentTable, options: HopOptions)
    requires Callable(leg.circuit, agents)
    ensures Built([leg], agents, options, [Compiled(leg.circuit, leg.transport, agents, options)], Chain(leg))
  {
    GatherOne(Chain, leg);
  }

  lemma {:induction false} BuiltNext(circuits: seq<seq<string>>, i: nat, transport: string, agents: AgentTable,
                                     options: HopOptions,
                                     steps: seq<Instruction>, tokens: seq<string>, inst: Instruction)
    requires i < |circuits| && Built(Legs(transport, circuits[..i]), agents, options, steps, tokens)
    requires Callable(circuits[i], agents) && inst == Compiled(circuits[i], transport, agents, options)
    ensures Built(Legs(transport, circuits[..i + 1]), agents, options, steps + [inst],
                  tokens + Chain(Leg(transport, circuits[i])))
  {
    var leg := Leg(transport, circuits[i]);
    assert Legs(transport, circuits[..i + 1]) == Legs(transport, circuits[..i]) + [leg];
    BuiltOne(leg, agents, options);
    BuiltConcat(Legs(transport, circuits[..i]), [leg], agents, options, steps, [inst], tokens, Chain(leg));
  }
}
