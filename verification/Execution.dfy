/** Running a whole suite at the first agent: its answer, its calls, and when
    those calls are the hops that its trace tokens name. */
module Execution {
  import opened Wrappers
  import opened Graphs
  import opened Text
  import opened Sequences
  import opened Traversal
  import opened EdgeStrings
  import opened Instructions
  import opened Suite
  import opened Walked

  function LegAnswers(plan: seq<Leg>): (r: seq<string>)
    ensures |r| == |plan|
    ensures forall i {:trigger r[i]} :: 0 <= i < |r| ==> r[i] == Answer(plan[i].circuit, plan[i].transport)
  {
    seq(|plan|, i requires 0 <= i < |plan| => Answer(plan[i].circuit, plan[i].transport))
  }

  function LegCalls(root: string, options: HopOptions): Leg -> seq<Call> {
    (leg: Leg) => CallsOf(root, leg.circuit, leg.transport, options)
  }

  function PlanCalls(root: string, plan: seq<Leg>, options: HopOptions): seq<Call> {
    Gather(LegCalls(root, options), plan)
  }

  /** Running the compiled legs in turn answers each leg and makes its calls. */
  lemma {:induction false} LegsMeaning(plan: seq<Leg>, agents: AgentTable, options: HopOptions, root: string)
    requires AllCallable(plan, agents) && DistinctPorts(agents)
    ensures ExecuteAll(agents, root, CompiledLegs(plan, agents, options))
         == Answered(LegAnswers(plan), PlanCalls(root, plan, options))
  {
    var insts := CompiledLegs(plan, agents, options);
    if plan == [] {
      assert insts == [] && LegAnswers(plan) == [];
    } else {
      var leg, rest := plan[0], plan[1..];
      LegsCons(plan, agents, options);
      LegsMeaning(rest, agents, options, root);
      CompilationMeaning(leg.circuit, leg.transport, agents, options, root);
      PlanCallsCons(root, plan, options);
      ExecuteCons(agents, root, insts);
    }
  }

  lemma LegsCons(plan: seq<Leg>, agents: AgentTable, options: HopOptions)
    requires plan != [] && AllCallable(plan, agents)
    ensures AllCallable(plan[1..], agents) && Callable(plan[0].circuit, agents)
    ensures CompiledLegs(plan, agents, options)[1..] == CompiledLegs(plan[1..], agents, options)
    ensures LegAnswers(plan) == [Answer(plan[0].circuit, plan[0].transport)] + LegAnswers(plan[1..])
  {
    assert CompiledLegs(plan, agents, options)[1..] == CompiledLegs(plan[1..], agents, options);
    assert LegAnswers(plan) == [Answer(plan[0].circuit, plan[0].transport)] + LegAnswers(plan[1..]);
  }

  lemma ExecuteCons(agents: AgentTable, agent: string, insts: seq<Instruction>)
    requires insts != []
    requires Execute(agents, agent, insts[0]).Answered? && ExecuteAll(agents, agent, insts[1..]).Answered?
    ensures ExecuteAll(agents, agent, insts)
         == Answered(Execute(agents, agent, insts[0]).answers + ExecuteAll(agents, agent, insts[1..]).answers,
                     Execute(agents, agent, insts[0]).calls + ExecuteAll(agents, agent, insts[1..]).calls)
  {
  }

  lemma {:induction false} PlanCallsCons(root: string, plan: seq<Leg>, options: HopOptions)
    requires plan != []
    ensures PlanCalls(root, plan, options)
         == CallsOf(root, plan[0].circuit, plan[0].transport, options) + PlanCalls(root, plan[1..], options)
  {
    assert plan == [plan[0]] + plan[1..];
    GatherConcat(LegCalls(root, options), [plan[0]], plan[1..]);
    GatherOne(LegCalls(root, options), plan[0]);
  }

  /** The suite's instruction answers every leg, one after the other. */
  lemma {:induction false} SuiteMeaning(plan: seq<Leg>, agents: AgentTable, options: HopOptions, root: string)
    requires AllCallable(plan, agents) && DistinctPorts(agents)
    ensures Execute(agents, root, SeriesOfSteps(CompiledLegs(plan, agents, options)))
         == Answered([Join(LegAnswers(plan), "\n")], PlanCalls(root, plan, options))
  {
    LegsMeaning(plan, agents, options, root);
  }

  /** Every call that running the suite makes, at any depth, asks for the scenario's
      behaviour and streams as it says; every response holds its task exactly for
      `resubscribe`. */
  lemma SuiteTold(plan: seq<Leg>, agents: AgentTable, options: HopOptions, root: string)
    requires AllCallable(plan, agents) && DistinctPorts(agents)
    ensures Told(SeriesOfSteps(CompiledLegs(plan, agents, options)), options)
    ensures forall c :: c in PlanCalls(root, plan, options) ==>
      Asked(c.behavior, options) && c.streaming == options.streaming
  {
    var insts := CompiledLegs(plan, agents, options);
    forall i | 0 <= i < |insts| ensures Told(insts[i], options) {
      CompiledTold(plan[i].circuit, plan[i].transport, agents, options);
    }
    SuiteMeaning(plan, agents, options, root);
    ToldIsDone(agents, root, SeriesOfSteps(insts), options);
  }

  // ------------------------------------------------ calls made and hops named

  /** Some call goes from `h.0` to `h.1` over `h.2`. */
  ghost predicate Exercised(calls: seq<Call>, h: Hop) {
    exists c :: c in calls && (c.caller, c.callee, c.transport) == h
  }

  /** Hop `i` of a leg when `root` runs it. */
  ghost predicate HopAt(root: string, leg: Leg, i: int, h: Hop) {
    && 0 <= i < |leg.circuit| - 1
    && h == (if i == 0 then root else leg.circuit[i], leg.circuit[i + 1], leg.transport)
  }

  lemma LegExercises(root: string, leg: Leg, options: HopOptions, h: Hop)
    ensures Exercised(LegCalls(root, options)(leg), h) <==> exists i :: HopAt(root, leg, i, h)
  {
    var calls := CallsOf(root, leg.circuit, leg.transport, options);
    if c :| c in calls && (c.caller, c.callee, c.transport) == h {
      var i :| 0 <= i < |calls| && calls[i] == c;
      CallsAt(root, leg.circuit, leg.transport, options, i);
      assert HopAt(root, leg, i, h);
    }
    if i :| HopAt(root, leg, i, h) {
      CallsAt(root, leg.circuit, leg.transport, options, i);
      assert calls[i] in calls;
    }
  }

  lemma PlanExercises(root: string, plan: seq<Leg>, options: HopOptions, h: Hop)
    ensures Exercised(PlanCalls(root, plan, options), h) <==>
      exists leg :: leg in plan && Exercised(LegCalls(root, options)(leg), h)
  {
    if c :| c in PlanCalls(root, plan, options) && (c.caller, c.callee, c.transport) == h {
      GatherMembers(LegCalls(root, options), plan, c);
    }
    if leg :| leg in plan && Exercised(LegCalls(root, options)(leg), h) {
      var c :| c in LegCalls(root, options)(leg) && (c.caller, c.callee, c.transport) == h;
      GatherMembers(LegCalls(root, options), plan, c);
    }
  }

  /** A leg run where it starts makes exactly its own hops. */
  lemma LegFromStart(root: string, leg: Leg, options: HopOptions, h: Hop)
    requires |leg.circuit| >= 2 ==> leg.circuit[0] == root
    ensures Exercised(LegCalls(root, options)(leg), h) <==> h in LegHops(leg)
  {
    LegExercises(root, leg, options, h);
    if h in LegHops(leg) {
      var i :| 0 <= i < |LegHops(leg)| && LegHops(leg)[i] == h;
      assert HopAt(root, leg, i, h);
    }
    if i :| HopAt(root, leg, i, h) {
      assert LegHops(leg)[i] == h;
    }
  }

  // ------------------------------------------------------------ the criterion

  /** Every edge is connected to the first agent. */
  ghost predicate RootedEdges(target: seq<(string, string)>, root: string) {
    forall e :: e in target ==> Connected(multiset(target), root, e.0)
  }

  /** A traversal of a graph connected to the root is one circuit from the root. */
  lemma RootedCircuits(sdks: seq<string>, root: string, target: seq<(string, string)>, circuits: seq<seq<string>>,
                       c: seq<string>)
    requires IsTraversal(sdks, root, target, circuits) && RootedEdges(target, root) && c in circuits
    ensures |c| >= 2 ==> c[0] == root
  {
    if target != [] && |c| >= 2 {
      var i :| 0 <= i < |circuits| && circuits[i] == c;
      StepInTarget(target, circuits, c, 0);
      SameCircuit(target, circuits, i, c[0], root);
    }
  }

  lemma StepInTarget(target: seq<(string, string)>, circuits: seq<seq<string>>, c: seq<string>, k: nat)
    requires IsTour(target, circuits) && c in circuits && k + 1 < |c|
    ensures (c[k], c[k + 1]) in target
  {
    var e := Graphs.Steps(c)[k];
    AllStepsMembers(circuits, e);
    assert e in multiset(AllSteps(circuits));
    assert e in multiset(target);
  }

  /** Otherwise, some circuit avoids the root. */
  lemma UnrootedCircuit(target: seq<(string, string)>, root: string, circuits: seq<seq<string>>)
    returns (c: seq<string>)
    requires IsTour(target, circuits) && !RootedEdges(target, root)
    ensures c in circuits && |c| >= 2 && root !in c && (root, c[1]) !in target
  {
    var e :| e in target && !Connected(multiset(target), root, e.0);
    assert e in multiset(target) && e in multiset(AllSteps(circuits));
    AllStepsMembers(circuits, e);
    c :| c in circuits && e in Graphs.Steps(c);
    var k :| 0 <= k < |Graphs.Steps(c)| && Graphs.Steps(c)[k] == e;
    assert c[k] == e.0;
    var i :| 0 <= i < |circuits| && circuits[i] == c;
    SameCircuit(target, circuits, i, e.0, root);
    assert Closed(multiset(target), Nodes(c));
    assert c[1] in Nodes(c) && root !in Nodes(c);
    assert (root, c[1]) !in multiset(target);
  }

  /** The calls made by running the plan at the root are exactly the hops its
      tokens name if and only if every edge is connected to the root. A circuit
      of another component starts with a call that the root makes in place of
      the agent the token names. */
  lemma {:induction false} CallsAreHopsIffRooted(sdks: seq<string>, target: seq<(string, string)>,
                                                 transports: seq<string>,
                                                 tours: seq<seq<seq<string>>>, options: HopOptions)
    requires sdks != [] && |tours| == |transports| > 0 && AreTours(sdks, target, tours)
    ensures (forall h :: Exercised(PlanCalls(sdks[0], Plan(transports, tours), options), h)
                         <==> h in PlanHops(Plan(transports, tours)))
            <==> RootedEdges(target, sdks[0])
  {
    var root, plan := sdks[0], Plan(transports, tours);
    if RootedEdges(target, root) {
      forall leg | leg in plan ensures |leg.circuit| >= 2 ==> leg.circuit[0] == root {
        var k := PlanLeg(transports, tours, leg);
        assert IsTraversal(sdks, sdks[0], target, tours[k]);
        RootedCircuits(sdks, root, target, tours[k], leg.circuit);
      }
      forall h ensures Exercised(PlanCalls(root, plan, options), h) <==> h in PlanHops(plan) {
        PlanExercises(root, plan, options, h);
        GatherMembers(LegHops, plan, h);
        forall leg | leg in plan ensures Exercised(LegCalls(root, options)(leg), h) <==> h in LegHops(leg) {
          LegFromStart(root, leg, options, h);
        }
      }
    } else {
      var h := Misattributed(sdks, target, transports, tours, options);
    }
  }

  /** Every leg of a plan is one of its tours' circuits. */
  lemma {:induction false} PlanLeg(transports: seq<string>, tours: seq<seq<seq<string>>>, leg: Leg) returns (k: nat)
    requires |tours| == |transports| && leg in Plan(transports, tours)
    ensures k < |tours| && leg.circuit in tours[k]
  {
    var n := |transports| - 1;
    if leg in Legs(transports[n], tours[n]) {
      var i :| 0 <= i < |tours[n]| && Legs(transports[n], tours[n])[i] == leg;
      k := n;
    } else {
      k := PlanLeg(transports[..n], tours[..n], leg);
    }
  }

  lemma {:induction false} LegPlanned(transports: seq<string>, tours: seq<seq<seq<string>>>, k: nat, c: seq<string>)
    requires |tours| == |transports| && k < |tours| && c in tours[k]
    ensures Leg(transports[k], c) in Plan(transports, tours)
  {
    var n := |transports| - 1;
    if k == n {
      var i :| 0 <= i < |tours[n]| && tours[n][i] == c;
      assert Legs(transports[n], tours[n])[i] == Leg(transports[k], c);
    } else {
      LegPlanned(transports[..n], tours[..n], k, c);
    }
  }

  /** The call that gives an unconnected component away. */
  lemma Misattributed(sdks: seq<string>, target: seq<(string, string)>, transports: seq<string>,
                      tours: seq<seq<seq<string>>>, options: HopOptions) returns (h: Hop)
    requires sdks != [] && |tours| == |transports| > 0 && AreTours(sdks, target, tours)
    requires !RootedEdges(target, sdks[0])
    ensures Exercised(PlanCalls(sdks[0], Plan(transports, tours), options), h)
    ensures h !in PlanHops(Plan(transports, tours))
  {
    var root := sdks[0];
    assert IsTraversal(sdks, sdks[0], target, tours[0]);
    var c := UnrootedCircuit(target, root, tours[0]);
    LegPlanned(transports, tours, 0, c);
    h := (root, c[1], transports[0]);
    assert HopAt(root, Leg(transports[0], c), 0, h);
    LegExercises(root, Leg(transports[0], c), options, h);
    PlanExercises(root, Plan(transports, tours), options, h);
    WalkedSet(sdks, target, transports, tours, h);
  }

  /** A scenario that the engine accepts and that is not rooted: the first agent
      beside a round trip of the other two. */
  lemma UnrootedScenario()
    ensures var sdks, edges := ["r", "a", "b"], Some(["1->2", "2->1"]);
      && Readable(sdks, edges) && Balanced(multiset(ScenarioEdges(sdks, edges)))
      && ScenarioEdges(sdks, edges) == [("a", "b"), ("b", "a")]
      && !RootedEdges(ScenarioEdges(sdks, edges), sdks[0])
  {
    var sdks := ["r", "a", "b"];
    SmallEdges();
    RoundTripNamed(sdks, 1, 2, "1->2", "2->1");
    ExplicitEdges(sdks, ["1->2", "2->1"]);
    RoundTripBalanced("a", "b");
    BesideRoundTrip("r", "a", "b");
  }

  lemma BesideRoundTrip(root: string, a: string, b: string)
    requires root != a && root != b
    ensures !RootedEdges([(a, b), (b, a)], root)
  {
    var target := [(a, b), (b, a)];
    assert target[0] in target && Closed(multiset(target), {root});
    if Connected(multiset(target), root, a) {
      ClosedHoldsConnected(multiset(target), {root}, root, a);
    }
  }
}
