/** When passing the comparison means that nothing walked is lost
    (scripts/scenarios_diff.py, lines 162-212). */
module Retention {
  import opened Wrappers
  import opened Graphs
  import opened Sequences
  import opened Grouping
  import opened EdgeStrings
  import opened EdgeReading
  import opened Suite
  import opened Traversal
  import opened Coverage
  import opened Comparison

  /** Every hop said to be exercised before is said to be now, or has a reason. */
  ghost predicate Passes(legacy: seq<Scenario>, shared: seq<Scenario>, explain: Atom -> Option<string>)
    requires AllCountable(legacy) && AllCountable(shared)
  {
    forall a :: Covered(legacy, a) ==> Granted(shared, explain)(a)
  }

  /** What the comparison does not ask about. */
  ghost function Granted(shared: seq<Scenario>, explain: Atom -> Option<string>): Atom -> bool
    requires AllCountable(shared)
  {
    (a: Atom) => Covered(shared, a) || Excused(explain, a)
  }

  ghost function Kept(shared: seq<Scenario>, setOrder: seq<string>, explain: Atom -> Option<string>): Atom -> bool {
    (a: Atom) => Walks(shared, setOrder, a) || Excused(explain, a)
  }

  /** Transport, behaviour, streaming. */
  type Kind = (string, string, bool)

  function StepAtom(p: seq<string>, i: nat, k: Kind): Atom
    requires i + 1 < |p|
  {
    (p[i], p[i + 1], k.0, k.1, k.2)
  }

  ghost predicate Along(holds: Atom -> bool, p: seq<string>, k: Kind) {
    forall i {:trigger StepAtom(p, i, k)} :: 0 <= i < |p| - 1 ==> holds(StepAtom(p, i, k))
  }

  /** A closed walk. */
  predicate IsLoop(p: seq<string>) {
    |p| > 1 && p[0] == p[|p| - 1]
  }

  /** Every closed walk of hops that are granted consists of hops that are kept. */
  ghost predicate LoopsKept(shared: seq<Scenario>, setOrder: seq<string>, explain: Atom -> Option<string>)
    requires AllCountable(shared)
  {
    forall p, k :: IsLoop(p) && Along(Granted(shared, explain), p, k) ==> Along(Kept(shared, setOrder, explain), p, k)
  }

  /** An old set that both can read and read alike. */
  ghost predicate Fair(legacy: seq<Scenario>) {
    AllCountable(legacy) && AllSameReading(legacy)
  }

  // ------------------------------------------------- kept loops are sufficient

  /** Every edge of a balanced graph lies on a closed walk. */
  lemma EdgeOnLoop(g: multiset<(string, string)>, e: (string, string)) returns (p: seq<string>)
    requires Balanced(g) && e in g
    ensures IsLoop(p) && IsWalk(g, p) && p[0] == e.0 && p[1] == e.1
  {
    ConnectedRefl(g, e.1);
    ConnectedStep(g, e.1, e.1, e.0);
    BalancedConnectedReaches(g, e.1, e.0);
    var back :| IsWalk(g, back) && back[0] == e.1 && back[|back| - 1] == e.0;
    p := [e.0] + back;
    forall i | 0 <= i < |p| - 1 ensures (p[i], p[i + 1]) in g {
      if i > 0 {
        assert (back[i - 1], back[i - 1 + 1]) in g;
      }
    }
  }

  lemma WalkIsGranted(legacy: seq<Scenario>, shared: seq<Scenario>, setOrder: seq<string>,
                      explain: Atom -> Option<string>, s: Scenario, p: seq<string>, t: string)
    requires Fair(legacy) && AllCountable(shared) && Passes(legacy, shared, explain)
    requires multiset(setOrder) == multiset(TRANSPORT_ORDER)
    requires s in legacy && s.Walkable() && IsWalk(multiset(s.Target()), p) && t in Transports(s.protocols, setOrder)
    ensures Along(Granted(shared, explain), p, (t, s.behavior, s.streaming))
  {
    var k := (t, s.behavior, s.streaming);
    forall i | 0 <= i < |p| - 1 ensures Granted(shared, explain)(StepAtom(p, i, k)) {
      assert EngineWalks(s, setOrder, (p[i], p[i + 1], t));
      assert Walks(legacy, setOrder, StepAtom(p, i, k));
      CoveredIsWalked(legacy, setOrder, StepAtom(p, i, k));
    }
  }

  lemma LoopsSuffice(legacy: seq<Scenario>, shared: seq<Scenario>, setOrder: seq<string>,
                     explain: Atom -> Option<string>)
    requires Fair(legacy) && AllCountable(shared) && Passes(legacy, shared, explain)
    requires multiset(setOrder) == multiset(TRANSPORT_ORDER) && LoopsKept(shared, setOrder, explain)
    ensures Retained(legacy, shared, setOrder, explain)
  {
    forall a | Walks(legacy, setOrder, a) ensures Kept(shared, setOrder, explain)(a) {
      var s :| s in legacy && s.behavior == a.3 && s.streaming == a.4 && EngineWalks(s, setOrder, (a.0, a.1, a.2));
      var p := EdgeOnLoop(multiset(s.Target()), (a.0, a.1));
      WalkIsGranted(legacy, shared, setOrder, explain, s, p, a.2);
      assert StepAtom(p, 0, (a.2, a.3, a.4)) == a;
    }
  }

  // --------------------------------------------------- and they are necessary

  function EdgesFor(steps: seq<(string, string)>, ids: seq<string>): seq<string> {
    if steps == [] then []
    else
      var n := |steps| - 1;
      EdgesFor(steps[..n], ids) + Rewritten(steps[n].0, steps[n].1, ids)
  }

  lemma {:induction false} EdgesForName(steps: seq<(string, string)>, ids: seq<string>)
    requires forall i :: 0 <= i < |steps| ==> steps[i].0 in ids && steps[i].1 in ids
    ensures AllParse(EdgesFor(steps, ids), |ids|) && Named(EdgesFor(steps, ids), ids) == steps
  {
    if steps != [] {
      var n := |steps| - 1;
      var last := steps[n];
      assert steps[..n] + [last] == steps;
      EdgesForName(steps[..n], ids);
      NamedRewritten(EdgesFor(steps[..n], ids), last.0, last.1, ids);
    }
  }

  lemma LoopBalanced(p: seq<string>)
    requires IsLoop(p)
    ensures Balanced(multiset(Steps(p)))
  {
    forall u ensures Out(multiset(Steps(p)), u) == In(multiset(Steps(p)), u) {
      WalkBalance(p, u);
    }
  }

  /** The agents on a walk, each once. */
  lemma AgentsOf(p: seq<string>) returns (ids: seq<string>)
    ensures NoDuplicates(ids) && forall i :: 0 <= i < |p| ==> p[i] in ids
  {
    var id := (x: string) => x;
    ids := Keys(id, p);
    KeysExact(id, p, "");
    forall i | 0 <= i < |p| ensures p[i] in ids {
      KeysExact(id, p, p[i]);
      assert p[i] in p && id(p[i]) == p[i];
    }
  }

  /** `s` is a closed walk, over one transport. */
  ghost predicate IsLoopScenario(s: Scenario, p: seq<string>, k: Kind) {
    && IsLoop(p) && s.protocols == Some([k.0]) && s.behavior == k.1 && s.streaming == k.2
    && s.Countable() && SameReading(s) && s.Walkable() && s.Target() == Steps(p)
    && StaticPairs(s.sdks, s.edges) == PairsOf(Steps(p))
  }

  lemma LoopEdges(p: seq<string>, ids: seq<string>) returns (edges: seq<string>)
    requires |p| > 1 && forall i :: 0 <= i < |p| ==> p[i] in ids
    ensures edges != [] && Readable(ids, Some(edges)) && Counted(ids, Some(edges))
    ensures ScenarioEdges(ids, Some(edges)) == Steps(p) && StaticPairs(ids, Some(edges)) == PairsOf(Steps(p))
  {
    edges := EdgesFor(Steps(p), ids);
    EdgesForName(Steps(p), ids);
    ExplicitEdges(ids, edges);
    StaticOfReadable(ids, Some(edges));
  }

  lemma LoopScenario(p: seq<string>, k: Kind) returns (s: Scenario)
    requires IsLoop(p)
    ensures IsLoopScenario(s, p, k) && NoDuplicates(s.sdks)
  {
    var ids := AgentsOf(p);
    var edges := LoopEdges(p, ids);
    LoopBalanced(p);
    s := Scenario(ids, Some(edges), Some([k.0]), k.1, k.2);
  }

  lemma LoopIsStatic(s: Scenario, p: seq<string>, k: Kind, a: Atom) returns (i: nat)
    requires IsLoopScenario(s, p, k) && StaticAtom(s, a)
    ensures i + 1 < |p| && a == StepAtom(p, i, k)
  {
    i :| 0 <= i < |Steps(p)| && Steps(p)[i] == (a.0, a.1);
  }

  lemma LoopIsWalked(s: Scenario, p: seq<string>, k: Kind, setOrder: seq<string>, i: nat)
    requires IsLoopScenario(s, p, k) && i + 1 < |p|
    ensures Walks([s], setOrder, StepAtom(p, i, k))
  {
    assert Steps(p)[i] in s.Target() && [k.0][0] in [k.0] && s in [s];
    assert EngineWalks(s, setOrder, (p[i], p[i + 1], k.0));
  }

  /** A granted closed walk that is not kept makes an old set that passes and loses
      a hop: one walkable scenario of distinct agents. */
  lemma LostLoop(shared: seq<Scenario>, setOrder: seq<string>, explain: Atom -> Option<string>)
    returns (s: Scenario)
    requires AllCountable(shared) && !LoopsKept(shared, setOrder, explain)
    ensures NoDuplicates(s.sdks) && s.Walkable() && Fair([s])
    ensures Passes([s], shared, explain) && !Retained([s], shared, setOrder, explain)
  {
    var p, k :| IsLoop(p) && Along(Granted(shared, explain), p, k) && !Along(Kept(shared, setOrder, explain), p, k);
    s := LoopScenario(p, k);
    forall a | Covered([s], a) ensures Granted(shared, explain)(a) {
      var i := LoopIsStatic(s, p, k, a);
    }
    var i :| 0 <= i < |p| - 1 && !Kept(shared, setOrder, explain)(StepAtom(p, i, k));
    LoopIsWalked(s, p, k, setOrder, i);
  }

  /** Passing retains every walked hop, whatever the old set, exactly when every
      closed walk of granted hops is made of kept ones. */
  lemma PassRetainsIffLoopsKept(shared: seq<Scenario>, setOrder: seq<string>, explain: Atom -> Option<string>)
    requires AllCountable(shared) && multiset(setOrder) == multiset(TRANSPORT_ORDER)
    ensures (forall legacy | Fair(legacy) && Passes(legacy, shared, explain) ::
               Retained(legacy, shared, setOrder, explain))
            <==> LoopsKept(shared, setOrder, explain)
  {
    if LoopsKept(shared, setOrder, explain) {
      forall legacy | Fair(legacy) && Passes(legacy, shared, explain)
        ensures Retained(legacy, shared, setOrder, explain)
      {
        LoopsSuffice(legacy, shared, setOrder, explain);
      }
    } else {
      var s := LostLoop(shared, setOrder, explain);
      assert Fair([s]);
    }
  }

  /** `Fair` cannot be dropped: with an empty edge list, read as all pairs by the
      engine and as none by the calculator, an old set passes against anything. */
  lemma EmptyListPasses(a: Atom, setOrder: seq<string>) returns (s: Scenario)
    requires a.0 != a.1
    ensures s.Countable() && Walks([s], setOrder, a) && forall b :: !Covered([s], b)
  {
    s := Scenario([a.0, a.1], Some([]), Some([a.2]), a.3, a.4);
    CompleteBalanced(s.sdks);
    assert s.sdks[0] == a.0 && s.sdks[1] == a.1;
    CompleteMembers(s.sdks, (a.0, a.1));
    assert [a.2][0] in [a.2] && s in [s];
    assert EngineWalks(s, setOrder, (a.0, a.1, a.2));
  }

  /** New scenarios that can all be walked keep every loop. */
  lemma WalkableKeepsLoops(shared: seq<Scenario>, setOrder: seq<string>, explain: Atom -> Option<string>)
    requires Fair(shared) && AllWalkable(shared) && multiset(setOrder) == multiset(TRANSPORT_ORDER)
    ensures LoopsKept(shared, setOrder, explain)
  {
    forall a | Granted(shared, explain)(a) ensures Kept(shared, setOrder, explain)(a) {
      CoveredIsWalked(shared, setOrder, a);
    }
  }

  /** If the new scenarios can be walked, passing retains every hop; if the old ones
      can, retaining every hop passes. */
  lemma PassMeansRetained(legacy: seq<Scenario>, shared: seq<Scenario>, setOrder: seq<string>,
                          explain: Atom -> Option<string>, unexplained: set<Atom>)
    requires Fair(legacy) && Fair(shared) && multiset(setOrder) == multiset(TRANSPORT_ORDER)
    requires Unexplained(legacy, shared, explain, unexplained)
    ensures unexplained == {} <==> Passes(legacy, shared, explain)
    ensures AllWalkable(shared) && unexplained == {} ==> Retained(legacy, shared, setOrder, explain)
    ensures AllWalkable(legacy) && Retained(legacy, shared, setOrder, explain) ==> unexplained == {}
  {
    if Passes(legacy, shared, explain) && AllWalkable(shared) {
      WalkableKeepsLoops(shared, setOrder, explain);
      LoopsSuffice(legacy, shared, setOrder, explain);
    }
    if AllWalkable(legacy) && Retained(legacy, shared, setOrder, explain) {
      forall a | Covered(legacy, a) ensures Granted(shared, explain)(a) {
        CoveredIsWalked(legacy, setOrder, a);
        CoveredIsWalked(shared, setOrder, a);
      }
    }
  }
}
