/** Comparing the coverage of two scenario sets
    (scripts/scenarios_diff.py, lines 162-212). */
module Comparison {
  import opened Wrappers
  import opened Graphs
  import opened Text
  import opened Sequences
  import opened Traversal
  import opened EdgeStrings
  import opened EdgeReading
  import opened Suite
  import opened Walked
  import opened Coverage

  ghost predicate AllCountable(scenarios: seq<Scenario>) {
    forall s :: s in scenarios ==> s.Countable()
  }

  /** Some scenario is said to exercise `a`. */
  ghost predicate Covered(scenarios: seq<Scenario>, a: Atom)
    requires AllCountable(scenarios)
  {
    exists s :: s in scenarios && StaticAtom(s, a)
  }

  predicate Excused(explain: Atom -> Option<string>, a: Atom) {
    explain(a).Some? && explain(a).value != ""
  }

  lemma OneMoreScenario(scenarios: seq<Scenario>, s: Scenario)
    ensures AllCountable(scenarios + [s]) <==> AllCountable(scenarios) && s.Countable()
    ensures AllCountable(scenarios + [s]) ==>
      forall a :: Covered(scenarios + [s], a) <==> Covered(scenarios, a) || StaticAtom(s, a)
  {
    assert forall x :: x in scenarios + [s] <==> x in scenarios || x == s;
  }

  lemma PartIsCountable(scenarios: seq<Scenario>, i: nat)
    requires i < |scenarios|
    ensures AllCountable(scenarios) ==> scenarios[i].Countable()
  {
    assert scenarios[i] in scenarios;
  }

  /** `set().union(*(atoms(s) for s in scenarios))`; `None` where it raises. */
  method AllAtoms(scenarios: seq<Scenario>) returns (r: Option<set<Atom>>)
    ensures r.Some? <==> AllCountable(scenarios)
    ensures r.Some? ==> forall a :: a in r.value <==> Covered(scenarios, a)
  {
    var all := {};
    for i := 0 to |scenarios|
      invariant AllCountable(scenarios[..i])
      invariant forall a :: a in all <==> Covered(scenarios[..i], a)
    {
      var more := Atoms(scenarios[i]);
      PartIsCountable(scenarios, i);
      if more.None? {
        return None;
      }
      TakeNext(scenarios, i);
      OneMoreScenario(scenarios[..i], scenarios[i]);
      all := all + more.value;
    }
    assert scenarios[..|scenarios|] == scenarios;
    return Some(all);
  }

  datatype Verdict = Verdict(code: nat, explained: map<Atom, string>, unexplained: set<Atom>)

  /** The unexplained atoms are those that are only in the old set and have no reason. */
  ghost predicate Unexplained(legacy: seq<Scenario>, shared: seq<Scenario>, explain: Atom -> Option<string>,
                              unexplained: set<Atom>)
    requires AllCountable(legacy) && AllCountable(shared)
  {
    forall a :: a in unexplained <==> Covered(legacy, a) && !Covered(shared, a) && !Excused(explain, a)
  }

  /** The comparison of `main`: what is missing is split into what has a reason and
      what has none, and only the latter fails. `None` where an edge is unreadable. */
  method Compare(legacy: seq<Scenario>, shared: seq<Scenario>, explain: Atom -> Option<string>)
    returns (r: Option<Verdict>)
    ensures r.Some? <==> AllCountable(legacy) && AllCountable(shared)
    ensures r.Some? ==> Unexplained(legacy, shared, explain, r.value.unexplained)
    ensures r.Some? ==> forall a ::
      a in r.value.explained <==> Covered(legacy, a) && !Covered(shared, a) && Excused(explain, a)
    ensures r.Some? ==> forall a :: a in r.value.explained ==>
      explain(a) == Some(r.value.explained[a]) && r.value.explained[a] != ""
    ensures r.Some? ==> forall a :: a in r.value.unexplained ==> explain(a) == None || explain(a) == Some("")
    ensures r.Some? ==> r.value.code == if r.value.unexplained == {} then 0 else 1
  {
    var old_ := AllAtoms(legacy);
    if old_.None? {
      return None;
    }
    var new_ := AllAtoms(shared);
    if new_.None? {
      return None;
    }
    var explained, unexplained := Split(old_.value - new_.value, explain);
    return Some(Verdict(if unexplained == {} then 0 else 1, explained, unexplained));
  }

  /** Lines 172-176. */
  method Split(missing: set<Atom>, explain: Atom -> Option<string>)
    returns (explained: map<Atom, string>, unexplained: set<Atom>)
    ensures forall a :: a in unexplained <==> a in missing && !Excused(explain, a)
    ensures forall a :: a in explained <==> a in missing && Excused(explain, a)
    ensures forall a :: a in explained ==> explain(a) == Some(explained[a])
  {
    explained, unexplained := map[], {};
    var left := missing;
    while left != {}
      invariant left <= missing
      invariant forall a :: a in unexplained <==> a in missing && a !in left && !Excused(explain, a)
      invariant forall a :: a in explained <==> a in missing && a !in left && Excused(explain, a)
      invariant forall a :: a in explained ==> explain(a) == Some(explained[a])
      decreases left
    {
      var a :| a in left;
      var why := explain(a);
      if why.Some? && why.value != "" {
        explained := explained[a := why.value];
      } else {
        unexplained := unexplained + {a};
      }
      left := left - {a};
    }
  }

  // ------------------------------------------------------- what passing means

  /** Some scenario's suite walks the hop of `a`, behaving as it says. */
  ghost predicate Walks(scenarios: seq<Scenario>, setOrder: seq<string>, a: Atom) {
    exists s :: s in scenarios && s.behavior == a.3 && s.streaming == a.4 && EngineWalks(s, setOrder, (a.0, a.1, a.2))
  }

  ghost predicate AllSameReading(scenarios: seq<Scenario>) {
    forall s :: s in scenarios ==> SameReading(s)
  }

  ghost predicate AllWalkable(scenarios: seq<Scenario>) {
    forall s :: s in scenarios ==> s.Walkable()
  }

  /** Every hop that the old suites walk is walked by a new one or has a reason. */
  ghost predicate Retained(legacy: seq<Scenario>, shared: seq<Scenario>, setOrder: seq<string>,
                           explain: Atom -> Option<string>)
  {
    forall a :: Walks(legacy, setOrder, a) ==> Walks(shared, setOrder, a) || Excused(explain, a)
  }

  /** What is walked is counted, and what is counted is walked if it can be. */
  lemma CoveredIsWalked(scenarios: seq<Scenario>, setOrder: seq<string>, a: Atom)
    requires AllCountable(scenarios) && AllSameReading(scenarios)
    requires multiset(setOrder) == multiset(TRANSPORT_ORDER)
    ensures Walks(scenarios, setOrder, a) ==> Covered(scenarios, a)
    ensures AllWalkable(scenarios) && Covered(scenarios, a) ==> Walks(scenarios, setOrder, a)
  {
    var h := (a.0, a.1, a.2);
    SameOrder(setOrder);
    forall s | s in scenarios && s.Walkable() ensures StaticHop(s, h) <==> EngineWalks(s, setOrder, h) {
      SameReadingSuffices(s, setOrder, h);
    }
    if s :| s in scenarios && s.behavior == a.3 && s.streaming == a.4 && EngineWalks(s, setOrder, h) {
      assert StaticAtom(s, a);
    }
  }

  /** Two ids and both arrows between them. */
  lemma RoundTrip(sdks: seq<string>, u: nat, v: nat, there: string, back: string)
    requires u < |sdks| && v < |sdks| && sdks[u] != sdks[v]
    requires there == Decimal(u) + "->" + Decimal(v) && back == Decimal(v) + "->" + Decimal(u)
    ensures Readable(sdks, Some([there, back])) && Counted(sdks, Some([there, back]))
    ensures StaticPairs(sdks, Some([there, back])) == {(sdks[u], sdks[v]), (sdks[v], sdks[u])}
    ensures ScenarioEdges(sdks, Some([there, back])) == [(sdks[u], sdks[v]), (sdks[v], sdks[u])]
    ensures Balanced(multiset(ScenarioEdges(sdks, Some([there, back]))))
  {
    RoundTripNamed(sdks, u, v, there, back);
    StaticOfReadable(sdks, Some([there, back]));
    ExplicitEdges(sdks, [there, back]);
    RoundTripBalanced(sdks[u], sdks[v]);
  }

  /** `there` and `back` are counted, together, as `both` is; only `both` is walkable. */
  ghost predicate IsSplit(both: Scenario, there: Scenario, back: Scenario) {
    && both.Countable() && there.Countable() && back.Countable()
    && SameReading(both) && SameReading(there) && SameReading(back)
    && both.Walkable() && !there.Walkable() && !back.Walkable()
    && both.behavior == there.behavior == back.behavior && both.streaming == there.streaming == back.streaming
    && both.protocols == there.protocols == back.protocols
    && StaticPairs(both.sdks, both.edges) == StaticPairs(there.sdks, there.edges) + StaticPairs(back.sdks, back.edges)
  }

  lemma SplitCovers(both: Scenario, there: Scenario, back: Scenario, a: Atom)
    requires IsSplit(both, there, back)
    ensures Covered([both], a) ==> Covered([there, back], a)
  {
    assert there in [there, back] && back in [there, back];
    if StaticAtom(both, a) {
      assert StaticAtom(there, a) || StaticAtom(back, a);
    }
  }

  lemma UnwalkedRetainNothing(both: Scenario, shared: seq<Scenario>, setOrder: seq<string>,
                              explain: Atom -> Option<string>, h: Hop)
    requires EngineWalks(both, setOrder, h) && forall s :: s in shared ==> !s.Walkable()
    requires forall a :: !Excused(explain, a)
    ensures forall a :: !Walks(shared, setOrder, a)
    ensures !Retained([both], shared, setOrder, explain)
  {
    var a := (h.0, h.1, h.2, both.behavior, both.streaming);
    assert both in [both] && (a.0, a.1, a.2) == h;
    assert Walks([both], setOrder, a);
  }

  lemma RoundTripScenario(s: Scenario, u: nat, v: nat, there: string, back: string)
    requires u < |s.sdks| && v < |s.sdks| && s.sdks[u] != s.sdks[v] && s.edges == Some([there, back])
    requires there == Decimal(u) + "->" + Decimal(v) && back == Decimal(v) + "->" + Decimal(u)
    requires s.protocols.Some? && s.protocols.value != []
    ensures s.Countable() && SameReading(s) && s.Walkable()
    ensures StaticPairs(s.sdks, s.edges) == {(s.sdks[u], s.sdks[v]), (s.sdks[v], s.sdks[u])}
    ensures s.Target() == [(s.sdks[u], s.sdks[v]), (s.sdks[v], s.sdks[u])]
  {
    RoundTrip(s.sdks, u, v, there, back);
  }

  lemma IsSplitOf(both: Scenario, there: Scenario, back: Scenario, ab: string, ba: string)
    requires both.sdks == there.sdks == back.sdks && |both.sdks| == 2 && both.sdks[0] != both.sdks[1]
    requires ab == Decimal(0) + "->" + Decimal(1) && ba == Decimal(1) + "->" + Decimal(0)
    requires both.edges == Some([ab, ba]) && there.edges == Some([ab]) && back.edges == Some([ba])
    requires both.behavior == there.behavior == back.behavior && both.streaming == there.streaming == back.streaming
    requires both.protocols == there.protocols == back.protocols && both.protocols.Some? && both.protocols.value != []
    ensures IsSplit(both, there, back)
    ensures both.Target() == [(both.sdks[0], both.sdks[1]), (both.sdks[1], both.sdks[0])]
  {
    RoundTripScenario(both, 0, 1, ab, ba);
    OneWayScenario(there, 0, 1, ab);
    OneWayScenario(back, 1, 0, ba);
  }

  /** `a <-> b` in one scenario, `a -> b` and `b -> a` in two. */
  lemma SplitRoundTrip(setOrder: seq<string>) returns (both: Scenario, there: Scenario, back: Scenario)
    ensures IsSplit(both, there, back) && EngineWalks(both, setOrder, ("a", "b", "jsonrpc"))
  {
    var over := ["jsonrpc"];
    var ab, ba := Decimal(0) + "->" + Decimal(1), Decimal(1) + "->" + Decimal(0);
    both := Scenario(["a", "b"], Some([ab, ba]), Some(over), "send_message", false);
    there, back := both.(edges := Some([ab])), both.(edges := Some([ba]));
    IsSplitOf(both, there, back, ab, ba);
    assert over[0] in over && both.Target()[0] in both.Target();
  }

  /** New scenarios that cannot be walked pass and retain nothing. */
  lemma SplitRoundTripPasses(setOrder: seq<string>, explain: Atom -> Option<string>)
    returns (both: Scenario, there: Scenario, back: Scenario)
    requires forall a :: !Excused(explain, a)
    ensures IsSplit(both, there, back) && AllCountable([both]) && AllCountable([there, back])
    ensures Unexplained([both], [there, back], explain, {})
    ensures forall a :: !Walks([there, back], setOrder, a)
    ensures !Retained([both], [there, back], setOrder, explain)
  {
    both, there, back := SplitRoundTrip(setOrder);
    forall a ensures Covered([both], a) ==> Covered([there, back], a) {
      SplitCovers(both, there, back, a);
    }
    UnwalkedRetainNothing(both, [there, back], setOrder, explain, ("a", "b", "jsonrpc"));
  }
}
