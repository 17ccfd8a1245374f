/** The static coverage calculator (scripts/scenarios_diff.py, lines 59-80) and
    how far it agrees with what the engine walks. */
module Coverage {
  import opened Wrappers
  import opened Graphs
  import opened Text
  import opened Traversal
  import opened EdgeStrings
  import opened EdgeReading
  import opened Instructions
  import opened Suite
  import opened Walked
  import opened Execution

  datatype Scenario = Scenario(sdks: seq<string>, edges: Option<seq<string>>, protocols: Option<seq<string>>,
                               behavior: string, streaming: bool)
  {
    /** The calculator can read it. */
    predicate Countable() {
      Counted(sdks, edges)
    }

    /** The engine's edges for it. */
    function Target(): seq<(string, string)>
      requires Readable(sdks, edges)
    {
      ScenarioEdges(sdks, edges)
    }

    /** The engine accepts its edges: they parse and are balanced. */
    ghost predicate Walkable() {
      Readable(sdks, edges) && Balanced(multiset(Target()))
    }
  }

  /** Caller, callee, transport, behaviour, streaming. */
  type Atom = (string, string, string, string, bool)

  // ---------------------------------------------------------------- the atoms

  /** Line 62. */
  function StaticTransports(protocols: Option<seq<string>>): seq<string> {
    if protocols.Some? && protocols.value != [] then protocols.value else TRANSPORT_ORDER
  }

  ghost predicate StaticHop(s: Scenario, h: Hop)
    requires s.Countable()
  {
    (h.0, h.1) in StaticPairs(s.sdks, s.edges) && h.2 in StaticTransports(s.protocols)
  }

  /** What a scenario is said to exercise. */
  ghost predicate StaticAtom(s: Scenario, a: Atom)
    requires s.Countable()
  {
    StaticHop(s, (a.0, a.1, a.2)) && a.3 == s.behavior && a.4 == s.streaming
  }

  /** `atoms`; `None` where it raises. */
  method Atoms(s: Scenario) returns (r: Option<set<Atom>>)
    ensures r.Some? <==> s.Countable()
    ensures r.Some? ==> forall a: Atom :: a in r.value <==> StaticAtom(s, a)
  {
    var pairs := EdgePairs(s.sdks, s.edges);
    if pairs.None? {
      return None;
    }
    var transports := StaticTransports(s.protocols);
    return Some(set p, t | p in pairs.value && t in transports :: (p.0, p.1, t, s.behavior, s.streaming));
  }

  // ------------------------------------------ static against walked coverage

  ghost predicate TwoIds(sdks: seq<string>) {
    exists i, j :: 0 <= i < |sdks| && 0 <= j < |sdks| && sdks[i] != sdks[j]
  }

  /** The two readings of an empty list never matter: an empty edge list is "no
      edges" here and "all pairs" to the engine, an empty protocol list "all"
      here and "none" to the engine. */
  ghost predicate SameReading(s: Scenario) {
    && !(s.edges == Some([]) && s.protocols != Some([]) && TwoIds(s.sdks))
    && !(s.protocols == Some([]) && s.edges != Some([]) && (s.edges.Some? || TwoIds(s.sdks)))
  }

  /** The engine sets out to walk `h.0 -> h.1` over `h.2`. */
  ghost predicate Intended(s: Scenario, setOrder: seq<string>, h: Hop)
    requires Readable(s.sdks, s.edges)
  {
    (h.0, h.1) in s.Target() && h.2 in Transports(s.protocols, setOrder)
  }

  /** The engine walks it: it does not raise a `ValueError` instead. */
  ghost predicate EngineWalks(s: Scenario, setOrder: seq<string>, h: Hop) {
    s.Walkable() && Intended(s, setOrder, h)
  }

  lemma CompleteMembers(sdks: seq<string>, e: (string, string))
    ensures e in AllArrows(sdks, sdks) <==> e in CompletePairs(sdks)
  {
    AllArrowsCount(sdks, sdks, e.0, e.1);
    assert e in AllArrows(sdks, sdks) <==> multiset(AllArrows(sdks, sdks))[(e.0, e.1)] > 0;
    Positive(multiset(sdks)[e.0], multiset(sdks)[e.1]);
  }

  lemma StaticOfReadable(sdks: seq<string>, edges: Option<seq<string>>)
    requires Readable(sdks, edges)
    ensures Counted(sdks, edges)
    ensures edges.Some? ==> StaticPairs(sdks, edges) == PairsOf(Named(edges.value, sdks))
  {
    if edges.Some? {
      ParsedNameTheSame(edges.value, sdks);
    }
  }

  /** Edges mean the same to both unless the list is present and empty. */
  lemma SameEdges(sdks: seq<string>, edges: Option<seq<string>>, e: (string, string))
    requires Readable(sdks, edges) && edges != Some([])
    ensures Counted(sdks, edges)
    ensures e in ScenarioEdges(sdks, edges) <==> e in StaticPairs(sdks, edges)
  {
    StaticOfReadable(sdks, edges);
    if edges.Some? {
      ExplicitEdges(sdks, edges.value);
    } else {
      CompleteMembers(sdks, e);
    }
  }

  /** Static coverage is what the engine walks exactly when no empty list is read
      two ways and the engine accepts the edges. */
  lemma StaticIsWalkedIffWalkable(s: Scenario, setOrder: seq<string>)
    requires s.Countable() && multiset(setOrder) == multiset(TRANSPORT_ORDER)
    ensures (forall h :: StaticHop(s, h) <==> EngineWalks(s, setOrder, h)) <==> SameReading(s) && s.Walkable()
  {
    SameOrder(setOrder);
    if !s.Walkable() {
      var h := Unwalked(s, setOrder);
    } else if SameReading(s) {
      forall h ensures StaticHop(s, h) <==> EngineWalks(s, setOrder, h) {
        SameReadingSuffices(s, setOrder, h);
      }
    } else {
      var h := Disputed(s, setOrder);
    }
  }

  lemma SameOrder(setOrder: seq<string>)
    requires multiset(setOrder) == multiset(TRANSPORT_ORDER)
    ensures forall t :: t in setOrder <==> t in TRANSPORT_ORDER
  {
    forall t ensures t in setOrder <==> t in TRANSPORT_ORDER {
      assert t in multiset(setOrder) <==> t in multiset(TRANSPORT_ORDER);
    }
  }

  /** A hop that is counted though the engine refuses the edges. */
  lemma Unwalked(s: Scenario, setOrder: seq<string>) returns (h: Hop)
    requires s.Countable() && !s.Walkable()
    ensures StaticHop(s, h) && !EngineWalks(s, setOrder, h)
  {
    if s.edges.None? || s.edges.value == [] {
      CompleteBalanced(s.sdks);
    }
    var e := ReadNamed(s.edges.value, s.sdks)[0];
    assert e in PairsOf(ReadNamed(s.edges.value, s.sdks));
    h := (e.0, e.1, StaticTransports(s.protocols)[0]);
  }

  lemma NoPairs(sdks: seq<string>, e: (string, string))
    requires !TwoIds(sdks)
    ensures e !in CompletePairs(sdks)
  {
    if e.0 in sdks && e.1 in sdks {
      var i :| 0 <= i < |sdks| && sdks[i] == e.0;
      var j :| 0 <= j < |sdks| && sdks[j] == e.1;
      assert sdks[i] == sdks[j];
    }
  }

  lemma SameReadingSuffices(s: Scenario, setOrder: seq<string>, h: Hop)
    requires Readable(s.sdks, s.edges) && SameReading(s)
    requires forall t :: t in setOrder <==> t in TRANSPORT_ORDER
    ensures s.Countable() && (StaticHop(s, h) <==> Intended(s, setOrder, h))
  {
    StaticOfReadable(s.sdks, s.edges);
    var e := (h.0, h.1);
    CompleteMembers(s.sdks, e);
    if s.edges != Some([]) {
      SameEdges(s.sdks, s.edges, e);
    }
    if !TwoIds(s.sdks) {
      NoPairs(s.sdks, e);
    }
  }

  /** A hop that only one of the two means. */
  lemma Disputed(s: Scenario, setOrder: seq<string>) returns (h: Hop)
    requires Readable(s.sdks, s.edges) && !SameReading(s)
    requires forall t :: t in setOrder <==> t in TRANSPORT_ORDER
    ensures s.Countable() && (StaticHop(s, h) <==> !Intended(s, setOrder, h))
  {
    StaticOfReadable(s.sdks, s.edges);
    var e: (string, string);
    if s.edges.Some? && s.edges.value != [] {
      e := Named(s.edges.value, s.sdks)[0];
    } else {
      var i, j :| 0 <= i < |s.sdks| && 0 <= j < |s.sdks| && s.sdks[i] != s.sdks[j];
      e := (s.sdks[i], s.sdks[j]);
      CompleteMembers(s.sdks, e);
    }
    if s.protocols == Some([]) {
      assert TRANSPORT_ORDER[0] in TRANSPORT_ORDER;
      h := (e.0, e.1, TRANSPORT_ORDER[0]);
    } else {
      assert TRANSPORT_ORDER[0] in setOrder;
      h := (e.0, e.1, Transports(s.protocols, setOrder)[0]);
    }
  }

  /** A scenario that is counted and cannot be walked: one arrow and no way back. */
  lemma OneWayIsCounted(setOrder: seq<string>) returns (s: Scenario)
    ensures s == Scenario(["a", "b"], Some(["0->1"]), Some(["jsonrpc"]), "send_message", false)
    ensures Readable(s.sdks, s.edges) && s.Countable() && SameReading(s) && !s.Walkable()
    ensures StaticHop(s, ("a", "b", "jsonrpc")) && !EngineWalks(s, setOrder, ("a", "b", "jsonrpc"))
  {
    s := Scenario(["a", "b"], Some(["0->1"]), Some(["jsonrpc"]), "send_message", false);
    OneWayScenario(s, 0, 1, "0->1");
  }

  /** A scenario of a single arrow between two ids. */
  lemma OneArrow(sdks: seq<string>, u: nat, v: nat, edge: string)
    requires u < |sdks| && v < |sdks| && sdks[u] != sdks[v] && edge == Decimal(u) + "->" + Decimal(v)
    ensures Readable(sdks, Some([edge])) && Counted(sdks, Some([edge]))
    ensures StaticPairs(sdks, Some([edge])) == {(sdks[u], sdks[v])}
    ensures !Balanced(multiset(ScenarioEdges(sdks, Some([edge]))))
  {
    var e := (sdks[u], sdks[v]);
    RenderedParses(u, v, |sdks|);
    assert [edge][..0] == [];
    assert Named([edge], sdks) == [e];
    StaticOfReadable(sdks, Some([edge]));
    ExplicitEdges(sdks, [edge]);
    assert multiset([e]) == multiset{e};
    DegreeSingle(e, e.0);
  }

  lemma OneWayScenario(s: Scenario, u: nat, v: nat, edge: string)
    requires u < |s.sdks| && v < |s.sdks| && s.sdks[u] != s.sdks[v] && s.edges == Some([edge])
    requires edge == Decimal(u) + "->" + Decimal(v) && s.protocols.Some? && s.protocols.value != []
    ensures s.Countable() && SameReading(s) && Readable(s.sdks, s.edges) && !s.Walkable()
    ensures StaticPairs(s.sdks, s.edges) == {(s.sdks[u], s.sdks[v])}
  {
    OneArrow(s.sdks, u, v, edge);
  }

  // ----------------------------------------------------------- end to end

  /** `tours` are the traversals that `create_test_suite` makes for `s`. */
  ghost predicate SuiteOf(s: Scenario, setOrder: seq<string>, tours: seq<seq<seq<string>>>) {
    && Readable(s.sdks, s.edges)
    && multiset(setOrder) == multiset(TRANSPORT_ORDER)
    && |tours| == |Transports(s.protocols, setOrder)|
    && AreTours(s.sdks, ScenarioEdges(s.sdks, s.edges), tours)
  }

  /** What is walked, by a built suite: the hops of its plan. */
  lemma SuiteWalks(s: Scenario, setOrder: seq<string>, tours: seq<seq<seq<string>>>, h: Hop)
    requires SuiteOf(s, setOrder, tours)
    ensures EngineWalks(s, setOrder, h) <==> h in PlanHops(Plan(Transports(s.protocols, setOrder), tours))
    ensures Intended(s, setOrder, h) <==> h in PlanHops(Plan(Transports(s.protocols, setOrder), tours))
  {
    WalkedSet(s.sdks, s.Target(), Transports(s.protocols, setOrder), tours, h);
    if tours != [] {
      assert IsTraversal(s.sdks, s.sdks[0], s.Target(), tours[0]);
      TraversedIsBalanced(s.sdks, s.sdks[0], s.Target(), tours[0]);
    }
  }

  lemma StaticIsPlanned(s: Scenario, setOrder: seq<string>, tours: seq<seq<seq<string>>>, h: Hop)
    requires SuiteOf(s, setOrder, tours) && SameReading(s)
    ensures s.Countable()
    ensures StaticHop(s, h) <==> h in PlanHops(Plan(Transports(s.protocols, setOrder), tours))
  {
    SameOrder(setOrder);
    SameReadingSuffices(s, setOrder, h);
    SuiteWalks(s, setOrder, tours, h);
  }

  /** Whatever the ids, the trace's tokens before the terminals are those of the
      scenario's atoms. */
  lemma TokensNameAtoms(s: Scenario, setOrder: seq<string>, tours: seq<seq<seq<string>>>, token: string)
    requires SuiteOf(s, setOrder, tours) && SameReading(s) && !IsTerminal(token)
    ensures s.Countable()
    ensures token in PlanTokens(Plan(Transports(s.protocols, setOrder), tours)) <==>
      exists h: Hop :: StaticHop(s, h) && token == HopToken(h.0, h.1, h.2)
  {
    var plan := Plan(Transports(s.protocols, setOrder), tours);
    StaticOfReadable(s.sdks, s.edges);
    TokensNameHops(plan, token);
    if h: Hop :| StaticHop(s, h) && token == HopToken(h.0, h.1, h.2) {
      StaticIsPlanned(s, setOrder, tours, h);
      var k :| 0 <= k < |PlanHops(plan)| && PlanHops(plan)[k] == h;
    }
    if Names(PlanHops(plan), token) {
      var k :| 0 <= k < |PlanHops(plan)|
        && token == HopToken(PlanHops(plan)[k].0, PlanHops(plan)[k].1, PlanHops(plan)[k].2);
      StaticIsPlanned(s, setOrder, tours, PlanHops(plan)[k]);
    }
  }

  /** For ids without blanks, a hop is an atom of the scenario exactly when its token
      is in the trace. */
  lemma AtomsAreTokens(s: Scenario, setOrder: seq<string>, tours: seq<seq<seq<string>>>, h: Hop)
    requires SuiteOf(s, setOrder, tours) && SameReading(s)
    requires forall i :: 0 <= i < |s.sdks| ==> NoSpace(s.sdks[i])
    requires NoSpace(h.0) && NoSpace(h.1)
    ensures s.Countable()
    ensures StaticAtom(s, (h.0, h.1, h.2, s.behavior, s.streaming)) <==>
      HopToken(h.0, h.1, h.2) in PlanTokens(Plan(Transports(s.protocols, setOrder), tours))
  {
    var plan := Plan(Transports(s.protocols, setOrder), tours);
    var token := HopToken(h.0, h.1, h.2);
    HopIsNotTerminal(h.0, h.1, h.2);
    TokensNameHops(plan, token);
    StaticIsPlanned(s, setOrder, tours, h);
    var hops := PlanHops(plan);
    if k :| 0 <= k < |hops| && token == HopToken(hops[k].0, hops[k].1, hops[k].2) {
      var other := hops[k];
      WalkedSet(s.sdks, ScenarioEdges(s.sdks, s.edges), Transports(s.protocols, setOrder), tours, other);
      TargetEnds(s.sdks, ParsedEdges(s.sdks, s.edges));
      HopTokenInjective(h.0, h.1, h.2, other.0, other.1, other.2);
    }
  }

  /** Running the suite's instruction at the first agent makes calls between
      exactly the scenario's atoms if and only if every edge is connected to
      that agent. */
  lemma AtomsAreCallsIffRooted(s: Scenario, setOrder: seq<string>, tours: seq<seq<seq<string>>>,
                               options: HopOptions)
    requires SuiteOf(s, setOrder, tours) && SameReading(s) && tours != []
    ensures s.Countable()
    ensures (forall h :: Exercised(PlanCalls(s.sdks[0], Plan(Transports(s.protocols, setOrder), tours), options), h)
                         <==> StaticHop(s, h))
            <==> RootedEdges(ScenarioEdges(s.sdks, s.edges), s.sdks[0])
  {
    var transports := Transports(s.protocols, setOrder);
    StaticOfReadable(s.sdks, s.edges);
    forall h ensures StaticHop(s, h) <==> h in PlanHops(Plan(transports, tours)) {
      StaticIsPlanned(s, setOrder, tours, h);
    }
    CallsAreHopsIffRooted(s.sdks, ScenarioEdges(s.sdks, s.edges), transports, tours, options);
  }
}
