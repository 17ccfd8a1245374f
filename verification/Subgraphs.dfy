/** Which induced subgraphs a scenario expands into
    (test_suite/__init__.py, lines 354-413). */
module Subgraphs {
  import opened Wrappers
  import opened Graphs
  import opened Sequences
  import opened Combinations
  import opened Traversal
  import opened EdgeStrings
  import opened Instructions
  import opened Suite

  datatype Subgraph = Subgraph(sdks: seq<string>, edges: Option<seq<string>>)

  // ----------------------------------------------------------- the candidates

  /** `[root] + combo`, unless that is the root alone: lines 381-384. */
  function Rooted(root: string): seq<string> -> seq<seq<string>> {
    (combo: seq<string>) => if |[root] + combo| < 2 then [] else [[root] + combo]
  }

  /** The candidates with `size` peers: line 380. */
  function OfSize(root: string, others: seq<string>): nat -> seq<seq<string>> {
    (size: nat) => Gather(Rooted(root), Choose(others, size))
  }

  /** Every candidate, smallest first. */
  function Candidates(sdks: seq<string>): seq<seq<string>>
    requires sdks != []
  {
    Stages(OfSize(sdks[0], sdks[1..]), |sdks|)
  }

  // ----------------------------------------------------------- what is kept

  /** The edge list a candidate gets; none when the scenario's does not parse. */
  function InducedEdges(sdks: seq<string>, edges: Option<seq<string>>, sub: seq<string>): Option<seq<string>>
    requires Readable(sdks, edges)
  {
    if edges.Some? then Some(Mapped(edges.value, sdks, sub)) else None
  }

  lemma InducedReadable(sdks: seq<string>, edges: Option<seq<string>>, sub: seq<string>)
    requires Readable(sdks, edges)
    ensures Readable(sub, InducedEdges(sdks, edges, sub))
  {
    if edges.Some? {
      ReindexingCommutes(edges.value, sdks, sub);
    }
  }

  /** The engine builds a suite for the candidate without a `ValueError`. */
  ghost predicate Traversable(sdks: seq<string>, edges: Option<seq<string>>, transports: seq<string>,
                              sub: seq<string>) {
    && Readable(sdks, edges)
    && (InducedReadable(sdks, edges, sub);
        transports == [] || Balanced(multiset(ScenarioEdges(sub, InducedEdges(sdks, edges, sub)))))
  }

  /** The edges a candidate keeps, as pairs of ids. */
  function InducedPairs(sdks: seq<string>, edges: seq<string>, sub: seq<string>): seq<(string, string)>
    requires AllParse(edges, |sdks|)
  {
    Within(Named(edges, sdks), sub)
  }

  /** In terms of the graph: no induced edge, or balanced induced edges. With no
      induced edge at all, the engine falls back on the complete digraph. */
  lemma TraversableIffBalanced(sdks: seq<string>, edges: seq<string>, transports: seq<string>, sub: seq<string>)
    requires AllParse(edges, |sdks|) && transports != []
    ensures Traversable(sdks, Some(edges), transports, sub) <==>
      InducedPairs(sdks, edges, sub) == [] || Balanced(multiset(InducedPairs(sdks, edges, sub)))
  {
    ReindexingCommutes(edges, sdks, sub);
    var mapped := Mapped(edges, sdks, sub);
    assert |Named(mapped, sub)| == |mapped|;
    if mapped == [] {
      CompleteBalanced(sub);
    } else {
      ExplicitEdges(sub, mapped);
    }
  }

  /** A candidate that keeps no edge and is walked as if it kept all: the round trip
      of the scenario goes by another agent. */
  lemma NoEdgeIsEveryEdge(transports: seq<string>)
    ensures var sdks, edges, sub := ["r", "a", "b"], ["0->1", "1->0"], ["r", "b"];
      && Readable(sdks, Some(edges)) && InducedPairs(sdks, edges, sub) == []
      && Traversable(sdks, Some(edges), transports, sub) && InducedEdges(sdks, Some(edges), sub) == Some([])
      && ScenarioEdges(sub, Some([])) == [("r", "b"), ("b", "r")]
  {
    var sdks, edges, sub := ["r", "a", "b"], ["0->1", "1->0"], ["r", "b"];
    SmallEdges();
    RoundTripNamed(sdks, 0, 1, edges[0], edges[1]);
    OutsideRoundTrip("r", "a", "b");
    NothingMapped(sdks, edges, transports, sub);
    CompletePair("r", "b");
  }

  lemma NothingMapped(sdks: seq<string>, edges: seq<string>, transports: seq<string>, sub: seq<string>)
    requires AllParse(edges, |sdks|) && InducedPairs(sdks, edges, sub) == []
    ensures Traversable(sdks, Some(edges), transports, sub) && Mapped(edges, sdks, sub) == []
  {
    ReindexingCommutes(edges, sdks, sub);
    assert |Named(Mapped(edges, sdks, sub), sub)| == |Mapped(edges, sdks, sub)|;
    CompleteBalanced(sub);
  }

  lemma OutsideRoundTrip(r: string, a: string, b: string)
    requires a != r && a != b
    ensures Within([(r, a), (a, r)], [r, b]) == []
  {
    assert [(r, a), (a, r)][..1] == [(r, a)] && [(r, a)][..0] == [];
    assert a !in [r, b];
    assert Within([(r, a)], [r, b]) == [];
  }

  ghost function Keep(sdks: seq<string>, edges: Option<seq<string>>, transports: seq<string>)
    : seq<string> -> seq<Subgraph>
  {
    (sub: seq<string>) =>
      if Traversable(sdks, edges, transports, sub) then [Subgraph(sub, InducedEdges(sdks, edges, sub))] else []
  }

  ghost function Kept(sdks: seq<string>, edges: Option<seq<string>>, transports: seq<string>, subs: seq<seq<string>>)
    : seq<Subgraph>
  {
    Gather(Keep(sdks, edges, transports), subs)
  }

  /** A candidate that would be kept calls an agent that was never started. */
  ghost predicate Unstarted(sdks: seq<string>, edges: Option<seq<string>>, transports: seq<string>,
                            agents: AgentTable, sub: seq<string>)
  {
    && Traversable(sdks, edges, transports, sub) && transports != []
    && (InducedReadable(sdks, edges, sub);
        CallsMissing(ScenarioEdges(sub, InducedEdges(sdks, edges, sub)), agents))
  }

  /** Lines 386-411 for one candidate: kept, skipped on a `ValueError`, or
      stopped by a `RuntimeError`. */
  method TryCandidate(sdks: seq<string>, edges: Option<seq<string>>, agents: AgentTable,
                      protocols: Option<seq<string>>, options: HopOptions, setOrder: seq<string>, sub: seq<string>)
    returns (r: Result<seq<Subgraph>>)
    requires sub != []
    ensures var transports := Transports(protocols, setOrder);
      r == if Unstarted(sdks, edges, transports, agents, sub) then Err(RuntimeError)
           else Ok(Keep(sdks, edges, transports)(sub))
  {
    var newEdges: Option<seq<string>> := None;
    if edges.Some? {
      var mapped := MapEdgesToSubgraph(edges.value, sdks, sub);
      if mapped.Err? {
        return Ok([]);
      }
      newEdges := Some(mapped.value);
    }
    InducedReadable(sdks, edges, sub);
    var suite, tours := CreateTestSuite(sub, agents, newEdges, protocols, options, setOrder);
    if suite.Err? {
      if suite.error == ValueError {
        return Ok([]);
      }
      return Err(suite.error);
    }
    return Ok([Subgraph(sub, newEdges)]);
  }

  ghost function Stop(sdks: seq<string>, edges: Option<seq<string>>, transports: seq<string>, agents: AgentTable)
    : seq<string> -> bool
  {
    (sub: seq<string>) => Unstarted(sdks, edges, transports, agents, sub)
  }

  /** Everything `keep` makes of the candidates, unless one of them is to `stop`
      for: then that error is raised instead. */
  ghost predicate Outcome(keep: seq<string> -> seq<Subgraph>, stop: seq<string> -> bool,
                          subs: seq<seq<string>>, r: Result<seq<Subgraph>>)
  {
    if exists sub :: sub in subs && stop(sub) then r == Err(RuntimeError) else r == Ok(Gather(keep, subs))
  }

  lemma OutcomeOne(keep: seq<string> -> seq<Subgraph>, stop: seq<string> -> bool,
                   seen: seq<seq<string>>, valid: seq<Subgraph>, sub: seq<string>)
    requires Outcome(keep, stop, seen, Ok(valid)) && !stop(sub)
    ensures Outcome(keep, stop, seen + [sub], Ok(valid + keep(sub)))
  {
    GatherConcat(keep, seen, [sub]);
    GatherOne(keep, sub);
  }

  lemma OutcomeMore(keep: seq<string> -> seq<Subgraph>, stop: seq<string> -> bool,
                    seen: seq<seq<string>>, valid: seq<Subgraph>, more: seq<seq<string>>, r: Result<seq<Subgraph>>)
    requires Outcome(keep, stop, seen, Ok(valid)) && Outcome(keep, stop, more, r)
    ensures Outcome(keep, stop, seen + more, if r.Ok? then Ok(valid + r.value) else r)
  {
    GatherConcat(keep, seen, more);
    if sub :| sub in more && stop(sub) {
      assert sub in seen + more;
    }
  }

  lemma OutcomeStops(keep: seq<string> -> seq<Subgraph>, stop: seq<string> -> bool,
                     some: seq<seq<string>>, all: seq<seq<string>>, r: Result<seq<Subgraph>>)
    requires Outcome(keep, stop, some, r) && r.Err? && some <= all
    ensures Outcome(keep, stop, all, r)
  {
    var sub :| sub in some && stop(sub);
    assert sub in all;
  }

  /** Lines 380-411, for the combinations of one size. */
  method TryCombinations(sdks: seq<string>, edges: Option<seq<string>>, agents: AgentTable,
                         protocols: Option<seq<string>>, options: HopOptions, setOrder: seq<string>,
                         root: string, combos: seq<seq<string>>)
    returns (r: Result<seq<Subgraph>>)
    ensures var transports := Transports(protocols, setOrder);
      Outcome(Keep(sdks, edges, transports), Stop(sdks, edges, transports, agents), Gather(Rooted(root), combos), r)
  {
    ghost var transports := Transports(protocols, setOrder);
    ghost var keep, stop := Keep(sdks, edges, transports), Stop(sdks, edges, transports, agents);
    var valid := [];
    for i := 0 to |combos|
      invariant Outcome(keep, stop, Gather(Rooted(root), combos[..i]), Ok(valid))
    {
      var sub := [root] + combos[i];
      GatherTake(Rooted(root), combos, i);
      ghost var seen := Gather(Rooted(root), combos[..i]);
      if |sub| < 2 {
        assert seen + [] == seen;
        continue;
      }
      var kept := TryCandidate(sdks, edges, agents, protocols, options, setOrder, sub);
      if kept.Err? {
        assert sub in Rooted(root)(combos[i]) && combos[i] in combos && stop(sub);
        GatherMembers(Rooted(root), combos, sub);
        return Err(kept.error);
      }
      OutcomeOne(keep, stop, seen, valid, sub);
      valid := valid + kept.value;
    }
    assert combos[..|combos|] == combos;
    return Ok(valid);
  }

  /** `_get_valid_subgraphs`. */
  method GetValidSubgraphs(sdks: seq<string>, edges: Option<seq<string>>, agents: AgentTable,
                           protocols: Option<seq<string>>, options: HopOptions, setOrder: seq<string>)
    returns (r: Result<seq<Subgraph>>)
    ensures sdks == [] ==> r == Ok([])
    ensures sdks != [] ==>
      var transports := Transports(protocols, setOrder);
      Outcome(Keep(sdks, edges, transports), Stop(sdks, edges, transports, agents), Candidates(sdks), r)
  {
    if sdks == [] {
      return Ok([]);
    }
    var root, remaining := sdks[0], sdks[1..];
    ghost var transports := Transports(protocols, setOrder);
    ghost var keep, stop := Keep(sdks, edges, transports), Stop(sdks, edges, transports, agents);
    var valid := [];
    ghost var stage := OfSize(root, remaining);
    for size := 0 to |remaining| + 1
      invariant Outcome(keep, stop, Stages(stage, size), Ok(valid))
    {
      var some := TryCombinations(sdks, edges, agents, protocols, options, setOrder, root, Choose(remaining, size));
      OutcomeMore(keep, stop, Stages(stage, size), valid, stage(size), some);
      if some.Err? {
        StagesPrefix(stage, size + 1, |sdks|);
        OutcomeStops(keep, stop, Stages(stage, size + 1), Candidates(sdks), some);
        return some;
      }
      valid := valid + some.value;
    }
    return Ok(valid);
  }

  lemma GatherTake<A, B>(f: A -> seq<B>, s: seq<A>, i: nat)
    requires i < |s|
    ensures Gather(f, s[..i + 1]) == Gather(f, s[..i]) + f(s[i])
  {
    assert s[..i + 1][..i] == s[..i];
  }

  // ---------------------------------------------------- soundness, completeness

  /** The root followed by a sub-list of the others, at least one. */
  ghost predicate RootedSublist(root: string, others: seq<string>, sub: seq<string>) {
    |sub| >= 2 && sub[0] == root && IsSublist(sub[1..], others)
  }

  lemma OfSizeMembers(root: string, others: seq<string>, size: nat, sub: seq<string>)
    ensures sub in OfSize(root, others)(size) <==> |sub| == size + 1 && RootedSublist(root, others, sub)
  {
    GatherMembers(Rooted(root), Choose(others, size), sub);
    if combo :| combo in Choose(others, size) && sub in Rooted(root)(combo) {
      assert sub == [root] + combo && sub[1..] == combo;
      ChooseExact(others, size, combo);
    }
    if |sub| == size + 1 && RootedSublist(root, others, sub) {
      ChooseExact(others, size, sub[1..]);
      assert [root] + sub[1..] == sub;
      assert sub in Rooted(root)(sub[1..]);
    }
  }

  lemma {:induction false} SublistLength<T>(ys: seq<T>, xs: seq<T>)
    requires IsSublist(ys, xs)
    ensures |ys| <= |xs|
  {
    if ys != [] {
      if ys[0] == xs[0] && IsSublist(ys[1..], xs[1..]) {
        SublistLength(ys[1..], xs[1..]);
      } else {
        SublistLength(ys, xs[1..]);
      }
    }
  }

  /** The candidates are exactly the sub-lists of two or more that start at the root. */
  lemma CandidateExact(sdks: seq<string>, sub: seq<string>)
    requires sdks != []
    ensures sub in Candidates(sdks) <==> RootedSublist(sdks[0], sdks[1..], sub)
  {
    var stage := OfSize(sdks[0], sdks[1..]);
    StagesMembers(stage, |sdks|, sub);
    if k: nat :| k < |sdks| && sub in stage(k) {
      OfSizeMembers(sdks[0], sdks[1..], k, sub);
    }
    if RootedSublist(sdks[0], sdks[1..], sub) {
      SublistLength(sub[1..], sdks[1..]);
      OfSizeMembers(sdks[0], sdks[1..], |sub| - 1, sub);
      assert sub in stage(|sub| - 1);
    }
  }

  /** With distinct ids: the sub-lists of the scenario that contain the root. */
  lemma RootContained(sdks: seq<string>, sub: seq<string>)
    requires sdks != [] && NoDuplicates(sdks)
    ensures sdks[0] in sub && IsSublist(sub, sdks) <==>
      sub != [] && sub[0] == sdks[0] && IsSublist(sub[1..], sdks[1..])
  {
    HeadOnce(sdks);
    if sub != [] && IsSublist(sub, sdks[1..]) {
      SublistMembers(sub, sdks[1..]);
    }
  }

  lemma HeadOnce<T>(s: seq<T>)
    requires s != [] && NoDuplicates(s)
    ensures s[0] !in s[1..]
  {
  }

  /** What comes back: exactly the traversable sub-lists of two or more with the
      root, with their induced edges. */
  lemma KeptExactly(sdks: seq<string>, edges: Option<seq<string>>, transports: seq<string>,
                    s: Subgraph)
    requires sdks != [] && NoDuplicates(sdks)
    ensures s in Kept(sdks, edges, transports, Candidates(sdks)) <==>
      && |s.sdks| >= 2 && sdks[0] in s.sdks && IsSublist(s.sdks, sdks)
      && Traversable(sdks, edges, transports, s.sdks) && s.edges == InducedEdges(sdks, edges, s.sdks)
  {
    GatherMembers(Keep(sdks, edges, transports), Candidates(sdks), s);
    CandidateExact(sdks, s.sdks);
    RootContained(sdks, s.sdks);
    if s.sdks in Candidates(sdks) && Traversable(sdks, edges, transports, s.sdks)
       && s.edges == InducedEdges(sdks, edges, s.sdks) {
      assert s in Keep(sdks, edges, transports)(s.sdks);
    }
  }
}
