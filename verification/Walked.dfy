/** The hops that a built suite walks, and the tokens that name them. */
module Walked {
  import opened Wrappers
  import opened Counting
  import opened Graphs
  import opened Text
  import opened Sequences
  import opened Traversal
  import opened Instructions
  import opened Suite

  // ------------------------------------------------------------ hops of a plan

  type Hop = (string, string, string)  // caller, callee, transport

  function LegHops(leg: Leg): (r: seq<Hop>)
    ensures |r| == |Graphs.Steps(leg.circuit)|
    ensures forall i {:trigger r[i]} :: 0 <= i < |r| ==> r[i] == (leg.circuit[i], leg.circuit[i + 1], leg.transport)
  {
    var steps := Graphs.Steps(leg.circuit);
    seq(|steps|, i requires 0 <= i < |steps| => (steps[i].0, steps[i].1, leg.transport))
  }

  function PlanHops(plan: seq<Leg>): seq<Hop> {
    Gather(LegHops, plan)
  }

  lemma {:induction false} StepHops(steps: seq<(string, string)>, hops: seq<Hop>, transport: string, h: Hop)
    requires |hops| == |steps|
    requires forall i :: 0 <= i < |hops| ==> hops[i] == (steps[i].0, steps[i].1, transport)
    ensures multiset(hops)[h] == if h.2 == transport then multiset(steps)[(h.0, h.1)] else 0
  {
    if hops != [] {
      var n := |hops| - 1;
      assert hops == hops[..n] + [hops[n]] && steps == steps[..n] + [steps[n]];
      StepHops(steps[..n], hops[..n], transport, h);
    }
  }

  /** One transport walks each edge as often as the circuits step over it. */
  lemma {:induction false} LegsHops(transport: string, circuits: seq<seq<string>>, h: Hop)
    ensures multiset(PlanHops(Legs(transport, circuits)))[h]
         == if h.2 == transport then multiset(AllSteps(circuits))[(h.0, h.1)] else 0
    ensures |PlanHops(Legs(transport, circuits))| == |AllSteps(circuits)|
  {
    if circuits != [] {
      var rest, c := circuits[..|circuits| - 1], circuits[|circuits| - 1];
      var legs := Legs(transport, circuits);
      assert legs[..|legs| - 1] == Legs(transport, rest);
      LegsHops(transport, rest, h);
      StepHops(Graphs.Steps(c), LegHops(Leg(transport, c)), transport, h);
    }
  }

  /** A traversal steps over exactly the target edges, even when there are none. */
  lemma TraversalSteps(sdks: seq<string>, current: string, target: seq<(string, string)>, circuits: seq<seq<string>>)
    requires IsTraversal(sdks, current, target, circuits)
    ensures multiset(AllSteps(circuits)) == multiset(target) && |AllSteps(circuits)| == |target|
  {
    if target == [] {
      GatherOne((c: seq<string>) => Graphs.Steps(c), [current]);
    }
    assert |multiset(AllSteps(circuits))| == |AllSteps(circuits)|;
  }

  /** Each tour steps over exactly the target edges. */
  ghost predicate StepOver(target: seq<(string, string)>, tours: seq<seq<seq<string>>>) {
    forall k :: 0 <= k < |tours| ==> multiset(AllSteps(tours[k])) == multiset(target)
  }

  lemma ToursStepOver(sdks: seq<string>, target: seq<(string, string)>, tours: seq<seq<seq<string>>>)
    requires AreTours(sdks, target, tours)
    ensures StepOver(target, tours)
  {
    forall k | 0 <= k < |tours| ensures multiset(AllSteps(tours[k])) == multiset(target) {
      assert IsTraversal(sdks, sdks[0], target, tours[k]);
      TraversalSteps(sdks, sdks[0], target, tours[k]);
    }
  }

  /** What one more transport adds to the hops. */
  lemma PlanHopsNext(target: seq<(string, string)>, transports: seq<string>, tours: seq<seq<seq<string>>>, h: Hop)
    requires |tours| == |transports| > 0 && StepOver(target, tours)
    ensures var n := |transports| - 1; var before := PlanHops(Plan(transports[..n], tours[..n]));
      var now := PlanHops(Plan(transports, tours));
      && multiset(now)[h] == multiset(before)[h] + (if h.2 == transports[n] then multiset(target)[(h.0, h.1)] else 0)
      && |now| == |before| + |target|
  {
    var n := |transports| - 1;
    LegsHops(transports[n], tours[n], h);
    GatherConcat(LegHops, Plan(transports[..n], tours[..n]), Legs(transports[n], tours[n]));
    assert |multiset(AllSteps(tours[n]))| == |multiset(target)|;
  }

  /** `m` counted `k` times. */
  ghost function Times(m: nat, k: nat): nat {
    if k == 0 then 0 else Times(m, k - 1) + m
  }

  lemma {:induction false} TimesIsProduct(m: nat, k: nat)
    ensures Times(m, k) == m * k
  {
    if k > 0 {
      TimesIsProduct(m, k - 1);
      assert m * k == m * (k - 1) + m;
    }
  }

  lemma CountLast<T>(s: seq<T>, x: T)
    requires s != []
    ensures multiset(s)[x] == multiset(s[..|s| - 1])[x] + Indicator(x == s[|s| - 1])
  {
    assert s == s[..|s| - 1] + [s[|s| - 1]];
  }

  lemma {:induction false} EachEdgeCounted(target: seq<(string, string)>, transports: seq<string>,
                                           tours: seq<seq<seq<string>>>, h: Hop)
    requires |tours| == |transports| && StepOver(target, tours)
    ensures multiset(PlanHops(Plan(transports, tours)))[h]
         == Times(multiset(target)[(h.0, h.1)], multiset(transports)[h.2])
  {
    if transports != [] {
      var n := |transports| - 1;
      CountLast(transports, h.2);
      PlanHopsNext(target, transports, tours, h);
      EachEdgeCounted(target, transports[..n], tours[..n], h);
    }
  }

  lemma {:induction false} HopTotal(target: seq<(string, string)>, transports: seq<string>,
                                    tours: seq<seq<seq<string>>>)
    requires |tours| == |transports| && StepOver(target, tours)
    ensures |PlanHops(Plan(transports, tours))| == Times(|target|, |transports|)
  {
    if transports != [] {
      var n := |transports| - 1;
      PlanHopsNext(target, transports, tours, ("", "", ""));
      HopTotal(target, transports[..n], tours[..n]);
    }
  }

  /** Every edge is walked exactly once per occurrence of every transport, so a
      suite takes transports times edges hops in all. */
  lemma EachEdgeOncePerTransport(sdks: seq<string>, target: seq<(string, string)>,
                                 transports: seq<string>, tours: seq<seq<seq<string>>>, h: Hop)
    requires |tours| == |transports| && AreTours(sdks, target, tours)
    ensures multiset(PlanHops(Plan(transports, tours)))[h] == multiset(target)[(h.0, h.1)] * multiset(transports)[h.2]
    ensures |PlanHops(Plan(transports, tours))| == |transports| * |target|
  {
    ToursStepOver(sdks, target, tours);
    EachEdgeCounted(target, transports, tours, h);
    TimesIsProduct(multiset(target)[(h.0, h.1)], multiset(transports)[h.2]);
    HopTotal(target, transports, tours);
    TimesIsProduct(|target|, |transports|);
  }

  /** A suite without edges, of distinct agents: each ordered pair of two, once per
      occurrence of each transport. */
  lemma EachPairOncePerTransport(sdks: seq<string>, edges: Option<seq<string>>, transports: seq<string>,
                                 tours: seq<seq<seq<string>>>, h: Hop)
    requires NoDuplicates(sdks) && (edges == None || edges == Some([]))
    requires |tours| == |transports| && AreTours(sdks, ScenarioEdges(sdks, edges), tours)
    ensures multiset(PlanHops(Plan(transports, tours)))[h]
         == if h.0 != h.1 && h.0 in sdks && h.1 in sdks then multiset(transports)[h.2] else 0
  {
    EachEdgeOncePerTransport(sdks, ScenarioEdges(sdks, edges), transports, tours, h);
    DefaultTarget(sdks, ParsedEdges(sdks, edges), h.0, h.1);
    OnceOrNever(h.0 != h.1 && h.0 in sdks && h.1 in sdks, multiset(transports)[h.2]);
  }

  lemma OnceOrNever(b: bool, k: nat)
    ensures Indicator(b) * k == if b then k else 0
  {
  }

  /** As a set: every edge over every transport, and nothing else. */
  lemma WalkedSet(sdks: seq<string>, target: seq<(string, string)>,
                  transports: seq<string>, tours: seq<seq<seq<string>>>, h: Hop)
    requires |tours| == |transports| && AreTours(sdks, target, tours)
    ensures h in PlanHops(Plan(transports, tours)) <==> (h.0, h.1) in target && h.2 in transports
  {
    EachEdgeOncePerTransport(sdks, target, transports, tours, h);
    var hops := PlanHops(Plan(transports, tours));
    assert h in hops <==> multiset(hops)[h] > 0;
    var m, k := multiset(target)[(h.0, h.1)], multiset(transports)[h.2];
    assert m > 0 <==> (h.0, h.1) in target;
    assert k > 0 <==> h.2 in transports;
    Positive(m, k);
  }

  lemma Positive(m: nat, k: nat)
    ensures m * k > 0 <==> m > 0 && k > 0
  {
  }

  // -------------------------------------------------------- hops in the tokens

  predicate IsTerminal(token: string) {
    |token| >= 20 && token[..20] == "traversal-completed:"
  }

  lemma HopIsNotTerminal(u: string, v: string, t: string)
    ensures !IsTerminal(HopToken(u, v, t)) && IsTerminal(Terminal(t))
  {
    assert HopToken(u, v, t)[0] == '[';
    assert Terminal(t)[..20] == "traversal-completed:";
    if |HopToken(u, v, t)| >= 20 {
      assert HopToken(u, v, t)[..20][0] == '[';
      assert "traversal-completed:"[0] == 't';
    }
  }

  /** `token` is the rendering of one of `hops`. */
  ghost predicate Names(hops: seq<Hop>, token: string) {
    exists k :: 0 <= k < |hops| && token == HopToken(hops[k].0, hops[k].1, hops[k].2)
  }

  lemma NamesConcat(a: seq<Hop>, b: seq<Hop>, token: string)
    ensures Names(a + b, token) <==> Names(a, token) || Names(b, token)
  {
    var all := a + b;
    if k :| 0 <= k < |a| && token == HopToken(a[k].0, a[k].1, a[k].2) {
      assert all[k] == a[k];
    }
    if k :| 0 <= k < |b| && token == HopToken(b[k].0, b[k].1, b[k].2) {
      assert all[|a| + k] == b[k];
    }
  }

  /** The trace tokens that are not terminals name exactly the plan's hops. */
  lemma {:induction false} TokensNameHops(plan: seq<Leg>, token: string)
    requires !IsTerminal(token)
    ensures token in PlanTokens(plan) <==> Names(PlanHops(plan), token)
  {
    if plan != [] {
      var rest, leg := plan[..|plan| - 1], plan[|plan| - 1];
      TokensNameHops(rest, token);
      ChainNamesHops(leg, token);
      NamesConcat(PlanHops(rest), LegHops(leg), token);
    }
  }

  lemma ChainNamesHops(leg: Leg, token: string)
    requires !IsTerminal(token)
    ensures token in Chain(leg) <==> Names(LegHops(leg), token)
  {
    HopIsNotTerminal("", "", leg.transport);
    var tokens, hops := HopTokens(leg.circuit, leg.transport), LegHops(leg);
    assert token in Chain(leg) <==> token in Reverse(tokens);
    ReverseMembers(tokens, token);
    if k :| 0 <= k < |tokens| && tokens[k] == token {
      assert hops[k] == (leg.circuit[k], leg.circuit[k + 1], leg.transport);
    }
    if k :| 0 <= k < |hops| && token == HopToken(hops[k].0, hops[k].1, hops[k].2) {
      assert tokens[k] == token;
    }
  }

  // --------------------------------------------------- tokens, counted

  function HopText(): Hop -> string {
    (h: Hop) => HopToken(h.0, h.1, h.2)
  }

  function KeepHopToken(): string -> seq<string> {
    (token: string) => if IsTerminal(token) then [] else [token]
  }

  /** The trace tokens that are not terminals, in order. */
  function HopTokensOf(tokens: seq<string>): seq<string> {
    Gather(KeepHopToken(), tokens)
  }

  lemma {:induction false} KeepsAllHops(tokens: seq<string>)
    requires forall i :: 0 <= i < |tokens| ==> !IsTerminal(tokens[i])
    ensures HopTokensOf(tokens) == tokens
  {
    if tokens != [] {
      KeepsAllHops(tokens[..|tokens| - 1]);
      assert tokens == tokens[..|tokens| - 1] + [tokens[|tokens| - 1]];
    }
  }

  lemma ChainHops(leg: Leg)
    ensures HopTokensOf(Chain(leg)) == Reverse(HopTokens(leg.circuit, leg.transport))
    ensures HopTokens(leg.circuit, leg.transport) == Map(HopText(), LegHops(leg))
  {
    var hops := HopTokens(leg.circuit, leg.transport);
    var reversed, terminal := Reverse(hops), Terminal(leg.transport);
    forall i | 0 <= i < |reversed| ensures !IsTerminal(reversed[i]) {
      var k := |hops| - 1 - i;
      HopIsNotTerminal(leg.circuit[k], leg.circuit[k + 1], leg.transport);
    }
    KeepsAllHops(reversed);
    HopIsNotTerminal("", "", leg.transport);
    GatherConcat(KeepHopToken(), reversed, [terminal]);
    GatherOne(KeepHopToken(), terminal);
  }

  /** Counted with repetitions, the hop tokens are one rendering of each hop. */
  lemma {:induction false} TokensCountHops(plan: seq<Leg>)
    ensures multiset(HopTokensOf(PlanTokens(plan))) == multiset(Map(HopText(), PlanHops(plan)))
    ensures |HopTokensOf(PlanTokens(plan))| == |PlanHops(plan)|
  {
    if plan != [] {
      var rest, leg := plan[..|plan| - 1], plan[|plan| - 1];
      TokensCountHops(rest);
      ChainHops(leg);
      ReverseCounts(HopTokens(leg.circuit, leg.transport));
      GatherConcat(KeepHopToken(), PlanTokens(rest), Chain(leg));
      MapConcat(HopText(), PlanHops(rest), LegHops(leg));
    }
  }

  predicate NoSpace(s: string) {
    Free(s, ' ')
  }

  /** For ids without blanks a token names one hop only. */
  lemma HopTokenInjective(u: string, v: string, t: string, u': string, v': string, t': string)
    requires NoSpace(u) && NoSpace(v) && NoSpace(u') && NoSpace(v')
    requires HopToken(u, v, t) == HopToken(u', v', t')
    ensures u == u' && v == v' && t == t'
  {
    var a, a' := "-> " + v + " (" + t + ")]", "-> " + v' + " (" + t' + ")]";
    assert HopToken(u, v, t) == "[" + (u + " " + a) && HopToken(u', v', t') == "[" + (u' + " " + a');
    assert HopToken(u, v, t)[1..] == u + " " + a && HopToken(u', v', t')[1..] == u' + " " + a';
    CutAt(u, a, u', a', ' ');
    var b, b' := "(" + t + ")]", "(" + t' + ")]";
    assert a[3..] == v + " " + b && a'[3..] == v' + " " + b';
    CutAt(v, b, v', b', ' ');
    assert t == b[1..|b| - 2] && t' == b'[1..|b'| - 2];
  }
}
