/** Judging a push-notification run from the flat token list
    (testlib.py, lines 277-332). */
module PushVerifier {
  import opened Text
  import opened Sequences
  import opened Instructions
  import opened Suite
  import opened Walked

  // --------------------------------------------- chains, cut at terminal tokens

  /** The chains of `tokens`, given the part of a chain already read. */
  function SplitFrom(current: seq<string>, tokens: seq<string>): seq<seq<string>>
    decreases |tokens|
  {
    if tokens == [] then (if current == [] then [] else [current])
    else if IsTerminal(tokens[0]) then [current + [tokens[0]]] + SplitFrom([], tokens[1..])
    else SplitFrom(current + [tokens[0]], tokens[1..])
  }

  /** Lines 286-294. */
  method SplitChains(tokens: seq<string>) returns (chains: seq<seq<string>>)
    ensures chains == SplitFrom([], tokens)
  {
    chains := [];
    var current := [];
    for i := 0 to |tokens|
      invariant chains + SplitFrom(current, tokens[i..]) == SplitFrom([], tokens)
    {
      var token := tokens[i];
      assert tokens[i..][0] == token && tokens[i..][1..] == tokens[i + 1..];
      ghost var before := current;
      current := current + [token];
      if IsTerminal(token) {
        ghost var rest := SplitFrom([], tokens[i + 1..]);
        assert chains + ([current] + rest) == chains + [current] + rest;
        chains := chains + [current];
        current := [];
      }
    }
    if current != [] {
      chains := chains + [current];
    }
  }

  function Whole(): seq<string> -> seq<string> {
    (chain: seq<string>) => chain
  }

  /** A chain holds no terminal but at its end. */
  ghost predicate CutRight(chain: seq<string>) {
    chain != [] && forall i :: 0 <= i < |chain| - 1 ==> !IsTerminal(chain[i])
  }

  lemma {:induction false} ChainsJoined(current: seq<string>, tokens: seq<string>)
    ensures Gather(Whole(), SplitFrom(current, tokens)) == current + tokens
    decreases |tokens|
  {
    if tokens == [] {
      GatherOne(Whole(), current);
    } else {
      var longer, rest := current + [tokens[0]], tokens[1..];
      assert longer + rest == current + tokens;
      if IsTerminal(tokens[0]) {
        ChainsJoined([], rest);
        GatherConcat(Whole(), [longer], SplitFrom([], rest));
        GatherOne(Whole(), longer);
        assert [] + rest == rest;
      } else {
        ChainsJoined(longer, rest);
      }
    }
  }

  ghost predicate AllCutRight(chains: seq<seq<string>>) {
    && (forall i :: 0 <= i < |chains| ==> CutRight(chains[i]))
    && (forall i :: 0 <= i < |chains| - 1 ==> IsTerminal(chains[i][|chains[i]| - 1]))
  }

  lemma CutMore(chain: seq<string>, chains: seq<seq<string>>)
    requires CutRight(chain) && IsTerminal(chain[|chain| - 1]) && AllCutRight(chains)
    ensures AllCutRight([chain] + chains)
  {
  }

  lemma {:induction false} ChainsCut(current: seq<string>, tokens: seq<string>)
    requires forall i :: 0 <= i < |current| ==> !IsTerminal(current[i])
    ensures AllCutRight(SplitFrom(current, tokens))
    decreases |tokens|
  {
    if tokens != [] {
      if IsTerminal(tokens[0]) {
        ChainsCut([], tokens[1..]);
        CutMore(current + [tokens[0]], SplitFrom([], tokens[1..]));
      } else {
        ChainsCut(current + [tokens[0]], tokens[1..]);
      }
    }
  }

  /** Any list is cut after each terminal and nowhere else: put end to end the chains
      are the list; each but the last ends in a terminal, and holds no other. */
  lemma ChainsAreCuts(tokens: seq<string>)
    ensures Gather(Whole(), SplitFrom([], tokens)) == tokens && AllCutRight(SplitFrom([], tokens))
  {
    ChainsJoined([], tokens);
    assert [] + tokens == tokens;
    ChainsCut([], tokens);
  }

  /** A run of hops ends at its terminal, whatever follows. */
  lemma {:induction false} SplitOne(current: seq<string>, hops: seq<string>, terminal: string, rest: seq<string>)
    requires IsTerminal(terminal) && forall i :: 0 <= i < |hops| ==> !IsTerminal(hops[i])
    ensures SplitFrom(current, hops + [terminal] + rest) == [current + hops + [terminal]] + SplitFrom([], rest)
    decreases |hops|
  {
    var all := hops + [terminal] + rest;
    if hops == [] {
      assert all[1..] == rest && current + hops + [terminal] == current + [terminal];
    } else {
      assert all[1..] == hops[1..] + [terminal] + rest;
      SplitOne(current + [hops[0]], hops[1..], terminal, rest);
      assert current + [hops[0]] + hops[1..] + [terminal] == current + hops + [terminal];
    }
  }

  function PlanChains(plan: seq<Leg>): seq<seq<string>> {
    Map(Chain, plan)
  }

  lemma {:induction false} SplitChain(leg: Leg, rest: seq<string>)
    ensures SplitFrom([], Chain(leg) + rest) == [Chain(leg)] + SplitFrom([], rest)
  {
    var hops := Reverse(HopTokens(leg.circuit, leg.transport));
    forall i | 0 <= i < |hops| ensures !IsTerminal(hops[i]) {
      var k := |hops| - 1 - i;
      HopIsNotTerminal(leg.circuit[k], leg.circuit[k + 1], leg.transport);
    }
    HopIsNotTerminal("", "", leg.transport);
    SplitOne([], hops, Terminal(leg.transport), rest);
    assert [] + hops + [Terminal(leg.transport)] == Chain(leg);
  }

  /** Cutting the flat list recovers exactly one chain per leg. */
  lemma {:induction false} ChainsRecovered(plan: seq<Leg>)
    ensures SplitFrom([], PlanTokens(plan)) == PlanChains(plan)
  {
    if plan != [] {
      var leg, rest := plan[0], plan[1..];
      assert plan == [leg] + rest;
      MapCons(Chain, leg, rest);
      GatherConcat(Chain, [leg], rest);
      GatherOne(Chain, leg);
      ChainsRecovered(rest);
      SplitChain(leg, PlanTokens(rest));
    }
  }

  // ------------------------------------------------------------ expected states

  /** What an agent `k` hops before the end of the chain should have answered. */
  function State(chain: seq<string>, k: nat): string
    requires k < |chain|
  {
    if k == 0 then chain[|chain| - 1] else chain[k - 1] + "\n" + State(chain, k - 1)
  }

  function ChainStates(chain: seq<string>): (r: seq<string>)
    ensures |r| == |chain|
    ensures forall k {:trigger r[k]} :: 0 <= k < |r| ==> r[k] == State(chain, k)
  {
    seq(|chain|, k requires 0 <= k < |chain| => State(chain, k))
  }

  function ExpectedStates(tokens: seq<string>): seq<string> {
    Gather(ChainStates, SplitFrom([], tokens))
  }

  /** Lines 300-305, for one chain. */
  method BuildChainStates(chain: seq<string>) returns (built: seq<string>)
    requires chain != []
    ensures built == ChainStates(chain)
  {
    var current := chain[|chain| - 1];
    built := [current];
    for k := 0 to |chain| - 1
      invariant current == State(chain, k) && built == ChainStates(chain)[..k + 1]
    {
      current := chain[k] + "\n" + current;
      built := built + [current];
    }
  }

  /** Lines 296-305. */
  method BuildStates(chains: seq<seq<string>>) returns (states: seq<string>)
    ensures states == Gather(ChainStates, chains)
  {
    states := [];
    for i := 0 to |chains|
      invariant states == Gather(ChainStates, chains[..i])
    {
      StatesNext(chains, i);
      if chains[i] == [] {
        continue;
      }
      var built := BuildChainStates(chains[i]);
      states := states + built;
    }
    assert chains[..|chains|] == chains;
  }

  lemma StatesNext(chains: seq<seq<string>>, i: nat)
    requires i < |chains|
    ensures Gather(ChainStates, chains[..i + 1]) == Gather(ChainStates, chains[..i]) + ChainStates(chains[i])
    ensures chains[i] == [] ==> Gather(ChainStates, chains[..i + 1]) == Gather(ChainStates, chains[..i])
  {
    TakeNext(chains, i);
    GatherConcat(ChainStates, chains[..i], [chains[i]]);
    GatherOne(ChainStates, chains[i]);
  }

  /** State `k` is the last `k` hops and the terminal, one per line. */
  lemma {:induction false} StateIsJoin(hops: seq<string>, terminal: string, k: nat)
    requires k <= |hops|
    ensures State(Reverse(hops) + [terminal], k) == Join(hops[|hops| - k..] + [terminal], "\n")
  {
    if k == 0 {
      assert hops[|hops|..] + [terminal] == [terminal];
    } else {
      StateIsJoin(hops, terminal, k - 1);
      var first, rest := hops[|hops| - k], hops[|hops| - k + 1..] + [terminal];
      assert hops[|hops| - k..] + [terminal] == [first] + rest;
      JoinAppend([first], rest, "\n");
    }
  }

  lemma HopTokensFrom(circuit: seq<string>, transport: string, j: nat)
    requires j <= |HopTokens(circuit, transport)|
    ensures HopTokens(circuit[j..], transport) == HopTokens(circuit, transport)[j..]
  {
  }

  /** What is left after `j` hops is answered with one of the states. */
  lemma {:induction false} StateFrom(leg: Leg, j: nat)
    requires j <= |HopTokens(leg.circuit, leg.transport)|
    ensures State(Chain(leg), |HopTokens(leg.circuit, leg.transport)| - j) == Answer(leg.circuit[j..], leg.transport)
  {
    var hops := HopTokens(leg.circuit, leg.transport);
    StateIsJoin(hops, Terminal(leg.transport), |hops| - j);
    HopTokensFrom(leg.circuit, leg.transport, j);
  }

  function AnswerOf(): Call -> string {
    (c: Call) => c.answer
  }

  function Answers(calls: seq<Call>): seq<string> {
    Map(AnswerOf(), calls)
  }

  /** States that end in `top` and run backwards through `rest` before. */
  lemma {:induction false} StatesReverse(chain: seq<string>, top: string, rest: seq<string>)
    requires |chain| == |rest| + 1 && State(chain, |rest|) == top
    requires forall i {:trigger rest[i]} :: 0 <= i < |rest| ==> State(chain, |rest| - 1 - i) == rest[i]
    ensures ChainStates(chain) == Reverse([top] + rest)
  {
    var all := [top] + rest;
    forall k | 0 <= k < |chain| ensures ChainStates(chain)[k] == Reverse(all)[k] {
      if k < |rest| {
        assert all[|rest| - k] == rest[|rest| - 1 - k];
      }
    }
  }

  lemma {:induction false} CallState(leg: Leg, root: string, options: HopOptions, i: nat)
    requires i < |CallsOf(root, leg.circuit, leg.transport, options)|
    ensures State(Chain(leg), |HopTokens(leg.circuit, leg.transport)| - 1 - i)
         == CallsOf(root, leg.circuit, leg.transport, options)[i].answer
  {
    CallAnswer(root, leg.circuit, leg.transport, options, i);
    StateAt(leg, i + 1, |HopTokens(leg.circuit, leg.transport)| - 1 - i);
  }

  lemma {:induction false} StateAt(leg: Leg, j: nat, m: nat)
    requires m + j == |HopTokens(leg.circuit, leg.transport)|
    ensures State(Chain(leg), m) == Answer(leg.circuit[j..], leg.transport)
  {
    StateFrom(leg, j);
  }

  lemma {:induction false} CallStates(leg: Leg, root: string, options: HopOptions, answers: seq<string>)
    requires answers == Answers(CallsOf(root, leg.circuit, leg.transport, options))
    ensures |Chain(leg)| == |answers| + 1 && |answers| == |HopTokens(leg.circuit, leg.transport)|
    ensures forall i {:trigger answers[i]} :: 0 <= i < |answers| ==>
      State(Chain(leg), |answers| - 1 - i) == answers[i]
  {
    forall i {:trigger answers[i]} | 0 <= i < |answers|
      ensures State(Chain(leg), |answers| - 1 - i) == answers[i]
    {
      CallState(leg, root, options, i);
    }
  }

  /** The states of a chain are exactly what running the leg answers, at the top
      and at every nested call, innermost first. */
  lemma {:induction false} StatesAreAnswers(leg: Leg, root: string, options: HopOptions)
    ensures ChainStates(Chain(leg))
         == Reverse([Answer(leg.circuit, leg.transport)]
                    + Answers(CallsOf(root, leg.circuit, leg.transport, options)))
  {
    var answers := Answers(CallsOf(root, leg.circuit, leg.transport, options));
    CallStates(leg, root, options, answers);
    StateAt(leg, 0, |answers|);
    assert leg.circuit[0..] == leg.circuit;
    StatesReverse(Chain(leg), Answer(leg.circuit, leg.transport), answers);
  }

  // ------------------------------------------------------------- the judgement

  /** `[s]` unless the text shows it. */
  function KeepUnseen(text: string): string -> seq<string> {
    (state: string) => if Contains(text, state) then [] else [state]
  }

  /** The states that `text` does not show, in order. */
  function Unseen(states: seq<string>, text: string): seq<string> {
    Gather(KeepUnseen(text), states)
  }

  function UnseenByAll(states: seq<string>, texts: seq<string>): seq<string> {
    if texts == [] then states else Unseen(UnseenByAll(states, texts[..|texts| - 1]), texts[|texts| - 1])
  }

  /** `remaining.remove(x)`: the first occurrence goes; there must be one. */
  method RemoveFirst(list: seq<string>, x: string, ghost before: seq<string>, ghost after: seq<string>)
    returns (r: seq<string>)
    requires list == before + [x] + after && x !in before
    ensures r == before + after
  {
    var i := 0;
    assert forall j :: 0 <= j < |before| ==> list[j] == before[j] && before[j] in before;
    while list[i] != x
      invariant i <= |before|
      decreases |before| - i
    {
      i := i + 1;
    }
    r := list[..i] + list[i + 1..];
  }

  /** Lines 311-313: removing from the list while walking a snapshot of it never
      misses an element and leaves exactly the unseen ones, duplicates included. */
  method RemoveSeen(states: seq<string>, text: string) returns (remaining: seq<string>)
    ensures remaining == Unseen(states, text)
  {
    remaining := states;
    for k := 0 to |states|
      invariant remaining == Unseen(states[..k], text) + states[k..]
    {
      ghost var unseen := Unseen(states[..k], text);
      UnseenNext(states, text, k);
      if Contains(text, states[k]) {
        remaining := RemoveFirst(remaining, states[k], unseen, states[k + 1..]);
      }
    }
    assert states[..|states|] == states;
  }

  lemma UnseenNext(states: seq<string>, text: string, k: nat)
    requires k < |states|
    ensures var unseen := Unseen(states[..k], text);
      && unseen + states[k..] == unseen + [states[k]] + states[k + 1..]
      && (if Contains(text, states[k]) then states[k] !in unseen && Unseen(states[..k + 1], text) == unseen
          else Unseen(states[..k + 1], text) == unseen + [states[k]])
  {
    TakeNext(states, k);
    GatherConcat(KeepUnseen(text), states[..k], [states[k]]);
    GatherOne(KeepUnseen(text), states[k]);
    UnseenMembers(states[..k], text, states[k]);
    DropNext(Unseen(states[..k], text), states, k);
  }

  lemma UnseenMembers(states: seq<string>, text: string, state: string)
    ensures state in Unseen(states, text) <==> state in states && !Contains(text, state)
  {
    GatherMembers(KeepUnseen(text), states, state);
  }

  /** Some notification shows the state. */
  predicate Shown(texts: seq<string>, state: string) {
    exists i :: 0 <= i < |texts| && Contains(texts[i], state)
  }

  lemma {:induction false} UnseenByAllMembers(states: seq<string>, texts: seq<string>, state: string)
    ensures state in UnseenByAll(states, texts) <==> state in states && !Shown(texts, state)
  {
    if texts != [] {
      var rest, last := texts[..|texts| - 1], texts[|texts| - 1];
      UnseenByAllMembers(states, rest, state);
      UnseenMembers(UnseenByAll(states, rest), last, state);
      if i :| 0 <= i < |texts| && Contains(texts[i], state) {
        assert i < |rest| ==> rest[i] == texts[i];
      }
      if i :| 0 <= i < |rest| && Contains(rest[i], state) {
        assert texts[i] == rest[i];
      }
    }
  }

  predicate AllShown(texts: seq<string>, states: seq<string>) {
    forall i :: 0 <= i < |states| ==> Shown(texts, states[i])
  }

  lemma {:induction false} UnseenByAllEmpty(states: seq<string>, texts: seq<string>)
    ensures UnseenByAll(states, texts) == [] <==> AllShown(texts, states)
  {
    var unseen := UnseenByAll(states, texts);
    if unseen != [] {
      UnseenByAllMembers(states, texts, unseen[0]);
      var i :| 0 <= i < |states| && states[i] == unseen[0];
      assert !Shown(texts, states[i]);
    }
    if !AllShown(texts, states) {
      var i :| 0 <= i < |states| && !Shown(texts, states[i]);
      UnseenByAllMembers(states, texts, states[i]);
    }
  }

  /** Every token opens some expected state. */
  lemma {:induction false} TokensWithinStates(current: seq<string>, tokens: seq<string>, token: string)
    requires token in current + tokens
    ensures exists s :: s in Gather(ChainStates, SplitFrom(current, tokens)) && Contains(s, token)
    decreases |tokens|
  {
    if tokens == [] {
      GatherOne(ChainStates, current);
      TokenWithinChain(current, token);
    } else {
      var next := current + [tokens[0]];
      if !IsTerminal(tokens[0]) {
        assert next + tokens[1..] == current + tokens;
        TokensWithinStates(next, tokens[1..], token);
      } else {
        var rest := SplitFrom([], tokens[1..]);
        GatherConcat(ChainStates, [next], rest);
        GatherOne(ChainStates, next);
        assert current + tokens == next + tokens[1..];
        if token in next {
          TokenWithinChain(next, token);
        } else {
          TokensWithinStates([], tokens[1..], token);
        }
      }
    }
  }

  lemma TokenWithinChain(chain: seq<string>, token: string)
    requires token in chain
    ensures exists s :: s in ChainStates(chain) && Contains(s, token)
  {
    var k :| 0 <= k < |chain| && chain[k] == token;
    if k == |chain| - 1 {
      ContainsSelf(token);
      assert State(chain, 0) == token && ChainStates(chain)[0] == token;
    } else {
      ContainsMiddle("", token, "\n" + State(chain, k));
      assert "" + token + ("\n" + State(chain, k)) == State(chain, k + 1);
      assert ChainStates(chain)[k + 1] == State(chain, k + 1);
    }
  }

  lemma {:induction false} TokenFollows(texts: seq<string>, tokens: seq<string>, token: string)
    requires AllShown(texts, ExpectedStates(tokens)) && token in tokens
    ensures Contains(Join(texts, ""), token)
  {
    assert [] + tokens == tokens;
    TokensWithinStates([], tokens, token);
    var s :| s in ExpectedStates(tokens) && Contains(s, token);
    var j :| 0 <= j < |ExpectedStates(tokens)| && ExpectedStates(tokens)[j] == s;
    var i :| 0 <= i < |texts| && Contains(texts[i], s);
    JoinContains(texts, "", i);
    ContainsTrans(texts[i], s, token);
    ContainsTrans(Join(texts, ""), texts[i], token);
  }

  /** When every state is shown, so is every token: the final check cannot fail. */
  lemma {:induction false} TokensFollow(texts: seq<string>, tokens: seq<string>)
    requires AllShown(texts, ExpectedStates(tokens))
    ensures AllIn(tokens, Join(texts, ""))
  {
    forall i | 0 <= i < |tokens| ensures Contains(Join(texts, ""), tokens[i]) {
      TokenFollows(texts, tokens, tokens[i]);
    }
  }

  /** Lines 309-313. */
  method RemoveAllSeen(states: seq<string>, texts: seq<string>) returns (remaining: seq<string>)
    ensures remaining == UnseenByAll(states, texts)
  {
    remaining := states;
    for i := 0 to |texts|
      invariant remaining == UnseenByAll(states, texts[..i])
    {
      assert texts[..i + 1][..i] == texts[..i];
      remaining := RemoveSeen(remaining, texts[i]);
    }
    assert texts[..|texts|] == texts;
  }

  /** `_verify_push_notification`: accepted exactly when every expected state is
      a substring of some notification. */
  method VerifyPushNotification(texts: seq<string>, tokens: seq<string>) returns (ok: bool)
    ensures ok <==> AllShown(texts, ExpectedStates(tokens))
  {
    var chains := SplitChains(tokens);
    var states := BuildStates(chains);
    var remaining := RemoveAllSeen(states, texts);
    UnseenByAllEmpty(states, texts);
    if remaining != [] {
      return false;
    }
    TokensFollow(texts, tokens);
    return AllIn(tokens, Join(texts, ""));
  }
}
