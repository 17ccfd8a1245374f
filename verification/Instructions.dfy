/** Traversal instructions, what running one means, and the compiler from a
    circuit to a nested instruction (protos/instruction.proto;
    test_suite/__init__.py, lines 106-174). */
module Instructions {
  import opened Wrappers
  import opened Text
  import opened Sequences

  // ------------------------------------------------------------ instructions

  datatype Behavior = SendMessage | PushNotification(url: string) | Resubscribe | Unset

  /** The protobuf message; every series the engine builds concatenates. */
  datatype Instruction =
    | ReturnResponse(response: string, holdTask: bool)
    | CallAgent(cardUri: string, transport: string, streaming: bool, behavior: Behavior, instruction: Instruction)
    | SeriesOfSteps(instructions: seq<Instruction>)

  datatype Endpoint = Endpoint(httpPort: nat, grpcPort: nat)

  /** Which agents of this run listen where. */
  type AgentTable = map<string, Endpoint>

  /** `AgentTable.card_uri`. */
  function CardUri(agents: AgentTable, id: string): string
    requires id in agents
  {
    "http://127.0.0.1:" + Decimal(agents[id].httpPort)
  }

  ghost predicate DistinctPorts(agents: AgentTable) {
    forall a, b :: a in agents && b in agents && agents[a].httpPort == agents[b].httpPort ==> a == b
  }

  /** Agents on distinct ports have distinct card URIs. */
  lemma CardUriInjective(agents: AgentTable, a: string, b: string)
    requires DistinctPorts(agents) && a in agents && b in agents && CardUri(agents, a) == CardUri(agents, b)
    ensures a == b
  {
    var u, v := CardUri(agents, a), CardUri(agents, b);
    assert u[17..] == Decimal(agents[a].httpPort) && v[17..] == Decimal(agents[b].httpPort);
    DecimalInjective(agents[a].httpPort, agents[b].httpPort);
  }

  // --------------------------------------------- the meaning of an instruction

  /** One agent calling another, how, and what the call answered. */
  datatype Call = Call(caller: string, callee: string, transport: string, streaming: bool, behavior: Behavior,
                       answer: string)

  datatype Run = Answered(answers: seq<string>, calls: seq<Call>) | Unreachable

  /** Whose card a URI serves, if anyone's. */
  ghost function Owner(agents: AgentTable, uri: string): Option<string> {
    if exists id :: id in agents && CardUri(agents, id) == uri then
      var id :| id in agents && CardUri(agents, id) == uri;
      Some(id)
    else None
  }

  lemma OwnerOfCard(agents: AgentTable, id: string)
    requires DistinctPorts(agents) && id in agents
    ensures Owner(agents, CardUri(agents, id)) == Some(id)
  {
    forall other | other in agents && CardUri(agents, other) == CardUri(agents, id) ensures other == id {
      CardUriInjective(agents, other, id);
    }
  }

  /** Reference interpreter: `agent` carries out `inst`. A response is answered
      with its text, a call with what the callee answers, a series with the
      answers of its steps, one per line. */
  ghost function Execute(agents: AgentTable, agent: string, inst: Instruction): (r: Run)
    ensures r.Answered? ==> |r.answers| == 1
    decreases inst, 1
  {
    match inst
    case ReturnResponse(response, _) => Answered([response], [])
    case CallAgent(uri, transport, streaming, behavior, inner) =>
      (match Owner(agents, uri)
       case None => Unreachable
       case Some(callee) =>
         match Execute(agents, callee, inner)
         case Unreachable => Unreachable
         case Answered(answers, calls) =>
           Answered(answers, [Call(agent, callee, transport, streaming, behavior, answers[0])] + calls))
    case SeriesOfSteps(instructions) =>
      match ExecuteAll(agents, agent, instructions)
      case Unreachable => Unreachable
      case Answered(answers, calls) => Answered([Join(answers, "\n")], calls)
  }

  ghost function ExecuteAll(agents: AgentTable, agent: string, insts: seq<Instruction>): (r: Run)
    ensures r.Answered? ==> |r.answers| == |insts|
    decreases insts, 0
  {
    if insts == [] then Answered([], [])
    else
      match Execute(agents, agent, insts[0])
      case Unreachable => Unreachable
      case Answered(answer, calls) =>
        match ExecuteAll(agents, agent, insts[1..])
        case Unreachable => Unreachable
        case Answered(answers, more) => Answered(answer + answers, calls + more)
  }

  // ------------------------------------------------------------- the compiler

  datatype HopOptions = HopOptions(streaming: bool, behavior: string, notificationUrl: string)

  /** `[u -> v (transport)]`. */
  function HopToken(u: string, v: string, transport: string): string {
    "[" + u + " -> " + v + " (" + transport + ")]"
  }

  function Terminal(transport: string): string {
    "traversal-completed:" + transport
  }

  /** Lines 157-170: an unknown behaviour sets nothing. */
  function BehaviorOf(options: HopOptions): Behavior {
    if options.behavior == "push_notification" then PushNotification(options.notificationUrl)
    else if options.behavior == "send_message" then SendMessage
    else if options.behavior == "resubscribe" then Resubscribe
    else Unset
  }

  /** A trace token, as it is written. */
  lemma TokenFormat(u: string, v: string, transport: string)
    requires u == "a" && v == "b" && transport == "grpc"
    ensures HopToken(u, v, transport) == "[a -> b (grpc)]" && Terminal(transport) == "traversal-completed:grpc"
  {
  }

  /** `b` is what the scenario's behaviour asks a call to do. */
  ghost predicate Asked(b: Behavior, options: HopOptions) {
    && (options.behavior == "push_notification" <==> b == PushNotification(options.notificationUrl))
    && (options.behavior == "send_message" <==> b == SendMessage)
    && (options.behavior == "resubscribe" <==> b == Resubscribe)
    && (b == Unset || options.behavior in ["push_notification", "send_message", "resubscribe"])
  }

  /** Every call in `inst`, however deep, asks for that and streams as told; every
      response holds the task exactly for `resubscribe`. */
  ghost predicate Told(inst: Instruction, options: HopOptions) {
    match inst
    case ReturnResponse(_, hold) => hold <==> options.behavior == "resubscribe"
    case CallAgent(_, _, streaming, b, inner) =>
      streaming == options.streaming && Asked(b, options) && Told(inner, options)
    case SeriesOfSteps(insts) => forall i :: 0 <= i < |insts| ==> Told(insts[i], options)
  }

  lemma AskedOf(options: HopOptions)
    ensures Asked(BehaviorOf(options), options)
  {
    assert options.behavior == "push_notification" ==> options.behavior[0] == 'p';
    assert options.behavior == "send_message" ==> options.behavior[0] == 's';
    assert options.behavior == "resubscribe" ==> options.behavior[0] == 'r';
  }

  /** Every agent the circuit calls is listening. */
  predicate Callable(circuit: seq<string>, agents: AgentTable) {
    forall i :: 0 < i < |circuit| ==> circuit[i] in agents
  }

  /** The nested instruction of a circuit, outermost hop first. */
  function Compiled(circuit: seq<string>, transport: string, agents: AgentTable, options: HopOptions): Instruction
    requires Callable(circuit, agents)
  {
    var hold := options.behavior == "resubscribe";
    if |circuit| < 2 then ReturnResponse(Terminal(transport), hold)
    else
      SeriesOfSteps([
        ReturnResponse(HopToken(circuit[0], circuit[1], transport), hold),
        CallAgent(CardUri(agents, circuit[1]), transport, options.streaming, BehaviorOf(options),
                  Compiled(circuit[1..], transport, agents, options))])
  }

  /** The compiled instruction tells every agent on the way the same. */
  lemma {:induction false} CompiledTold(circuit: seq<string>, transport: string, agents: AgentTable,
                                        options: HopOptions)
    requires Callable(circuit, agents)
    ensures Told(Compiled(circuit, transport, agents, options), options)
    decreases |circuit|
  {
    if |circuit| >= 2 {
      AskedOf(options);
      CompiledTold(circuit[1..], transport, agents, options);
    }
  }

  /** The tokens of the hops in the order they are taken. */
  function HopTokens(circuit: seq<string>, transport: string): (r: seq<string>)
    ensures |r| == if |circuit| < 2 then 0 else |circuit| - 1
    ensures forall i {:trigger r[i]} :: 0 <= i < |r| ==> r[i] == HopToken(circuit[i], circuit[i + 1], transport)
  {
    if |circuit| < 2 then []
    else seq(|circuit| - 1, i requires 0 <= i < |circuit| - 1 => HopToken(circuit[i], circuit[i + 1], transport))
  }

  /** `_traversal_to_instruction`, wrapping hops from the last to the first. */
  method TraversalToInstruction(circuit: seq<string>, transport: string, agents: AgentTable, options: HopOptions)
    returns (r: Result<(Instruction, seq<string>)>)
    ensures r.Ok? <==> Callable(circuit, agents)
    ensures r.Ok? ==> r.value.0 == Compiled(circuit, transport, agents, options)
    ensures r.Ok? ==> r.value.1 == Reverse(HopTokens(circuit, transport))
    ensures r.Ok? ==> Told(r.value.0, options)
    ensures r.Err? ==> r.error == RuntimeError
  {
    var hold := options.behavior == "resubscribe";
    var current := ReturnResponse(Terminal(transport), hold);
    var tokens := [];
    var last := if circuit == [] then 0 else |circuit| - 1;
    assert HopTokens(circuit[last..], transport) == [];
    for i := last downto 0
      invariant Callable(circuit[i..], agents)
      invariant current == Compiled(circuit[i..], transport, agents, options)
      invariant tokens == Reverse(HopTokens(circuit[i..], transport))
    {
      var u, v := circuit[i], circuit[i + 1];
      SuffixStep(circuit, i, transport, agents);
      if v !in agents {
        assert circuit[i + 1] !in agents;
        return Err(RuntimeError);
      }
      tokens := tokens + [HopToken(u, v, transport)];
      current := SeriesOfSteps([
        ReturnResponse(HopToken(u, v, transport), hold),
        CallAgent(CardUri(agents, v), transport, options.streaming, BehaviorOf(options), current)]);
    }
    assert circuit[0..] == circuit;
    CompiledTold(circuit, transport, agents, options);
    return Ok((current, tokens));
  }

  lemma SuffixStep(circuit: seq<string>, i: nat, transport: string, agents: AgentTable)
    requires i + 1 < |circuit|
    ensures circuit[i..][1..] == circuit[i + 1..] && circuit[i..][0] == circuit[i] && circuit[i..][1] == circuit[i + 1]
    ensures Callable(circuit[i..], agents) <==> circuit[i + 1] in agents && Callable(circuit[i + 1..], agents)
    ensures Reverse(HopTokens(circuit[i..], transport))
         == Reverse(HopTokens(circuit[i + 1..], transport)) + [HopToken(circuit[i], circuit[i + 1], transport)]
  {
    var rest := circuit[i + 1..];
    assert circuit[i..] == [circuit[i]] + rest;
    CallableCons(circuit[i], rest, agents);
    HopTokensCons(circuit[i], rest, transport);
  }

  lemma CallableCons(u: string, rest: seq<string>, agents: AgentTable)
    requires rest != []
    ensures Callable([u] + rest, agents) <==> rest[0] in agents && Callable(rest, agents)
  {
    var now := [u] + rest;
    assert forall k :: 0 < k < |now| ==> now[k] == rest[k - 1];
    assert forall k :: 0 <= k < |rest| ==> rest[k] == now[k + 1];
  }

  lemma HopTokensCons(u: string, rest: seq<string>, transport: string)
    requires rest != []
    ensures HopTokens([u] + rest, transport) == [HopToken(u, rest[0], transport)] + HopTokens(rest, transport)
    ensures Reverse(HopTokens([u] + rest, transport))
         == Reverse(HopTokens(rest, transport)) + [HopToken(u, rest[0], transport)]
  {
    assert HopTokens([u] + rest, transport) == [HopToken(u, rest[0], transport)] + HopTokens(rest, transport);
  }

  // ------------------------------------------------- compilation keeps meaning

  /** What running a circuit answers: its hops in order, then the terminal. */
  function Answer(circuit: seq<string>, transport: string): string {
    Join(HopTokens(circuit, transport) + [Terminal(transport)], "\n")
  }

  /** The calls a circuit makes when `agent` is told to run it: the circuit's own
      hops, but the first is made by whoever received the instruction. Each is
      answered with what is left of the circuit. */
  function CallsOf(agent: string, circuit: seq<string>, transport: string, options: HopOptions): (r: seq<Call>)
    ensures |r| == if |circuit| < 2 then 0 else |circuit| - 1
    decreases |circuit|
  {
    if |circuit| < 2 then []
    else
      [Call(agent, circuit[1], transport, options.streaming, BehaviorOf(options), Answer(circuit[1..], transport))]
      + CallsOf(circuit[1], circuit[1..], transport, options)
  }

  lemma {:induction false} CallsAt(agent: string, circuit: seq<string>, transport: string, options: HopOptions, i: nat)
    requires i + 1 < |circuit|
    ensures CallsOf(agent, circuit, transport, options)[i]
         == Call(if i == 0 then agent else circuit[i], circuit[i + 1], transport, options.streaming,
                 BehaviorOf(options), Answer(circuit[i + 1..], transport))
    decreases |circuit|
  {
    if i > 0 {
      CallsAt(circuit[1], circuit[1..], transport, options, i - 1);
      assert circuit[1..][i..] == circuit[i + 1..];
    }
  }

  lemma {:induction false} CallAnswer(agent: string, circuit: seq<string>, transport: string, options: HopOptions,
                                      i: nat)
    requires i < |CallsOf(agent, circuit, transport, options)|
    ensures |CallsOf(agent, circuit, transport, options)| == |HopTokens(circuit, transport)|
    ensures CallsOf(agent, circuit, transport, options)[i].answer == Answer(circuit[i + 1..], transport)
  {
    CallsAt(agent, circuit, transport, options, i);
  }

  lemma AnswerCons(circuit: seq<string>, transport: string)
    requires |circuit| >= 2
    ensures Answer(circuit, transport)
         == Join([HopToken(circuit[0], circuit[1], transport), Answer(circuit[1..], transport)], "\n")
  {
    var rest := HopTokens(circuit[1..], transport) + [Terminal(transport)];
    var all := HopTokens(circuit, transport) + [Terminal(transport)];
    assert all == [HopToken(circuit[0], circuit[1], transport)] + rest;
    assert all[1..] == rest && rest != [];
  }

  /** Running the compiled circuit visits its agents in order and answers the
      hop tokens and the terminal, one per line, at every depth. */
  lemma {:induction false} CompilationMeaning(circuit: seq<string>, transport: string, agents: AgentTable,
                                              options: HopOptions, agent: string)
    requires Callable(circuit, agents) && DistinctPorts(agents)
    ensures Execute(agents, agent, Compiled(circuit, transport, agents, options))
         == Answered([Answer(circuit, transport)], CallsOf(agent, circuit, transport, options))
    decreases |circuit|
  {
    if |circuit| < 2 {
      assert HopTokens(circuit, transport) + [Terminal(transport)] == [Terminal(transport)];
    } else {
      var rest := circuit[1..];
      CompilationMeaning(rest, transport, agents, options, circuit[1]);
      OwnerOfCard(agents, circuit[1]);
      AnswerCons(circuit, transport);
      var insts := Compiled(circuit, transport, agents, options).instructions;
      ExecuteTwo(agents, agent, insts[0], insts[1]);
    }
  }

  /** What agents are told is what they do: in running any instruction. */
  lemma {:induction false} ToldIsDone(agents: AgentTable, agent: string, inst: Instruction, options: HopOptions)
    requires Told(inst, options) && Execute(agents, agent, inst).Answered?
    ensures forall c :: c in Execute(agents, agent, inst).calls ==>
      Asked(c.behavior, options) && c.streaming == options.streaming
    decreases inst, 1
  {
    match inst
    case ReturnResponse(_, _) =>
    case CallAgent(uri, _, _, _, inner) => ToldIsDone(agents, Owner(agents, uri).value, inner, options);
    case SeriesOfSteps(insts) => AllToldIsDone(agents, agent, insts, options);
  }

  lemma {:induction false} AllToldIsDone(agents: AgentTable, agent: string, insts: seq<Instruction>,
                                         options: HopOptions)
    requires forall i :: 0 <= i < |insts| ==> Told(insts[i], options)
    requires ExecuteAll(agents, agent, insts).Answered?
    ensures forall c :: c in ExecuteAll(agents, agent, insts).calls ==>
      Asked(c.behavior, options) && c.streaming == options.streaming
    decreases insts, 0
  {
    if insts != [] {
      ToldIsDone(agents, agent, insts[0], options);
      AllToldIsDone(agents, agent, insts[1..], options);
    }
  }

  lemma ExecuteTwo(agents: AgentTable, agent: string, a: Instruction, b: Instruction)
    requires Execute(agents, agent, a).Answered? && Execute(agents, agent, b).Answered?
    ensures ExecuteAll(agents, agent, [a, b])
         == Answered(Execute(agents, agent, a).answers + Execute(agents, agent, b).answers,
                     Execute(agents, agent, a).calls + Execute(agents, agent, b).calls)
  {
    assert [a, b][1..] == [b] && [b][1..] == [];
    assert ExecuteAll(agents, agent, []) == Answered([], []);
    assert ExecuteAll(agents, agent, [b]) == Execute(agents, agent, b);
  }
}
