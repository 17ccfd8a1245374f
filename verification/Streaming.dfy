/** Reading an agent's answer, whole or as a stream, and judging it
    (testlib.py, lines 160-207, 257-274 and 335-385). */
module Streaming {
  import opened Wrappers
  import opened Text
  import opened Stripping
  import opened Sequences
  import opened Instructions
  import opened Suite
  import opened Execution

  // ------------------------------------------------------ reading one response

  /** The parts of a message; each may hold a text. */
  type Parts = seq<Option<string>>

  datatype Message = Message(role: string, parts: Option<Parts>)

  datatype Status = Status(message: Option<Message>)

  datatype Task = Task(status: Option<Status>, history: Option<seq<Message>>)

  /** The fields of a JSON-RPC result that are looked at, present or not. */
  datatype Response = Response(parts: Option<Parts>, message: Option<Message>, status: Option<Status>,
                               task: Option<Task>, history: Option<seq<Message>>)

  function PartText(part: Option<string>): seq<string> {
    if part.Some? && part.value != "" then [part.value] else []
  }

  function PartsText(parts: Option<Parts>): seq<string> {
    if parts.Some? then Gather(PartText, parts.value) else []
  }

  /** Lines 170-182: the first place that holds a message. */
  function MessageParts(r: Response): Option<Parts> {
    if r.parts.Some? then r.parts
    else if r.message.Some? then r.message.value.parts
    else if r.status.Some? && r.status.value.message.Some? then r.status.value.message.value.parts
    else if r.task.Some? && r.task.value.status.Some? && r.task.value.status.value.message.Some? then
      r.task.value.status.value.message.value.parts
    else None
  }

  /** Lines 187-192. */
  function HistoryOf(r: Response): seq<Message> {
    if r.history.Some? then r.history.value
    else if r.task.Some? && r.task.value.history.Some? then r.task.value.history.value
    else []
  }

  function AgentText(m: Message): seq<string> {
    if m.role == "agent" || m.role == "ROLE_AGENT" then PartsText(m.parts) else []
  }

  function ResponseTexts(r: Response): seq<string> {
    PartsText(MessageParts(r)) + Gather(AgentText, HistoryOf(r))
  }

  // ------------------------------------------------------- what is extracted

  ghost predicate Says(parts: Option<Parts>, text: string) {
    parts.Some? && Some(text) in parts.value
  }

  ghost predicate StatusSays(status: Option<Status>, text: string) {
    status.Some? && status.value.message.Some? && Says(status.value.message.value.parts, text)
  }

  /** The first place that holds a message says `text`: the result itself, its
      message, its status, its task's status. */
  ghost predicate InPlace(r: Response, text: string) {
    || Says(r.parts, text)
    || (r.parts.None? && r.message.Some? && Says(r.message.value.parts, text))
    || (r.parts.None? && r.message.None? && StatusSays(r.status, text))
    || (r.parts.None? && r.message.None? && (r.status.Some? ==> r.status.value.message.None?)
        && r.task.Some? && StatusSays(r.task.value.status, text))
  }

  /** The history holds `m`: the result's own, or else its task's. */
  ghost predicate Remembers(r: Response, m: Message) {
    || (r.history.Some? && m in r.history.value)
    || (r.history.None? && r.task.Some? && r.task.value.history.Some? && m in r.task.value.history.value)
  }

  ghost predicate FromAgent(m: Message) {
    m.role in ["agent", "ROLE_AGENT"]
  }

  ghost predicate InHistory(r: Response, text: string) {
    exists m :: Remembers(r, m) && FromAgent(m) && Says(m.parts, text)
  }

  lemma PartsAreSaid(parts: Option<Parts>, text: string)
    ensures text in PartsText(parts) <==> text != "" && Says(parts, text)
  {
    if parts.Some? {
      GatherMembers(PartText, parts.value, text);
      if text != "" && Says(parts, text) {
        assert text in PartText(Some(text));
      }
    }
  }

  lemma HistoryIsSaid(r: Response, text: string)
    ensures text in Gather(AgentText, HistoryOf(r)) <==> text != "" && InHistory(r, text)
  {
    GatherMembers(AgentText, HistoryOf(r), text);
    forall m ensures m in HistoryOf(r) <==> Remembers(r, m) { }
    forall m ensures text in AgentText(m) <==> FromAgent(m) && text != "" && Says(m.parts, text) {
      PartsAreSaid(m.parts, text);
    }
  }

  /** What is extracted: the texts, other than empty ones, of the first place that
      holds a message and of the agent's messages in the history; of nobody else's. */
  lemma TextsAreSaid(r: Response, text: string)
    ensures text in ResponseTexts(r) <==> text != "" && (InPlace(r, text) || InHistory(r, text))
  {
    PartsAreSaid(MessageParts(r), text);
    HistoryIsSaid(r, text);
    InConcat(PartsText(MessageParts(r)), Gather(AgentText, HistoryOf(r)), text);
  }

  /** So a result in which only others speak comes out empty. */
  lemma OthersUnheard(r: Response)
    requires forall text :: !InPlace(r, text)
    requires forall m :: Remembers(r, m) ==> !FromAgent(m)
    ensures Join(ResponseTexts(r), "") == ""
  {
    if ResponseTexts(r) != [] {
      TextsAreSaid(r, ResponseTexts(r)[0]);
    }
  }

  /** One more message in a history adds its texts where it stands if it is the
      agent's, and nothing if it is not. */
  lemma HistoryInsert(a: seq<Message>, m: Message, b: seq<Message>)
    ensures Gather(AgentText, a + [m] + b)
         == Gather(AgentText, a) + (if FromAgent(m) then PartsText(m.parts) else []) + Gather(AgentText, b)
  {
    GatherConcat(AgentText, a + [m], b);
    GatherConcat(AgentText, a, [m]);
    GatherOne(AgentText, m);
  }

  /** One more part adds its text where it stands. */
  lemma PartsInsert(a: Parts, p: Option<string>, b: Parts)
    ensures PartsText(Some(a + [p] + b))
         == PartsText(Some(a)) + (if p in [None, Some("")] then [] else [p.value]) + PartsText(Some(b))
  {
    GatherConcat(PartText, a + [p], b);
    GatherConcat(PartText, a, [p]);
    GatherOne(PartText, p);
  }

  /** The place comes first, the history after it. */
  lemma PlaceThenHistory(r: Response)
    ensures var forgetful := r.(history := None,
                                task := if r.task.Some? then Some(r.task.value.(history := None)) else None);
      ResponseTexts(r) == ResponseTexts(forgetful) + Gather(AgentText, HistoryOf(r))
  {
    var forgetful := r.(history := None,
                        task := if r.task.Some? then Some(r.task.value.(history := None)) else None);
    assert MessageParts(forgetful) == MessageParts(r) && HistoryOf(forgetful) == [];
    assert ResponseTexts(forgetful) == PartsText(MessageParts(r)) + [];
  }

  method CollectParts(parts: Option<Parts>) returns (texts: seq<string>)
    ensures texts == PartsText(parts)
  {
    texts := [];
    if parts.Some? {
      for i := 0 to |parts.value|
        invariant texts == Gather(PartText, parts.value[..i])
      {
        TakeNext(parts.value, i);
        GatherConcat(PartText, parts.value[..i], [parts.value[i]]);
        GatherOne(PartText, parts.value[i]);
        if parts.value[i].Some? && parts.value[i].value != "" {
          texts := texts + [parts.value[i].value];
        }
      }
      assert parts.value[..|parts.value|] == parts.value;
    }
  }

  lemma AgentTextNext(history: seq<Message>, i: nat)
    requires i < |history|
    ensures Gather(AgentText, history[..i + 1]) == Gather(AgentText, history[..i]) + AgentText(history[i])
  {
    TakeNext(history, i);
    GatherConcat(AgentText, history[..i], [history[i]]);
    GatherOne(AgentText, history[i]);
  }

  /** Lines 194-196. */
  method CollectHistory(history: seq<Message>) returns (texts: seq<string>)
    ensures texts == Gather(AgentText, history)
  {
    texts := [];
    for i := 0 to |history|
      invariant texts == Gather(AgentText, history[..i])
    {
      var m := history[i];
      AgentTextNext(history, i);
      if m.role == "agent" || m.role == "ROLE_AGENT" {
        var more := CollectParts(m.parts);
        texts := texts + more;
      }
    }
    assert history[..|history|] == history;
  }

  /** `_extract_response_text`. */
  method ExtractResponseText(r: Response) returns (text: string)
    ensures text == Strip(Join(ResponseTexts(r), ""))
  {
    var responses := CollectParts(MessageParts(r));
    var past := CollectHistory(HistoryOf(r));
    return Strip(Join(responses + past, ""));
  }

  predicate AllTrimmed(tokens: seq<string>) {
    forall i :: 0 <= i < |tokens| ==> Trimmed(tokens[i])
  }

  /** `_verify_send_message`: for tokens that each lie within a trimmed one,
      stripping the response costs nothing. */
  method VerifySendMessage(r: Response, tokens: seq<string>) returns (ok: bool)
    ensures ok <==> AllIn(tokens, Strip(Join(ResponseTexts(r), "")))
    ensures Shielded(tokens) ==> (ok <==> AllIn(tokens, Join(ResponseTexts(r), "")))
  {
    var text := ExtractResponseText(r);
    if Shielded(tokens) {
      ShieldedSurvive(tokens, Join(ResponseTexts(r), ""));
    }
    ok := AllIn(tokens, text);
  }

  // -------------------------------------------------------- reading a stream

  /** One server-sent event: unreadable, without a result, or with its text. */
  datatype Event = Unreadable | NoResult | Delivered(text: string)

  function EventText(e: Event): seq<string> {
    if e.Delivered? && e.text != "" then [e.text] else []
  }

  /** What has been collected from some events, joined. */
  function Joined(events: seq<Event>): string {
    Join(Gather(EventText, events), "\n")
  }

  /** What is collected: the delivered texts that are not empty. */
  lemma CollectedIs(events: seq<Event>, text: string)
    ensures text in Gather(EventText, events) <==> text != "" && Delivered(text) in events
  {
    GatherMembers(EventText, events, text);
    if text != "" && Delivered(text) in events {
      assert text in EventText(Delivered(text));
    }
  }

  /** Any other event leaves no trace, wherever it comes. */
  lemma OthersSkipped(a: seq<Event>, e: Event, b: seq<Event>)
    requires e in [Unreadable, NoResult, Delivered("")]
    ensures Joined(a + [e] + b) == Joined(a + b)
  {
    GatherConcat(EventText, a + [e], b);
    GatherConcat(EventText, a, [e]);
    GatherConcat(EventText, a, b);
    GatherOne(EventText, e);
    assert Gather(EventText, a) + [] == Gather(EventText, a);
  }

  /** Lines 383-385. */
  function StreamResponse(text: string): Response {
    Response(None, None, Some(Status(Some(Message("", Some([Some(text)]))))), None, None)
  }

  /** The whole text comes back out of the response, stripped. */
  lemma StreamResponseText(text: string)
    ensures Join(ResponseTexts(StreamResponse(text)), "") == text
  {
    GatherOne(PartText, Some(text));
    var r := StreamResponse(text);
    assert Gather(AgentText, HistoryOf(r)) == [];
    assert ResponseTexts(r) == PartText(Some(text));
  }

  lemma CollectedNext(events: seq<Event>, i: nat)
    requires i < |events|
    ensures Gather(EventText, events[..i + 1]) == Gather(EventText, events[..i]) + EventText(events[i])
    ensures EventText(events[i]) == [] ==> Gather(EventText, events[..i + 1]) == Gather(EventText, events[..i])
  {
    TakeNext(events, i);
    GatherConcat(EventText, events[..i], [events[i]]);
    GatherOne(EventText, events[i]);
  }

  /** The loop looks after a delivery; all tokens have been seen by then. */
  ghost predicate Complete(events: seq<Event>, tokens: seq<string>, k: nat) {
    0 < k <= |events| && events[k - 1].Delivered? && AllIn(tokens, Joined(events[..k]))
  }

  ghost predicate NoneComplete(events: seq<Event>, tokens: seq<string>, n: nat) {
    forall k: nat :: k <= n ==> !Complete(events, tokens, k)
  }

  lemma NoneCompleteNext(events: seq<Event>, tokens: seq<string>, n: nat)
    ensures NoneComplete(events, tokens, n + 1) <==>
      NoneComplete(events, tokens, n) && !Complete(events, tokens, n + 1)
    ensures NoneComplete(events, tokens, |events|) ==> !exists k: nat :: Complete(events, tokens, k)
  {
  }

  /** What the loop sees after taking event `i`. */
  lemma LooksAt(events: seq<Event>, tokens: seq<string>, i: nat)
    requires i < |events|
    ensures Complete(events, tokens, i + 1) <==> events[i].Delivered? && AllIn(tokens, Joined(events[..i + 1]))
    ensures Joined(events[..i + 1]) == Join(Gather(EventText, events[..i]) + EventText(events[i]), "\n")
  {
    CollectedNext(events, i);
  }

  /** The collection loop. It stops at the first complete point, or at the end;
      `read` events were taken. */
  method ReadStream(events: seq<Event>, tokens: seq<string>) returns (r: Response, ghost read: nat, stopped: bool)
    ensures read <= |events| && r == StreamResponse(Joined(events[..read]))
    ensures stopped <==> exists k: nat :: Complete(events, tokens, k)
    ensures stopped ==> Complete(events, tokens, read) && read > 0 && NoneComplete(events, tokens, read - 1)
    ensures !stopped ==> read == |events|
  {
    var collected := [];
    for i := 0 to |events|
      invariant collected == Gather(EventText, events[..i])
      invariant NoneComplete(events, tokens, i)
    {
      CollectedNext(events, i);
      LooksAt(events, tokens, i);
      NoneCompleteNext(events, tokens, i);
      if events[i].Delivered? {
        if events[i].text != "" {
          collected := collected + [events[i].text];
        }
        var joined := Join(collected, "\n");
        if AllIn(tokens, joined) {
          return StreamResponse(joined), i + 1, true;
        }
      }
    }
    NoneCompleteNext(events, tokens, |events|);
    assert events[..|events|] == events;
    return StreamResponse(Join(collected, "\n")), |events|, false;
  }

  // ----------------------------------------------------- what the loop decides

  /** Joining more pieces only adds text. */
  lemma {:induction false} JoinGrows(a: seq<string>, b: seq<string>, token: string)
    requires Contains(Join(a, "\n"), token)
    ensures Contains(Join(a + b, "\n"), token)
  {
    if a == [] {
      assert token == "";
      ContainsEmpty(Join(a + b, "\n"));
    } else if b == [] {
      assert a + b == a;
    } else {
      JoinAppend(a, b, "\n");
      ContainsLonger(Join(a, "\n"), "\n", Join(b, "\n"), token);
    }
  }

  lemma JoinedGrows(events: seq<Event>, k: nat, n: nat, token: string)
    requires k <= n <= |events| && Contains(Joined(events[..k]), token)
    ensures Contains(Joined(events[..n]), token)
  {
    assert events[..n] == events[..k] + events[k..n];
    GatherConcat(EventText, events[..k], events[k..n]);
    JoinGrows(Gather(EventText, events[..k]), Gather(EventText, events[k..n]), token);
  }

  /** Reading further never turns accept into reject. */
  lemma AcceptanceKept(events: seq<Event>, tokens: seq<string>, k: nat, n: nat)
    requires k <= n <= |events| && AllIn(tokens, Joined(events[..k]))
    ensures AllIn(tokens, Joined(events[..n]))
  {
    forall i | 0 <= i < |tokens| ensures Contains(Joined(events[..n]), tokens[i]) {
      JoinedGrows(events, k, n, tokens[i]);
    }
  }

  /** If some real token has been seen, the last delivery that added text is a
      point where the loop looks. */
  lemma {:induction false} LastDelivery(events: seq<Event>, k: nat) returns (d: nat)
    requires k <= |events| && Gather(EventText, events[..k]) != []
    ensures 0 < d <= k && events[d - 1].Delivered? && Joined(events[..d]) == Joined(events[..k])
  {
    CollectedNext(events, k - 1);
    if EventText(events[k - 1]) != [] {
      d := k;
    } else {
      assert Gather(EventText, events[..k]) == Gather(EventText, events[..k - 1]);
      d := LastDelivery(events, k - 1);
    }
  }

  /** How many events the loop takes, from event `i` on: up to the first complete
      point, or all. */
  ghost function TakenFrom(events: seq<Event>, tokens: seq<string>, i: nat): (n: nat)
    requires i <= |events|
    ensures i <= n <= |events|
    decreases |events| - i
  {
    if i == |events| || Complete(events, tokens, i) then i else TakenFrom(events, tokens, i + 1)
  }

  /** The text that the loop hands to the judge. */
  ghost function Returned(events: seq<Event>, tokens: seq<string>): string {
    Joined(events[..TakenFrom(events, tokens, 0)])
  }

  ghost predicate StopsEarly(events: seq<Event>, tokens: seq<string>) {
    exists k: nat :: Complete(events, tokens, k)
  }

  /** The judge accepts what the loop returns. */
  ghost predicate Accepted(events: seq<Event>, tokens: seq<string>) {
    AllIn(tokens, Strip(Returned(events, tokens)))
  }

  lemma {:induction false} TakenIs(events: seq<Event>, tokens: seq<string>, i: nat, n: nat)
    requires i <= n <= |events| && (n == |events| || Complete(events, tokens, n))
    requires forall k: nat :: k < n ==> !Complete(events, tokens, k)
    ensures TakenFrom(events, tokens, i) == n
    decreases n - i
  {
    if i < n {
      TakenIs(events, tokens, i + 1, n);
    }
  }

  lemma {:induction false} TakenStops(events: seq<Event>, tokens: seq<string>, i: nat, k: nat)
    requires i <= k && Complete(events, tokens, k)
    ensures Complete(events, tokens, TakenFrom(events, tokens, i))
    decreases k - i
  {
    if !Complete(events, tokens, i) {
      TakenStops(events, tokens, i + 1, k);
    }
  }

  /** Some token is not empty. */
  predicate HasReal(tokens: seq<string>) {
    exists i :: 0 <= i < |tokens| && tokens[i] != ""
  }

  lemma StopMeansShown(events: seq<Event>, tokens: seq<string>)
    requires StopsEarly(events, tokens)
    ensures AllIn(tokens, Returned(events, tokens)) && AllIn(tokens, Joined(events))
  {
    var k: nat :| Complete(events, tokens, k);
    TakenStops(events, tokens, 0, k);
    AcceptanceKept(events, tokens, TakenFrom(events, tokens, 0), |events|);
    assert events[..|events|] == events;
  }

  lemma NoStopMeansMissing(events: seq<Event>, tokens: seq<string>)
    requires HasReal(tokens) && !StopsEarly(events, tokens)
    ensures Returned(events, tokens) == Joined(events) && !AllIn(tokens, Joined(events))
  {
    NothingComplete(events, tokens);
    TakenIs(events, tokens, 0, |events|);
    assert events[..|events|] == events;
  }

  /** For these tokens, the loop stops early if and only if the judge accepts what
      it returns, and if and only if the whole stream shows them all. */
  lemma AgreeOn(events: seq<Event>, tokens: seq<string>)
    requires Shielded(tokens) && HasReal(tokens)
    ensures StopsEarly(events, tokens) <==> Accepted(events, tokens)
    ensures StopsEarly(events, tokens) <==> AllIn(tokens, Joined(events))
  {
    ShieldedSurvive(tokens, Returned(events, tokens));
    if StopsEarly(events, tokens) {
      StopMeansShown(events, tokens);
    } else {
      NoStopMeansMissing(events, tokens);
    }
  }

  /** Loop and judge agree on every stream exactly for the lists in which each
      token lies within a trimmed one and some token is not empty. */
  lemma LoopAndJudgeAgree(tokens: seq<string>)
    ensures (forall events :: StopsEarly(events, tokens) <==> Accepted(events, tokens))
            <==> Shielded(tokens) && HasReal(tokens)
  {
    if !HasReal(tokens) {
      var events: seq<Event> := [];
      assert Returned(events, tokens) == "";
      forall i | 0 <= i < |tokens| ensures Contains("", tokens[i]) {
        ContainsEmpty("");
      }
      assert Accepted(events, tokens) && !StopsEarly(events, tokens);
    } else if !Shielded(tokens) {
      var text := LosingText(tokens);
      DeliveredAtOnce(text, tokens);
      assert StopsEarly([Delivered(text)], tokens) && !Accepted([Delivered(text)], tokens);
    } else {
      forall events ensures StopsEarly(events, tokens) <==> Accepted(events, tokens) {
        AgreeOn(events, tokens);
      }
    }
  }

  lemma DeliveredAtOnce(text: string, tokens: seq<string>)
    requires AllIn(tokens, text) && text != ""
    ensures StopsEarly([Delivered(text)], tokens) && Returned([Delivered(text)], tokens) == text
  {
    var events := [Delivered(text)];
    GatherOne(EventText, Delivered(text));
    assert events[..1] == events && Joined(events) == text;
    assert Complete(events, tokens, 1);
    TakenIs(events, tokens, 0, 1);
  }

  /** Read a stream and judge the answer, whatever the tokens. */
  method StreamAndVerify(events: seq<Event>, tokens: seq<string>) returns (stopped: bool, ok: bool)
    ensures stopped <==> StopsEarly(events, tokens)
    ensures ok <==> Accepted(events, tokens)
    ensures Shielded(tokens) && HasReal(tokens) ==> (ok <==> stopped) && (ok <==> AllIn(tokens, Joined(events)))
  {
    var r;
    ghost var read;
    r, read, stopped := ReadStream(events, tokens);
    ok := VerifySendMessage(r, tokens);
    StreamResponseText(Joined(events[..read]));
    TakenIs(events, tokens, 0, read);
    if Shielded(tokens) && HasReal(tokens) {
      AgreeOn(events, tokens);
    }
  }

  /** With a real token, a stream that never completes does not show them all. */
  lemma NothingComplete(events: seq<Event>, tokens: seq<string>)
    requires HasReal(tokens) && !StopsEarly(events, tokens)
    ensures !AllIn(tokens, Joined(events))
  {
    var i :| 0 <= i < |tokens| && tokens[i] != "";
    assert events[..|events|] == events;
    if Gather(EventText, events) == [] {
      assert !Contains("", tokens[i]);
    } else {
      var d := LastDelivery(events, |events|);
      assert !Complete(events, tokens, d);
    }
  }

  /** A token with a blank at its end, seen by the loop and missed by the judge. */
  lemma BlankEndDisagrees()
    ensures AllIn(["a "], Joined([Delivered("a ")])) && !AllIn(["a "], Strip(Joined([Delivered("a ")])))
    ensures StopsEarly([Delivered("a ")], ["a "]) && !Accepted([Delivered("a ")], ["a "])
  {
    GatherOne(EventText, Delivered("a "));
    assert Joined([Delivered("a ")]) == "a ";
    ContainsSelf("a ");
    assert "a "[..1] == "a" && Strip("a ") == "a";
    DeliveredAtOnce("a ", ["a "]);
  }

  // ------------------------------------------------------------ honest answers

  /** Hop tokens never have blanks at their ends; terminals only if the transport does. */
  lemma TokensTrimmed(plan: seq<Leg>)
    requires forall i :: 0 <= i < |plan| ==> Trimmed(plan[i].transport)
    ensures AllTrimmed(PlanTokens(plan))
  {
    var tokens := PlanTokens(plan);
    forall j | 0 <= j < |tokens| ensures Trimmed(tokens[j]) {
      assert tokens[j] in tokens;
      GatherMembers(Chain, plan, tokens[j]);
      var leg :| leg in plan && tokens[j] in Chain(leg);
      ChainTrimmed(leg, tokens[j]);
    }
  }

  lemma ChainTrimmed(leg: Leg, token: string)
    requires Trimmed(leg.transport) && token in Chain(leg)
    ensures Trimmed(token)
  {
    if token != Terminal(leg.transport) {
      var hops := HopTokens(leg.circuit, leg.transport);
      ReverseMembers(hops, token);
      var k :| 0 <= k < |hops| && hops[k] == token;
    } else if leg.transport != "" {
      assert token[|token| - 1] == leg.transport[|leg.transport| - 1];
    } else {
      assert token == "traversal-completed:";
    }
  }

  lemma RealTokens(plan: seq<Leg>)
    requires plan != []
    ensures HasReal(PlanTokens(plan))
  {
    var token := Terminal(plan[0].transport);
    assert token in Chain(plan[0]) && plan[0] in plan;
    GatherMembers(Chain, plan, token);
    var i :| 0 <= i < |PlanTokens(plan)| && PlanTokens(plan)[i] == token;
    assert PlanTokens(plan)[i] != "";
  }

  /** So for a suite over trimmed transports loop and judge agree on every stream. */
  lemma SuiteStreamAgrees(plan: seq<Leg>, events: seq<Event>)
    requires plan != [] && forall i :: 0 <= i < |plan| ==> Trimmed(plan[i].transport)
    ensures StopsEarly(events, PlanTokens(plan)) <==> Accepted(events, PlanTokens(plan))
    ensures StopsEarly(events, PlanTokens(plan)) <==> AllIn(PlanTokens(plan), Joined(events))
  {
    TokensTrimmed(plan);
    TrimmedIsShielded(PlanTokens(plan));
    RealTokens(plan);
    AgreeOn(events, PlanTokens(plan));
  }

  lemma AnswerHolds(leg: Leg, token: string)
    requires token in Chain(leg)
    ensures Contains(Answer(leg.circuit, leg.transport), token)
  {
    var hops := HopTokens(leg.circuit, leg.transport);
    var all := hops + [Terminal(leg.transport)];
    InConcat(Reverse(hops), [Terminal(leg.transport)], token);
    ReverseMembers(hops, token);
    InConcat(hops, [Terminal(leg.transport)], token);
    var k :| 0 <= k < |all| && all[k] == token;
    JoinContains(all, "\n", k);
  }

  /** The pieces of the suite's answer that come before the last terminal. */
  function EarlierParts(plan: seq<Leg>): seq<string>
    requires plan != []
  {
    var n := |plan| - 1;
    LegAnswers(plan[..n]) + HopTokens(plan[n].circuit, plan[n].transport)
  }

  /** What running the suite answers, before the transport that ends it. */
  function BeforeTransport(parts: seq<string>): string {
    Join(parts, "\n") + (if parts == [] then "" else "\n") + "traversal-completed:"
  }

  lemma AnswerEnds(plan: seq<Leg>)
    requires plan != []
    ensures Join(LegAnswers(plan), "\n") == BeforeTransport(EarlierParts(plan)) + plan[|plan| - 1].transport
  {
    var n := |plan| - 1;
    var before, hops := LegAnswers(plan[..n]), HopTokens(plan[n].circuit, plan[n].transport);
    var terminal := Terminal(plan[n].transport);
    assert LegAnswers(plan) == before + [Join(hops + [terminal], "\n")];
    JoinNested(before, hops + [terminal], "\n");
    assert before + (hops + [terminal]) == before + hops + [terminal];
    JoinLast(before + hops, terminal, "\n");
  }

  lemma JoinStarts(parts: seq<string>, sep: string)
    requires parts != [] && parts[0] != ""
    ensures Join(parts, sep) != "" && Join(parts, sep)[0] == parts[0][0]
  {
  }

  lemma BeforeTransportTrimmed(plan: seq<Leg>)
    requires plan != []
    ensures Trimmed(BeforeTransport(EarlierParts(plan)))
  {
    var n, parts := |plan| - 1, EarlierParts(plan);
    if parts != [] {
      if n > 0 {
        var tokens := HopTokens(plan[0].circuit, plan[0].transport) + [Terminal(plan[0].transport)];
        assert parts[0] == Join(tokens, "\n");
        JoinStarts(tokens, "\n");
      }
      JoinStarts(parts, "\n");
    }
  }

  lemma PartInside(parts: seq<string>, k: nat, token: string)
    requires k < |parts| && Contains(parts[k], token)
    ensures Contains(BeforeTransport(parts), token)
  {
    JoinContains(parts, "\n", k);
    ContainsTrans(Join(parts, "\n"), parts[k], token);
    ContainsLonger(Join(parts, "\n"), "\n", "traversal-completed:", token);
  }

  lemma HopIsPart(plan: seq<Leg>, token: string) returns (k: nat)
    requires plan != [] && token in Chain(plan[|plan| - 1]) && token != Terminal(plan[|plan| - 1].transport)
    ensures k < |EarlierParts(plan)| && EarlierParts(plan)[k] == token
  {
    var n := |plan| - 1;
    var hops := HopTokens(plan[n].circuit, plan[n].transport);
    InConcat(Reverse(hops), [Terminal(plan[n].transport)], token);
    ReverseMembers(hops, token);
    var h :| 0 <= h < |hops| && hops[h] == token;
    k := n + h;
  }

  /** Every token but the last terminal is in the answer before that. */
  lemma EarlierHolds(plan: seq<Leg>, i: nat, token: string)
    requires i < |plan| && token in Chain(plan[i])
    requires i < |plan| - 1 || token != Terminal(plan[i].transport)
    ensures Contains(BeforeTransport(EarlierParts(plan)), token)
  {
    if i < |plan| - 1 {
      AnswerHolds(plan[i], token);
      assert EarlierParts(plan)[i] == Answer(plan[i].circuit, plan[i].transport);
      PartInside(EarlierParts(plan), i, token);
    } else {
      var k := HopIsPart(plan, token);
      ContainsSelf(token);
      PartInside(EarlierParts(plan), k, token);
    }
  }

  /** What comes before the last transport survives stripping. */
  lemma EarlierKept(plan: seq<Leg>, token: string)
    requires plan != [] && Contains(BeforeTransport(EarlierParts(plan)), token)
    ensures Contains(Strip(Join(LegAnswers(plan), "\n")), token)
  {
    BeforeTransportTrimmed(plan);
    AnswerEnds(plan);
    BeginningSurvives(BeforeTransport(EarlierParts(plan)), plan[|plan| - 1].transport, token);
  }

  lemma LegOf(plan: seq<Leg>, token: string) returns (i: nat)
    requires token in PlanTokens(plan)
    ensures i < |plan| && token in Chain(plan[i])
  {
    GatherMembers(Chain, plan, token);
    var leg :| leg in plan && token in Chain(leg);
    i :| 0 <= i < |plan| && plan[i] == leg;
  }

  /** The answer of running the suite contains every token. Stripping it can cost
      only the last terminal, whose transport ends it. */
  lemma HonestAnswerHolds(plan: seq<Leg>, token: string)
    requires plan != [] && token in PlanTokens(plan)
    ensures Contains(Join(LegAnswers(plan), "\n"), token)
    ensures token == Terminal(plan[|plan| - 1].transport) || Contains(Strip(Join(LegAnswers(plan), "\n")), token)
  {
    var i := LegOf(plan, token);
    AnswerHolds(plan[i], token);
    JoinContains(LegAnswers(plan), "\n", i);
    ContainsTrans(Join(LegAnswers(plan), "\n"), LegAnswers(plan)[i], token);
    if token != Terminal(plan[|plan| - 1].transport) {
      EarlierHolds(plan, i, token);
      EarlierKept(plan, token);
    }
  }

  lemma AnswerUntouched(plan: seq<Leg>)
    requires plan != []
    ensures var answer, last := Join(LegAnswers(plan), "\n"), plan[|plan| - 1].transport;
      last == "" || !IsSpace(last[|last| - 1]) ==> Strip(answer) == answer
  {
    AnswerEnds(plan);
    BeforeTransportTrimmed(plan);
  }

  /** So it is accepted exactly when stripping leaves the last terminal, as it does
      when the last transport does not end in a blank. */
  lemma HonestAnswerAccepted(plan: seq<Leg>)
    requires plan != []
    ensures var answer, last := Join(LegAnswers(plan), "\n"), plan[|plan| - 1].transport;
      && AllIn(PlanTokens(plan), answer)
      && (AllIn(PlanTokens(plan), Strip(answer)) <==> Contains(Strip(answer), Terminal(last)))
      && (last == "" || !IsSpace(last[|last| - 1]) ==> AllIn(PlanTokens(plan), Strip(answer)))
  {
    var answer, last, tokens := Join(LegAnswers(plan), "\n"), plan[|plan| - 1], PlanTokens(plan);
    forall j | 0 <= j < |tokens|
      ensures Contains(answer, tokens[j])
      ensures tokens[j] == Terminal(last.transport) || Contains(Strip(answer), tokens[j])
    {
      assert tokens[j] in tokens;
      HonestAnswerHolds(plan, tokens[j]);
    }
    assert Terminal(last.transport) in Chain(last);
    GatherMembers(Chain, plan, Terminal(last.transport));
    AnswerUntouched(plan);
  }

  /** Any response that holds it, as a status message, as a message of the agent in
      the history or in another of the places read, is accepted. */
  lemma HonestResponseAccepted(plan: seq<Leg>, r: Response)
    requires plan != [] && forall i :: 0 <= i < |plan| ==> Trimmed(plan[i].transport)
    requires var answer := Join(LegAnswers(plan), "\n"); InPlace(r, answer) || InHistory(r, answer)
    ensures AllIn(PlanTokens(plan), Strip(Join(ResponseTexts(r), "")))
  {
    var answer, tokens, text := Join(LegAnswers(plan), "\n"), PlanTokens(plan), Join(ResponseTexts(r), "");
    AnswerEnds(plan);
    TextsAreSaid(r, answer);
    var k :| 0 <= k < |ResponseTexts(r)| && ResponseTexts(r)[k] == answer;
    JoinContains(ResponseTexts(r), "", k);
    HonestAnswerAccepted(plan);
    AllInWider(tokens, answer, text);
    TokensTrimmed(plan);
    TrimmedIsShielded(tokens);
    ShieldedSurvive(tokens, text);
  }

  lemma AllInWider(tokens: seq<string>, text: string, wider: string)
    requires AllIn(tokens, text) && Contains(wider, text)
    ensures AllIn(tokens, wider)
  {
    forall i | 0 <= i < |tokens| ensures Contains(wider, tokens[i]) {
      ContainsTrans(wider, text, tokens[i]);
    }
  }

  /** A transport that ends in a blank, walked by one agent alone: the honest answer
      is rejected. */
  lemma HonestAnswerLost(transport: string, root: string)
    requires transport != "" && IsSpace(transport[|transport| - 1])
    ensures var plan := [Leg(transport, [root])];
      !AllIn(PlanTokens(plan), Strip(Join(LegAnswers(plan), "\n")))
  {
    var plan := [Leg(transport, [root])];
    var token := Terminal(transport);
    assert HopTokens([root], transport) + [token] == [token];
    assert Join(LegAnswers(plan), "\n") == token;
    GatherOne(Chain, plan[0]);
    assert PlanTokens(plan)[0] == token;
    StripShortens(token);
  }
}
