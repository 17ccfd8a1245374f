/** The notification store (notifications_app.py, lines 54-128), and what the
    push verdict means for a run whose notifications went through it. */
module Notifications {
  import opened Text
  import opened Sequences
  import opened Instructions
  import opened Suite
  import opened Execution
  import opened PushVerifier

  // ------------------------------------------------- the verdict, in terms of runs

  lemma {:induction false} StateOfChain(leg: Leg, root: string, options: HopOptions, s: string)
    ensures s in ChainStates(Chain(leg)) <==>
      s == Answer(leg.circuit, leg.transport) || s in Answers(CallsOf(root, leg.circuit, leg.transport, options))
  {
    StatesAreAnswers(leg, root, options);
    var answers := Answers(CallsOf(root, leg.circuit, leg.transport, options));
    ReverseMembers([Answer(leg.circuit, leg.transport)] + answers, s);
    InConcat([Answer(leg.circuit, leg.transport)], answers, s);
  }

  /** The expected states of a suite are the answers of its legs and of all the
      calls that running it makes. */
  lemma ExpectedAreAnswers(plan: seq<Leg>, root: string, options: HopOptions, s: string)
    ensures s in ExpectedStates(PlanTokens(plan)) <==>
      s in LegAnswers(plan) || s in Answers(PlanCalls(root, plan, options))
  {
    ChainsRecovered(plan);
    GatherMembers(ChainStates, PlanChains(plan), s);
    MapMembers(AnswerOf(), PlanCalls(root, plan, options), s);
    if chain :| chain in PlanChains(plan) && s in ChainStates(chain) {
      MapMembers(Chain, plan, chain);
      var leg :| leg in plan && Chain(leg) == chain;
      LegState(plan, leg, root, options, s);
    }
    if s in LegAnswers(plan) {
      var i :| 0 <= i < |plan| && LegAnswers(plan)[i] == s;
      LegState(plan, plan[i], root, options, s);
    }
    if c :| c in PlanCalls(root, plan, options) && c.answer == s {
      GatherMembers(LegCalls(root, options), plan, c);
      var leg :| leg in plan && c in LegCalls(root, options)(leg);
      MapMembers(AnswerOf(), LegCalls(root, options)(leg), s);
      LegState(plan, leg, root, options, s);
    }
  }

  lemma {:induction false} LegState(plan: seq<Leg>, leg: Leg, root: string, options: HopOptions, s: string)
    requires leg in plan
    ensures s in ChainStates(Chain(leg)) <==>
      s == Answer(leg.circuit, leg.transport) || s in Answers(CallsOf(root, leg.circuit, leg.transport, options))
    ensures s in ChainStates(Chain(leg)) ==>
      s in LegAnswers(plan) || s in Answers(PlanCalls(root, plan, options))
    ensures Chain(leg) in PlanChains(plan)
  {
    StateOfChain(leg, root, options, s);
    MapMembers(Chain, plan, Chain(leg));
    var i :| 0 <= i < |plan| && plan[i] == leg;
    assert LegAnswers(plan)[i] == Answer(leg.circuit, leg.transport);
    var calls := CallsOf(root, leg.circuit, leg.transport, options);
    MapMembers(AnswerOf(), calls, s);
    if c :| c in calls && c.answer == s {
      assert c in LegCalls(root, options)(leg);
      GatherMembers(LegCalls(root, options), plan, c);
      MapMembers(AnswerOf(), PlanCalls(root, plan, options), s);
    }
  }

  /** A push run is accepted exactly when each leg's answer and each nested
      call's answer shows in some notification. */
  lemma VerdictMeaning(plan: seq<Leg>, root: string, options: HopOptions, texts: seq<string>)
    ensures AllShown(texts, ExpectedStates(PlanTokens(plan))) <==>
      AllShown(texts, LegAnswers(plan)) && AllShown(texts, Answers(PlanCalls(root, plan, options)))
  {
    var states := ExpectedStates(PlanTokens(plan));
    var legs, calls := LegAnswers(plan), Answers(PlanCalls(root, plan, options));
    forall s ensures s in states <==> s in legs || s in calls {
      ExpectedAreAnswers(plan, root, options, s);
    }
    AllShownMembers(texts, states);
    AllShownMembers(texts, legs);
    AllShownMembers(texts, calls);
  }

  lemma AllShownMembers(texts: seq<string>, states: seq<string>)
    ensures AllShown(texts, states) <==> forall s :: s in states ==> Shown(texts, s)
  {
    assert forall i :: 0 <= i < |states| ==> states[i] in states;
  }

  /** Notifying every call's answer and the final one is enough. */
  lemma HonestRunAccepted(plan: seq<Leg>, root: string, options: HopOptions)
    ensures AllShown(Answers(PlanCalls(root, plan, options)) + [Join(LegAnswers(plan), "\n")],
                     ExpectedStates(PlanTokens(plan)))
  {
    var calls, legs := Answers(PlanCalls(root, plan, options)), LegAnswers(plan);
    var texts := calls + [Join(legs, "\n")];
    VerdictMeaning(plan, root, options, texts);
    forall i | 0 <= i < |legs| ensures Shown(texts, legs[i]) {
      JoinContains(legs, "\n", i);
      assert texts[|calls|] == Join(legs, "\n");
    }
    forall i | 0 <= i < |calls| ensures Shown(texts, calls[i]) {
      ContainsSelf(calls[i]);
      assert texts[i] == calls[i];
    }
  }

  // ----------------------------------------------------------------- the store

  /** Order does not matter to the verdict, only which texts there are. */
  lemma VerdictIgnoresOrder(a: seq<string>, b: seq<string>, states: seq<string>)
    requires multiset(a) == multiset(b)
    ensures AllShown(a, states) <==> AllShown(b, states)
  {
    forall s ensures Shown(a, s) <==> Shown(b, s) {
      ShownMembers(a, s);
      ShownMembers(b, s);
      forall t ensures t in a <==> t in b {
        assert t in a <==> t in multiset(a);
        assert t in b <==> t in multiset(b);
      }
    }
  }

  lemma ShownMembers(texts: seq<string>, s: string)
    ensures Shown(texts, s) <==> exists t :: t in texts && Contains(t, s)
  {
    if t :| t in texts && Contains(t, s) {
      var i :| 0 <= i < |texts| && texts[i] == t;
    }
    if i :| 0 <= i < |texts| && Contains(texts[i], s) {
      assert texts[i] in texts;
    }
  }

  /** Received notifications: task id and text, in arrival order. */
  type Received = seq<(string, string)>

  function TextFor(task: string): ((string, string)) -> seq<string> {
    (n: (string, string)) => if n.0 == task then [n.1] else []
  }

  /** The texts received for one task, oldest first. */
  function OfTask(received: Received, task: string): seq<string> {
    Gather(TextFor(task), received)
  }

  function PerTask(received: Received): string -> seq<string> {
    (task: string) => OfTask(received, task)
  }

  function TextsOf(received: Received, tasks: seq<string>): seq<string> {
    Gather(PerTask(received), tasks)
  }

  function Texts(received: Received): (r: seq<string>)
    ensures |r| == |received|
    ensures forall i {:trigger r[i]} :: 0 <= i < |r| ==> r[i] == received[i].1
  {
    seq(|received|, i requires 0 <= i < |received| => received[i].1)
  }

  lemma OneMore(received: Received, n: (string, string), task: string)
    ensures OfTask(received + [n], task) == OfTask(received, task) + (if n.0 == task then [n.1] else [])
  {
    GatherConcat(TextFor(task), received, [n]);
    GatherOne(TextFor(task), n);
  }

  lemma {:induction false} NothingFor(received: Received, task: string)
    requires forall i :: 0 <= i < |received| ==> received[i].0 != task
    ensures OfTask(received, task) == []
  {
    if received != [] {
      NothingFor(received[..|received| - 1], task);
    }
  }

  /** One more notification is one more text in its task's group. */
  lemma {:induction false} GroupGrows(received: Received, n: (string, string), tasks: seq<string>)
    requires NoDuplicates(tasks)
    ensures multiset(TextsOf(received + [n], tasks))
         == multiset(TextsOf(received, tasks)) + (if n.0 in tasks then multiset{n.1} else multiset{})
  {
    if tasks != [] {
      var rest, last := tasks[..|tasks| - 1], tasks[|tasks| - 1];
      assert tasks == rest + [last];
      GroupGrows(received, n, rest);
      OneMore(received, n, last);
    }
  }

  /** Grouping by task reorders what was received, no more. */
  lemma {:induction false} Regrouped(received: Received, tasks: seq<string>)
    requires NoDuplicates(tasks) && forall i :: 0 <= i < |received| ==> received[i].0 in tasks
    ensures multiset(TextsOf(received, tasks)) == multiset(Texts(received))
  {
    if received == [] {
      NoGroups(tasks);
    } else {
      var rest, n := received[..|received| - 1], received[|received| - 1];
      assert received == rest + [n];
      Regrouped(rest, tasks);
      GroupGrows(rest, n, tasks);
      assert Texts(received) == Texts(rest) + [n.1];
    }
  }

  lemma {:induction false} NoGroups(tasks: seq<string>)
    ensures TextsOf([], tasks) == []
  {
    if tasks != [] {
      NoGroups(tasks[..|tasks| - 1]);
    }
  }

  /** The dictionary's keys, in order, and its lists are those of what was received. */
  ghost predicate Filed(tasks: seq<string>, byTask: map<string, seq<string>>, received: Received) {
    && NoDuplicates(tasks)
    && (forall t :: t in byTask <==> t in tasks)
    && (forall t :: t in byTask ==> byTask[t] == OfTask(received, t))
    && (forall i :: 0 <= i < |received| ==> received[i].0 in tasks)
  }

  lemma FiledNew(tasks: seq<string>, byTask: map<string, seq<string>>, received: Received, task: string)
    requires Filed(tasks, byTask, received) && task !in byTask
    ensures Filed(tasks + [task], byTask[task := []], received)
  {
    NothingFor(received, task);
  }

  lemma FiledMore(tasks: seq<string>, byTask: map<string, seq<string>>, received: Received, task: string, text: string)
    requires Filed(tasks, byTask, received) && task in byTask
    ensures Filed(tasks, byTask[task := byTask[task] + [text]], received + [(task, text)])
  {
    forall t | t in byTask
      ensures OfTask(received + [(task, text)], t) == byTask[task := byTask[task] + [text]][t]
    {
      OneMore(received, (task, text), t);
    }
  }

  /** A dictionary from task id to notifications, in order of first arrival. */
  class NotificationStore {
    var tasks: seq<string>
    var byTask: map<string, seq<string>>
    ghost var received: Received

    ghost predicate Valid()
      reads this
    {
      Filed(tasks, byTask, received)
    }

    constructor ()
      ensures Valid() && received == []
    {
      tasks, byTask, received := [], map[], [];
    }

    /** Lines 88-119: a payload without a task id is turned away (status 400). */
    method Add(task: string, text: string) returns (accepted: bool)
      requires Valid()
      modifies this
      ensures Valid() && (accepted <==> task != "")
      ensures received == if accepted then old(received) + [(task, text)] else old(received)
    {
      if task == "" {
        return false;
      }
      if task !in byTask {
        FiledNew(tasks, byTask, received, task);
        tasks := tasks + [task];
        byTask := byTask[task := []];
      }
      FiledMore(tasks, byTask, received, task, text);
      byTask := byTask[task := byTask[task] + [text]];
      received := received + [(task, text)];
      return true;
    }

    /** Lines 121-128: grouped by task. */
    method ListAll() returns (texts: seq<string>)
      requires Valid()
      ensures texts == TextsOf(received, tasks)
      ensures multiset(texts) == multiset(Texts(received))
    {
      texts := [];
      for i := 0 to |tasks|
        invariant texts == TextsOf(received, tasks[..i])
      {
        TakeNext(tasks, i);
        GatherConcat(PerTask(received), tasks[..i], [tasks[i]]);
        GatherOne(PerTask(received), tasks[i]);
        texts := texts + byTask[tasks[i]];
      }
      assert tasks[..|tasks|] == tasks;
      Regrouped(received, tasks);
    }

    /** Lines 130-139. */
    method ListByTask(task: string) returns (texts: seq<string>)
      requires Valid()
      ensures texts == OfTask(received, task)
    {
      if task in byTask {
        texts := byTask[task];
      } else {
        NothingFor(received, task);
        texts := [];
      }
    }
  }
}
