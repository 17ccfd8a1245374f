/** Re-running skipped tests against a SUT started differently, and splicing the
    verdicts in (acts_runner.py, lines 350-477, 589-606 and 689-782). */
module Deviations {
  import opened Wrappers
  import opened Sequences
  import Combinations

  datatype TestResult = TestResult(id: string, outcome: string, skipReason: Option<string>,
                                   configuration: Option<string>)

  /** The keys of an agent card that the checks read. */
  type Card = set<string>

  /** A skip pattern answers with its capture, or `None` where it does not match. */
  type Pattern = string -> Option<string>

  datatype Deviation = Deviation(envVar: string, pattern: Pattern, refused: (Card, set<string>) -> bool)

  /** What one pass over a suite may come to: verdicts and a card, an
      `ActsRunError`, or any other exception. */
  datatype Outcome = Ran(results: seq<TestResult>, card: Card) | Failed | Raised

  /** Any SUT: it sees which pass this is, the instance dialled if it was started
      by the caller, the environment it inherits, and the tests. */
  type Pass = (nat, Option<string>, map<string, string>, seq<string>) -> Outcome

  function IdOf(): TestResult -> string {
    (r: TestResult) => r.id
  }

  function Ids(results: seq<TestResult>): seq<string> {
    Map(IdOf(), results)
  }

  /** What the runner promises of a pass: one unstamped result per test given. */
  ghost predicate Honest(tests: seq<string>, outcome: Outcome) {
    outcome.Ran? ==>
      && multiset(Ids(outcome.results)) == multiset(tests)
      && (forall i :: 0 <= i < |outcome.results| ==> outcome.results[i].configuration == None)
  }

  ghost predicate AlwaysHonest(pass: Pass) {
    forall n, url, env, tests :: Honest(tests, pass(n, url, env, tests))
  }

  // ------------------------------------------------------------ which skips match

  function Capture(r: TestResult, pattern: Pattern): Option<string> {
    pattern(if r.skipReason.Some? then r.skipReason.value else "")
  }

  /** Test ids to captures; the last result of an id decides. */
  function Matching(results: seq<TestResult>, pattern: Pattern): map<string, string> {
    if results == [] then map[]
    else
      var n := |results| - 1;
      var found := Matching(results[..n], pattern);
      if Capture(results[n], pattern).Some? then found[results[n].id := Capture(results[n], pattern).value] else found
  }

  /** `_skips_matching`. */
  method SkipsMatching(results: seq<TestResult>, pattern: Pattern) returns (found: map<string, string>)
    ensures found == Matching(results, pattern)
  {
    found := map[];
    for i := 0 to |results|
      invariant found == Matching(results[..i], pattern)
    {
      assert results[..i + 1][..i] == results[..i];
      var capture := Capture(results[i], pattern);
      if capture.Some? {
        found := found[results[i].id := capture.value];
      }
    }
    assert results[..|results|] == results;
  }

  lemma {:induction false} MatchingKeys(results: seq<TestResult>, pattern: Pattern, id: string)
    ensures id in Matching(results, pattern) <==>
      exists r :: r in results && r.id == id && Capture(r, pattern).Some?
  {
    if results != [] {
      var n := |results| - 1;
      MatchingKeys(results[..n], pattern, id);
      assert results == results[..n] + [results[n]];
    }
  }

  /** Why a result was skipped, as the patterns see it. */
  function Reason(r: TestResult): string {
    match r.skipReason
    case Some(reason) => reason
    case None => ""
  }

  /** Result `i` is the last of its id with a matching reason. */
  ghost predicate LastMatch(results: seq<TestResult>, pattern: Pattern, i: int) {
    && 0 <= i < |results| && pattern(Reason(results[i])).Some?
    && forall j :: i < j < |results| && results[j].id == results[i].id ==> pattern(Reason(results[j])).None?
  }

  /** A test's capture is that of the last of its results with a matching reason. */
  lemma {:induction false} MatchingExact(results: seq<TestResult>, pattern: Pattern, id: string, capture: string)
    ensures id in Matching(results, pattern) && Matching(results, pattern)[id] == capture <==>
      exists i :: LastMatch(results, pattern, i) && results[i].id == id && pattern(Reason(results[i])) == Some(capture)
  {
    if results != [] {
      var n := |results| - 1;
      var before := results[..n];
      MatchingExact(before, pattern, id, capture);
      forall i | 0 <= i < n && results[i].id == id
        ensures LastMatch(results, pattern, i) <==>
          LastMatch(before, pattern, i) && (results[n].id == id ==> pattern(Reason(results[n])).None?)
      {
        LastMatchNext(results, pattern, i);
      }
      if pattern(Reason(results[n])).Some? {
        assert LastMatch(results, pattern, n);
      }
    }
  }

  lemma LastMatchNext(results: seq<TestResult>, pattern: Pattern, i: int)
    requires 0 <= i < |results| - 1
    ensures var n := |results| - 1;
      LastMatch(results, pattern, i) <==>
        LastMatch(results[..n], pattern, i) && (results[n].id == results[i].id ==> pattern(Reason(results[n])).None?)
  {
    var n := |results| - 1;
    assert forall j :: 0 <= j < n ==> results[..n][j] == results[j];
  }

  /** When ids are distinct, a result is selected by its own reason. */
  lemma {:induction false} MatchesItself(results: seq<TestResult>, pattern: Pattern, i: nat)
    requires i < |results| && NoDuplicates(Ids(results))
    ensures results[i].id in Matching(results, pattern) <==> Capture(results[i], pattern).Some?
  {
    MatchingKeys(results, pattern, results[i].id);
    if r :| r in results && r.id == results[i].id && Capture(r, pattern).Some? {
      var j :| 0 <= j < |results| && results[j] == r;
      assert Ids(results)[j] == Ids(results)[i];
    }
    if Capture(results[i], pattern).Some? {
      assert results[i] in results;
    }
  }

  // ------------------------------------------------------------------ the splice

  /** Lines 778-781; a later verdict of the same id wins. */
  function Replacement(rerun: seq<TestResult>, envVar: string): map<string, TestResult> {
    if rerun == [] then map[]
    else
      var n := |rerun| - 1;
      Replacement(rerun[..n], envVar)[rerun[n].id := rerun[n].(configuration := Some(envVar))]
  }

  function ReplacedBy(replacement: map<string, TestResult>): TestResult -> TestResult {
    (r: TestResult) => if r.id in replacement then replacement[r.id] else r
  }

  function Splice(results: seq<TestResult>, rerun: seq<TestResult>, envVar: string): seq<TestResult> {
    Map(ReplacedBy(Replacement(rerun, envVar)), results)
  }

  /** `v` is the last verdict of its test. */
  ghost predicate LastVerdict(rerun: seq<TestResult>, v: TestResult) {
    exists j :: 0 <= j < |rerun| && rerun[j] == v && NotAfter(rerun, v.id, j)
  }

  ghost predicate NotAfter(rerun: seq<TestResult>, id: string, j: nat) {
    forall l :: j < l < |rerun| ==> rerun[l].id != id
  }

  lemma VerdictNow(rerun: seq<TestResult>, v: TestResult)
    ensures LastVerdict(rerun + [v], v)
  {
    assert (rerun + [v])[|rerun|] == v && NotAfter(rerun + [v], v.id, |rerun|);
  }

  lemma VerdictBefore(rerun: seq<TestResult>, v: TestResult, w: TestResult)
    requires LastVerdict(rerun, v) && w.id != v.id
    ensures LastVerdict(rerun + [w], v)
  {
    var j :| 0 <= j < |rerun| && rerun[j] == v && NotAfter(rerun, v.id, j);
    assert (rerun + [w])[j] == v && NotAfter(rerun + [w], v.id, j);
  }

  /** The verdict that replaces a result of `id`. */
  lemma {:induction false} ReplacementIs(rerun: seq<TestResult>, envVar: string, id: string) returns (v: TestResult)
    requires id in Replacement(rerun, envVar)
    ensures LastVerdict(rerun, v) && v.id == id && Replacement(rerun, envVar)[id] == v.(configuration := Some(envVar))
  {
    var n := |rerun| - 1;
    assert rerun == rerun[..n] + [rerun[n]];
    if rerun[n].id == id {
      v := rerun[n];
      VerdictNow(rerun[..n], v);
    } else {
      v := ReplacementIs(rerun[..n], envVar, id);
      VerdictBefore(rerun[..n], v, rerun[n]);
    }
  }

  lemma {:induction false} ReplacementKeys(rerun: seq<TestResult>, envVar: string, id: string)
    ensures id in Replacement(rerun, envVar) <==> id in Ids(rerun)
  {
    if rerun != [] {
      var n := |rerun| - 1;
      ReplacementKeys(rerun[..n], envVar, id);
      assert Ids(rerun) == Ids(rerun[..n]) + [rerun[n].id];
    }
  }

  function Keep(ids: set<string>): string -> seq<string> {
    (t: string) => if t in ids then [t] else []
  }

  /** `[t for t in suite.tests if t.id in blocked]`. */
  function Narrowed(suite: seq<string>, ids: set<string>): seq<string> {
    Gather(Keep(ids), suite)
  }

  /** The tests named, as often and in the order that the suite has them. */
  lemma {:induction false} NarrowedExact(suite: seq<string>, ids: set<string>, t: string)
    ensures multiset(Narrowed(suite, ids))[t] == if t in ids then multiset(suite)[t] else 0
    ensures Combinations.IsSublist(Narrowed(suite, ids), suite)
  {
    if suite != [] {
      var rest, last := suite[..|suite| - 1], suite[|suite| - 1];
      assert suite == rest + [last];
      NarrowedExact(rest, ids, t);
      Combinations.SublistSnoc(Narrowed(rest, ids), rest, last);
      assert Narrowed(rest, ids) + [] == Narrowed(rest, ids);
    }
  }

  ghost predicate Within(results: seq<TestResult>, suite: seq<string>) {
    forall i :: 0 <= i < |results| ==> results[i].id in suite
  }

  /** Result `i` before and after a splice for `envVar`: replaced, under the same
      id, by what the pass said of it, if `blocked` names it; else untouched. */
  ghost predicate SplicedAt(r: TestResult, s: TestResult, blocked: set<string>, rerun: seq<TestResult>,
                            envVar: string)
  {
    if r.id in blocked then
      && s.id == r.id && s.configuration == Some(envVar)
      && exists v :: LastVerdict(rerun, v) && v.id == r.id && s == v.(configuration := Some(envVar))
    else s == r
  }

  /** A splice replaces every blocked result and nothing else. */
  lemma SpliceExact(results: seq<TestResult>, suite: seq<string>, blocked: set<string>, rerun: seq<TestResult>,
                    card: Card, envVar: string, i: nat)
    requires Within(results, suite) && i < |results|
    requires Honest(Narrowed(suite, blocked), Ran(rerun, card))
    ensures SplicedAt(results[i], Splice(results, rerun, envVar)[i], blocked, rerun, envVar)
  {
    var id := results[i].id;
    ReplacementKeys(rerun, envVar, id);
    GatherMembers(Keep(blocked), suite, id);
    assert id in Ids(rerun) <==> id in multiset(Ids(rerun));
    assert id in Narrowed(suite, blocked) <==> id in multiset(Narrowed(suite, blocked));
    assert id in blocked <==> id in Narrowed(suite, blocked);
    if id in blocked {
      var v := ReplacementIs(rerun, envVar, id);
    }
  }

  // ------------------------------------------------------------- one deviation

  /** The process environment. */
  class Environment {
    var vars: map<string, string>

    constructor (initial: map<string, string>)
      ensures vars == initial
    {
      vars := initial;
    }

    /** `_sut_env` up to its `yield`. */
    method Enter(name: string) returns (previous: Option<string>)
      modifies this
      ensures vars == old(vars)[name := "1"]
      ensures previous == if name in old(vars) then Some(old(vars)[name]) else None
    {
      previous := if name in vars then Some(vars[name]) else None;
      vars := vars[name := "1"];
    }

    /** Its `finally`. */
    method Leave(name: string, previous: Option<string>)
      modifies this
      ensures vars == if previous.None? then old(vars) - {name} else old(vars)[name := previous.value]
    {
      if previous.None? {
        vars := vars - {name};
      } else {
        vars := vars[name := previous.value];
      }
    }
  }

  /** What the pass for `d` came to; nothing is run when nothing is blocked. */
  function Attempt(results: seq<TestResult>, suite: seq<string>, d: Deviation, url: Option<string>, n: nat,
                   env: map<string, string>, pass: Pass): Outcome
  {
    var blocked := Matching(results, d.pattern);
    if blocked == map[] then Failed
    else pass(n, url, if url.None? then env[d.envVar := "1"] else env, Narrowed(suite, blocked.Keys))
  }

  /** The verdicts to splice in, if the pass ran and the card shows it took effect. */
  function Accepted(results: seq<TestResult>, d: Deviation, outcome: Outcome): Option<seq<TestResult>> {
    if outcome.Ran? && !d.refused(outcome.card, Matching(results, d.pattern).Values) then Some(outcome.results)
    else None
  }

  /** `_rerun_deviation`; `None` where an exception other than `ActsRunError`
      leaves it. Whatever happens, the environment is as it was. */
  method RerunDeviation(env: Environment, results: seq<TestResult>, suite: seq<string>, d: Deviation,
                        url: Option<string>, n: nat, pass: Pass)
    returns (r: Option<seq<TestResult>>)
    modifies env
    ensures env.vars == old(env.vars)
    ensures var outcome := Attempt(results, suite, d, url, n, old(env.vars), pass);
      r == if outcome.Raised? then None
           else if Accepted(results, d, outcome).Some? then
             Some(Splice(results, Accepted(results, d, outcome).value, d.envVar))
           else Some(results)
  {
    var blocked := SkipsMatching(results, d.pattern);
    if blocked == map[] {
      return Some(results);
    }
    var narrowed := Narrowed(suite, blocked.Keys);
    var outcome;
    if url.None? {
      var previous := env.Enter(d.envVar);
      outcome := pass(n, url, env.vars, narrowed);
      env.Leave(d.envVar, previous);
    } else {
      outcome := pass(n, url, env.vars, narrowed);
    }
    match outcome {
      case Raised => return None;
      case Failed => return Some(results);
      case Ran(rerun, card) =>
        if d.refused(card, blocked.Values) {
          return Some(results);
        }
        return Some(Splice(results, rerun, d.envVar));
    }
  }

  // -------------------------------------------------------------- a whole run

  /** The results after each deviation, and what its pass came to. */
  datatype History = History(states: seq<seq<TestResult>>, outcomes: seq<Outcome>)

  /** The results after a pass that came to `outcome`. */
  function Settled(results: seq<TestResult>, d: Deviation, outcome: Outcome): seq<TestResult> {
    var accepted := Accepted(results, d, outcome);
    if accepted.Some? then Splice(results, accepted.value, d.envVar) else results
  }

  /** One pass: honest over the tests blocked at that moment. */
  ghost predicate IsStep(suite: seq<string>, d: Deviation, before: seq<TestResult>, outcome: Outcome,
                         after: seq<TestResult>)
  {
    && !outcome.Raised? && after == Settled(before, d, outcome)
    && Honest(Narrowed(suite, Matching(before, d.pattern).Keys), outcome)
  }

  ghost predicate IsHistory(suite: seq<string>, deviations: seq<Deviation>, h: History) {
    && |h.states| == |deviations| + 1 && |h.outcomes| == |deviations|
    && multiset(Ids(h.states[0])) == multiset(suite)
    && (forall i :: 0 <= i < |h.states[0]| ==> h.states[0][i].configuration == None)
    && forall k :: 0 <= k < |deviations| ==> IsStep(suite, deviations[k], h.states[k], h.outcomes[k], h.states[k + 1])
  }

  /** How a run meets its SUTs: `sutUrl` and `urls` name instances the caller
      started. */
  datatype Setup = Setup(suite: seq<string>, sutUrl: Option<string>, urls: map<string, string>,
                         deviations: seq<Deviation>, pass: Pass)
  {
    function UrlOf(d: Deviation): Option<string> {
      if d.envVar in urls then Some(urls[d.envVar]) else None
    }

    /** An external run passes by a deviation it has no instance for. */
    function AttemptAt(k: nat, results: seq<TestResult>, env: map<string, string>): Outcome
      requires k < |deviations|
    {
      var d := deviations[k];
      if sutUrl.Some? && UrlOf(d).None? then Failed else Attempt(results, suite, d, UrlOf(d), k + 1, env, pass)
    }

    /** What the history says of each pass is what the SUT did. */
    ghost predicate Witnessed(h: History, env: map<string, string>) {
      && |h.outcomes| <= |deviations| && |h.states| == |h.outcomes| + 1
      && (forall k :: 0 <= k < |h.outcomes| ==> h.outcomes[k] == AttemptAt(k, h.states[k], env))
      && pass(0, sutUrl, env, suite).Ran? && h.states[0] == pass(0, sutUrl, env, suite).results
    }
  }

  /** Lines 445-467, for one deviation: an external SUT without an instance for it is
      passed by. */
  method NextDeviation(env: Environment, s: Setup, k: nat, results: seq<TestResult>)
    returns (next: Option<seq<TestResult>>)
    requires k < |s.deviations|
    modifies env
    ensures env.vars == old(env.vars)
    ensures var outcome := s.AttemptAt(k, results, old(env.vars));
      next == if outcome.Raised? then None else Some(Settled(results, s.deviations[k], outcome))
  {
    var d := s.deviations[k];
    if s.sutUrl.Some? && s.UrlOf(d).None? {
      return Some(results);
    }
    next := RerunDeviation(env, results, s.suite, d, s.UrlOf(d), k + 1, s.pass);
  }

  /** `run`, from the main pass on. It fails only if the main pass does, or if a
      deviation raises something other than an `ActsRunError`. */
  method Run(env: Environment, s: Setup) returns (r: Option<seq<TestResult>>, ghost h: History)
    requires AlwaysHonest(s.pass) && (s.sutUrl.None? ==> s.urls == map[])
    modifies env
    ensures env.vars == old(env.vars)
    ensures r.Some? ==> IsHistory(s.suite, s.deviations, h) && s.Witnessed(h, env.vars)
    ensures r.Some? ==> r.value == h.states[|s.deviations|]
    ensures r.None? && s.pass(0, s.sutUrl, env.vars, s.suite).Ran? ==>
      var k := |h.outcomes|;
      && k < |s.deviations| && IsHistory(s.suite, s.deviations[..k], h) && s.Witnessed(h, env.vars)
      && s.AttemptAt(k, h.states[k], env.vars).Raised?
  {
    var main := s.pass(0, s.sutUrl, env.vars, s.suite);
    assert Honest(s.suite, main);
    h := History([], []);
    if !main.Ran? {
      return None, h;
    }
    var results := main.results;
    h := History([results], []);
    for k := 0 to |s.deviations|
      invariant env.vars == old(env.vars)
      invariant IsHistory(s.suite, s.deviations[..k], h) && s.Witnessed(h, env.vars) && results == h.states[k]
    {
      var next := NextDeviation(env, s, k, results);
      if next.None? {
        return None, h;
      }
      OnePassMore(s, h, env.vars, next.value);
      h := History(h.states + [next.value], h.outcomes + [s.AttemptAt(k, results, env.vars)]);
      results := next.value;
    }
    assert s.deviations[..|s.deviations|] == s.deviations;
    return Some(results), h;
  }

  lemma WitnessGrows(s: Setup, h: History, env: map<string, string>, after: seq<TestResult>)
    requires s.Witnessed(h, env) && |h.outcomes| < |s.deviations|
    ensures var k := |h.outcomes|;
      s.Witnessed(History(h.states + [after], h.outcomes + [s.AttemptAt(k, h.states[k], env)]), env)
  {
  }

  lemma AttemptHonest(s: Setup, k: nat, results: seq<TestResult>, env: map<string, string>)
    requires AlwaysHonest(s.pass) && k < |s.deviations|
    ensures Honest(Narrowed(s.suite, Matching(results, s.deviations[k].pattern).Keys), s.AttemptAt(k, results, env))
  {
    var d := s.deviations[k];
    var tests := Narrowed(s.suite, Matching(results, d.pattern).Keys);
    assert Honest(tests, s.pass(k + 1, s.UrlOf(d), if s.UrlOf(d).None? then env[d.envVar := "1"] else env, tests));
  }

  lemma OnePassMore(s: Setup, h: History, env: map<string, string>, after: seq<TestResult>)
    requires AlwaysHonest(s.pass) && s.Witnessed(h, env) && |h.outcomes| < |s.deviations|
    requires IsHistory(s.suite, s.deviations[..|h.outcomes|], h)
    requires var k := |h.outcomes|; var outcome := s.AttemptAt(k, h.states[k], env);
      !outcome.Raised? && after == Settled(h.states[k], s.deviations[k], outcome)
    ensures var k := |h.outcomes|;
      var g := History(h.states + [after], h.outcomes + [s.AttemptAt(k, h.states[k], env)]);
      IsHistory(s.suite, s.deviations[..k + 1], g) && s.Witnessed(g, env)
  {
    var k := |h.outcomes|;
    AttemptHonest(s, k, h.states[k], env);
    WitnessGrows(s, h, env, after);
    HistoryGrows(s.suite, s.deviations, k, h, s.AttemptAt(k, h.states[k], env), after);
  }

  lemma HistoryGrows(suite: seq<string>, deviations: seq<Deviation>, k: nat, h: History, outcome: Outcome,
                     after: seq<TestResult>)
    requires k < |deviations| && IsHistory(suite, deviations[..k], h)
    requires IsStep(suite, deviations[k], h.states[k], outcome, after)
    ensures IsHistory(suite, deviations[..k + 1], History(h.states + [after], h.outcomes + [outcome]))
  {
    var g := History(h.states + [after], h.outcomes + [outcome]);
    forall j | 0 <= j < k + 1
      ensures IsStep(suite, deviations[..k + 1][j], g.states[j], g.outcomes[j], g.states[j + 1])
    {
      if j < k {
        assert deviations[..k][j] == deviations[..k + 1][j];
      }
    }
  }

  // ------------------------------------------------------- what any run keeps

  /** After any number of passes, the results are those of the same tests in the
      same order. */
  lemma {:induction false} IdsKept(suite: seq<string>, deviations: seq<Deviation>, h: History, k: nat)
    requires IsHistory(suite, deviations, h) && k <= |deviations|
    ensures Ids(h.states[k]) == Ids(h.states[0]) && |h.states[k]| == |h.states[0]|
    ensures Within(h.states[k], suite)
  {
    if k == 0 {
      forall i | 0 <= i < |h.states[0]| ensures h.states[0][i].id in suite {
        assert Ids(h.states[0])[i] in multiset(Ids(h.states[0]));
      }
    } else {
      IdsKept(suite, deviations, h, k - 1);
      assert IsStep(suite, deviations[k - 1], h.states[k - 1], h.outcomes[k - 1], h.states[k]);
      var before, after := h.states[k - 1], h.states[k];
      forall i | 0 <= i < |before| ensures after[i].id == before[i].id {
        StepAt(suite, deviations, h, k - 1, i);
      }
      assert Ids(after) == Ids(before);
      forall i | 0 <= i < |after| ensures after[i].id in suite {
        assert before[i].id in suite;
      }
    }
  }

  /** The verdicts that pass `k` of a history spliced in, if any. */
  function Spliced(deviations: seq<Deviation>, h: History, k: nat): Option<seq<TestResult>>
    requires k < |deviations| && k < |h.states| && k < |h.outcomes|
  {
    Accepted(h.states[k], deviations[k], h.outcomes[k])
  }

  /** One result across one pass. */
  lemma StepAt(suite: seq<string>, deviations: seq<Deviation>, h: History, k: nat, i: nat)
    requires IsHistory(suite, deviations, h) && k < |deviations|
    requires Within(h.states[k], suite) && i < |h.states[k]|
    ensures |h.states[k + 1]| == |h.states[k]|
    ensures if Spliced(deviations, h, k).None? then h.states[k + 1][i] == h.states[k][i]
            else SplicedAt(h.states[k][i], h.states[k + 1][i], Matching(h.states[k], deviations[k].pattern).Keys,
                           Spliced(deviations, h, k).value, deviations[k].envVar)
  {
    assert IsStep(suite, deviations[k], h.states[k], h.outcomes[k], h.states[k + 1]);
    if Spliced(deviations, h, k).Some? {
      SpliceExact(h.states[k], suite, Matching(h.states[k], deviations[k].pattern).Keys, h.outcomes[k].results,
                  h.outcomes[k].card, deviations[k].envVar, i);
    }
  }

  /** A result changes in a pass only if that pass claimed its test, and then all
      that the pass claimed change together. */
  lemma ChangedMeansClaimed(suite: seq<string>, deviations: seq<Deviation>, h: History, k: nat, i: nat)
    requires IsHistory(suite, deviations, h) && k < |deviations| && i < |h.states[0]|
    ensures |h.states[k]| == |h.states[k + 1]| == |h.states[0]|
    ensures h.states[k + 1][i] != h.states[k][i] ==>
      h.states[k][i].id in Matching(h.states[k], deviations[k].pattern)
    ensures NoDuplicates(suite) && h.states[k + 1][i] != h.states[k][i] ==>
      Capture(h.states[k][i], deviations[k].pattern).Some?
    ensures NoDuplicates(suite) && Spliced(deviations, h, k).Some? ==>
      Capture(h.states[k][i], deviations[k].pattern).Some? ==>
      h.states[k + 1][i].configuration == Some(deviations[k].envVar)
  {
    IdsKept(suite, deviations, h, k);
    IdsKept(suite, deviations, h, k + 1);
    StepAt(suite, deviations, h, k, i);
    if NoDuplicates(suite) {
      SameMembersDistinct(suite, Ids(h.states[0]));
      MatchesItself(h.states[k], deviations[k].pattern, i);
    }
  }

  /** At the end, a result names no configuration exactly when it is the main
      pass's verdict, untouched. */
  lemma {:induction false} UnstampedIsMain(suite: seq<string>, deviations: seq<Deviation>, h: History, k: nat, i: nat)
    requires IsHistory(suite, deviations, h) && k <= |deviations| && i < |h.states[0]|
    ensures |h.states[k]| == |h.states[0]|
    ensures h.states[k][i].configuration == None <==> h.states[k][i] == h.states[0][i]
  {
    IdsKept(suite, deviations, h, k);
    if k > 0 {
      IdsKept(suite, deviations, h, k - 1);
      UnstampedIsMain(suite, deviations, h, k - 1, i);
      StepAt(suite, deviations, h, k - 1, i);
    }
  }

  /** A stamped result was produced by the pass whose variable it names, of a test
      which that pass claimed. */
  lemma {:induction false} StampNamesItsPass(suite: seq<string>, deviations: seq<Deviation>, h: History, k: nat, i: nat)
    returns (j: nat)
    requires IsHistory(suite, deviations, h) && k <= |deviations| && i < |h.states[0]|
    requires |h.states[k]| == |h.states[0]| && h.states[k][i].configuration.Some?
    ensures j < k && Spliced(deviations, h, j).Some? && h.states[k][i].configuration == Some(deviations[j].envVar)
    ensures |h.states[j]| == |h.states[0]| && h.states[j][i].id in Matching(h.states[j], deviations[j].pattern)
    ensures exists v :: v in Spliced(deviations, h, j).value && v.id == h.states[k][i].id
                     && h.states[k][i] == v.(configuration := Some(deviations[j].envVar))
  {
    assert k > 0;
    IdsKept(suite, deviations, h, k - 1);
    StepAt(suite, deviations, h, k - 1, i);
    if h.states[k][i] == h.states[k - 1][i] {
      j := StampNamesItsPass(suite, deviations, h, k - 1, i);
    } else {
      j := k - 1;
    }
  }

  // -------------------------------------------------- what a pass is given

  /** Some result of `id` was skipped for a reason that `d` can lift. */
  ghost predicate Claims(results: seq<TestResult>, d: Deviation, id: string) {
    exists r :: r in results && r.id == id && d.pattern(Reason(r)).Some?
  }

  lemma ClaimsAreKeys(results: seq<TestResult>, d: Deviation)
    ensures forall id :: id in Matching(results, d.pattern) <==> Claims(results, d, id)
  {
    forall id ensures id in Matching(results, d.pattern) <==> Claims(results, d, id) {
      MatchingKeys(results, d.pattern, id);
    }
  }

  /** What pass `k` of a run came to, if it claims a test. It is given the claimed
      tests. A SUT started for it finds the deviation's variable set, and all else
      in its environment as it was; an instance that the caller started is dialled. */
  lemma PassIsGiven(s: Setup, h: History, env: map<string, string>, k: nat, id: string)
    returns (given: map<string, string>, tests: seq<string>)
    requires s.Witnessed(h, env) && k < |h.outcomes| && Claims(h.states[k], s.deviations[k], id)
    ensures Combinations.IsSublist(tests, s.suite)
    ensures forall t ::
      multiset(tests)[t] == if Claims(h.states[k], s.deviations[k], t) then multiset(s.suite)[t] else 0
    ensures var name := s.deviations[k].envVar;
      && (name in s.urls ==> h.outcomes[k] == s.pass(k + 1, Some(s.urls[name]), env, tests))
      && (name !in s.urls && s.sutUrl.None? ==>
           && h.outcomes[k] == s.pass(k + 1, None, given, tests)
           && name in given && given[name] == "1" && given - {name} == env - {name})
      && (name !in s.urls && s.sutUrl.Some? ==> h.outcomes[k] == Failed)
  {
    var d := s.deviations[k];
    var blocked := Matching(h.states[k], d.pattern);
    ClaimsAreKeys(h.states[k], d);
    given, tests := env[d.envVar := "1"], Narrowed(s.suite, blocked.Keys);
    forall t
      ensures multiset(tests)[t] == if Claims(h.states[k], d, t) then multiset(s.suite)[t] else 0
      ensures Combinations.IsSublist(tests, s.suite)
    {
      NarrowedExact(s.suite, blocked.Keys, t);
    }
    assert id in blocked;
    assert given - {d.envVar} == env - {d.envVar};
    assert h.outcomes[k] == s.AttemptAt(k, h.states[k], env);
  }

  /** If it claims none, nothing changes. */
  lemma NothingClaimed(s: Setup, h: History, env: map<string, string>, k: nat)
    requires s.Witnessed(h, env) && IsHistory(s.suite, s.deviations, h) && k < |h.outcomes|
    requires forall id :: !Claims(h.states[k], s.deviations[k], id)
    ensures h.outcomes[k] == Failed && h.states[k + 1] == h.states[k]
  {
    ClaimsAreKeys(h.states[k], s.deviations[k]);
    assert Matching(h.states[k], s.deviations[k].pattern) == map[];
    assert IsStep(s.suite, s.deviations[k], h.states[k], h.outcomes[k], h.states[k + 1]);
    assert h.outcomes[k] == s.AttemptAt(k, h.states[k], env);
  }

  /** `captures` are what the last matching reasons of the results captured. */
  ghost predicate CapturesOf(results: seq<TestResult>, pattern: Pattern, captures: set<string>) {
    forall c :: c in captures <==> exists i :: LastMatch(results, pattern, i) && pattern(Reason(results[i])) == Some(c)
  }

  lemma CapturesAreValues(results: seq<TestResult>, pattern: Pattern, captures: set<string>)
    requires CapturesOf(results, pattern, captures)
    ensures captures == Matching(results, pattern).Values
  {
    var found := Matching(results, pattern);
    forall c ensures c in captures <==> c in found.Values {
      if i :| LastMatch(results, pattern, i) && pattern(Reason(results[i])) == Some(c) {
        MatchingExact(results, pattern, results[i].id, c);
      }
      if c in found.Values {
        var id :| id in found && found[id] == c;
        MatchingExact(results, pattern, id, c);
      }
    }
  }

  /** A pass settles the results it claimed exactly when it ran and its card is not
      refused for what the reasons captured: each by its test's last verdict. */
  lemma PassSettles(suite: seq<string>, deviations: seq<Deviation>, h: History, k: nat, captures: set<string>, i: nat)
    requires IsHistory(suite, deviations, h) && k < |deviations| && i < |h.states[0]|
    requires CapturesOf(h.states[k], deviations[k].pattern, captures)
    ensures |h.states[k]| == |h.states[k + 1]| == |h.states[0]|
    ensures var d, outcome, before, after := deviations[k], h.outcomes[k], h.states[k][i], h.states[k + 1][i];
      if outcome.Ran? && !d.refused(outcome.card, captures) && Claims(h.states[k], d, before.id) then
        exists v :: LastVerdict(outcome.results, v) && v.id == before.id
                    && after == v.(configuration := Some(d.envVar))
      else after == before
  {
    IdsKept(suite, deviations, h, k);
    IdsKept(suite, deviations, h, k + 1);
    StepAt(suite, deviations, h, k, i);
    CapturesAreValues(h.states[k], deviations[k].pattern, captures);
    ClaimsAreKeys(h.states[k], deviations[k]);
  }
}
