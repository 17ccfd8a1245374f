# Verification model of the interoperability test kit

The kit drives a set of agents along every directed edge of a scenario's graph.
An engine turns the graph into Eulerian circuits, compiles each circuit into one
nested instruction and a flat list of trace tokens, sends the instruction to the
first agent, and judges what comes back from the tokens alone. This project models
that engine, the judges, and the tools around it, and proves what they promise.

`dafny verify dfyconfig.toml` checks everything. There is one module per file:

- `Wrappers`, `Counting`, `Sequences`, `Grouping`, `Text`, `Stripping`: absence and
  exceptions, counting over multisets, list and map idioms, the string operations
  the sources use (substring, strip, join, split, decimal numerals), and which
  tokens survive stripping.
- `Graphs`, `Hierholzer`, `Components`, `Traversal`: edge multisets, connection and
  balance; the popped adjacency table and its walk; the undirected decomposition;
  the whole traversal.
- `EdgeStrings`, `Instructions`, `Suite`, `Walked`, `Execution`: edge strings and
  their re-indexing; instructions, a reference interpreter and the compiler; one
  scenario's suite; what it walks; what running it does. The interpreter is the
  specification of an agent: `return_response` answers its text, `steps` joins its
  answers with newlines, `call_agent` has the owner of the card URI run the nested
  instruction.
- `Combinations`, `Subgraphs`, `Expansion`: the subgraphs of a scenario, and the
  result map of its subtests.
- `PushVerifier`, `Notifications`, `Streaming`: the judges, the notification store,
  and the reading of streamed answers.
- `EdgeReading`, `Coverage`, `Comparison`, `Retention`: the calculator's own reading
  of edges, its static coverage, the comparison of two scenario sets, and when
  passing it loses nothing.
- `Deviations`, `Planning`: re-run passes spliced into a report, and one revision
  per repository and ref in a plan.
- `Layout`, `Pairwise`, `Conformance`: the dashboard's geometry, its cards per pair
  of SDKs, and its conformance table.

Mutable state is kept where the sources have it: the adjacency table, the
notification store and the process environment are classes; the loops over stacks,
degrees, components, tokens, chains, rows and caches are methods with invariants,
each proved against a specification function about which the laws are then proved.

`{:induction false}` marks a lemma that is proved by its own recursion, or one where
the verifier's own induction would only cost.

Where a law the sources suggest is false, the model keeps the code, gives an input on
which it fails, and proves when it holds:

- A component that does not hold the first agent starts at another node, but its
  instruction still goes to the first agent, so its first call is made by the wrong
  agent. The calls made are the hops named if and only if every edge is connected to
  the first agent (`Execution.CallsAreHopsIffRooted`; `Execution.UnrootedScenario`).
- The coverage calculator reads an empty edge list as "no edges" and an empty protocol
  list as "all", the engine the other way round; and it never asks whether the edges
  can be walked. What it counts is what the engine walks exactly when neither reading
  matters and the edges are ones the engine accepts: they parse and are balanced
  (`Coverage.StaticIsWalkedIffWalkable`; `Coverage.OneWayIsCounted`).
- So new scenarios that cannot be walked can pass the comparison and retain nothing
  (`Comparison.SplitRoundTripPasses`). Passing retains every walked hop, whatever the
  old scenarios that both read alike, exactly when each closed walk of hops that the
  new scenarios count or a reason excuses, over one transport, behaviour and
  streaming, consists of hops that they walk or a reason excuses
  (`Retention.PassRetainsIffLoopsKept`; `Retention.LostLoop` builds the old scenario
  that is lost otherwise). An old scenario with an empty edge list passes against
  anything (`Retention.EmptyListPasses`).
- The calculator reads signed indices and indices with underscores, which the engine
  rejects. Both give one answer exactly when the calculator gives none or neither
  index has a sign or an underscore
  (`EdgeReading.ReadersAgreeIffUnmarked`; `EdgeReading.ReadsMoreThanTheEngine`).
- A subgraph with no induced edge at all counts as traversable, because the engine
  falls back on the complete digraph (`Subgraphs.TraversableIffBalanced`;
  `Subgraphs.NoEdgeIsEveryEdge`).
- The streaming loop looks at the unstripped text, the judge strips it. They agree on
  every stream exactly for the token lists in which each token lies within one that
  has no blank at its ends, and some token is not empty
  (`Streaming.LoopAndJudgeAgree`; `Streaming.BlankEndDisagrees`). The honest answer
  of a suite is accepted exactly when stripping leaves its last terminal
  (`Streaming.HonestAnswerAccepted`; `Streaming.HonestAnswerLost`).
- Ids without dashes never share a subtest name; for every id with a dash there is a
  scenario of distinct ids in which two subtests share one and a result is lost
  (`Expansion.NoResultOverwritten`; `Expansion.DashedIdsCollide`).
- The pivot loses a verdict exactly when one transport gives one test id two
  (`Conformance.Lossless`; `Conformance.TwoVerdictsLoseOne`).
- Turning a card's edge round keeps the name at an end exactly when, with digits on
  both sides of the arrow, the end names nothing, its digits are `0` or it says one,
  and, without, the end says neither zero nor one (`Pairwise.EdgesKeepNames`;
  `Pairwise.MisnamedEnds`).
- A line between two peers of a diagram is clear of every pill exactly when they are
  neighbours in their column (`Layout.PeerLineClearIffAdjacent`).

The doc comment of the traversal says a circuit is returned; the code returns a list
of circuits, and `Traversal.EulerTraversal` follows the code.

## Model

| member | source | states |
|---|---|---|
| Graphs.WalkBalance | test_suite/__init__.py:93-103 | a walk leaves every node as often as it enters it, but for its two ends |
| Graphs.BalancedCut | test_suite/__init__.py:93-103 | in a balanced graph as many edges leave a set of nodes as enter it |
| Graphs.BalancedNoExit | test_suite/__init__.py:101-103 | so a set that no edge leaves is one that no edge enters |
| Graphs.BalancedConnectedReaches | test_suite/__init__.py:101-103 | with balance, being joined by an undirected path is the same as being reachable along the arrows: weak components are strong |
| Graphs.ComponentIsConnection | test_suite/__init__.py:47-73 | a component of the undirected view holds exactly the nodes connected to any one of its nodes |
| Hierholzer.StuckAtJunction | test_suite/__init__.py:310-318 | the walk can have no way out only at the node where the finished part of the circuit begins |
| Hierholzer.TakenBalance | test_suite/__init__.py:310-318 | the edges taken so far are out of balance only at the top of the stack and at that node |
| Hierholzer.ProgressPush | test_suite/__init__.py:314-316 | following an edge keeps: stack, circuit, pending edge and remaining edges are together the original edges |
| Hierholzer.ProgressPop | test_suite/__init__.py:317-318 | moving a stuck node to the circuit keeps the same |
| Hierholzer.NothingLeftOnCircuit | test_suite/__init__.py:308-320 | when the stack is empty the remaining edges are balanced and none touches the circuit |
| Hierholzer.CircuitIsComponent | test_suite/__init__.py:308-320 | so the circuit's nodes are one whole component |
| Hierholzer.Adjacency.constructor | test_suite/__init__.py:286 | a table with an empty list for every node |
| Hierholzer.Adjacency.Append | test_suite/__init__.py:290 | one more edge, at the end of its source's list |
| Hierholzer.Adjacency.Pop | test_suite/__init__.py:315 | takes the last target of a node and removes that edge once |
| Hierholzer.Adjacency.Walk | test_suite/__init__.py:309-319 | from balanced edges, a closed walk from the start over every edge of its component, each once; other lists are untouched, the rest stays balanced; the loop runs twice the edges plus one times |
| Components.ComponentsApart | test_suite/__init__.py:47-73 | two components that share a node have the same nodes |
| Components.SharedComponentIsConnection | test_suite/__init__.py:47-73 | two listed nodes share a component of the decomposition if and only if an undirected path joins them |
| Components.UndirectedView | test_suite/__init__.py:51-55 | the symmetric neighbour table of the edges, self-loops and parallel edges included |
| Components.PushUnseen | test_suite/__init__.py:67-70 | pushes exactly the neighbours not visited yet, each once, in any order |
| Components.Collect | test_suite/__init__.py:61-71 | the depth-first search collects one whole component, without repetition, headed by its start |
| Components.Decompose | test_suite/__init__.py:47-73 | components that cover the nodes, are pairwise disjoint, cross no edge, and are met in list order |
| Traversal.AllArrowsCount | test_suite/__init__.py:283 | how often the comprehension over all pairs yields an edge, repeated ids included |
| Traversal.CompleteDigraph | test_suite/__init__.py:252-261 | for distinct ids, every ordered pair of two different ids exactly once |
| Traversal.SymmetricBalanced | test_suite/__init__.py:252-261 | a graph with each edge as often as its reverse is balanced |
| Traversal.CompleteBalanced | test_suite/__init__.py:252-261 | the complete digraph on any list of ids is balanced, so it always has a traversal |
| Traversal.Tabulate | test_suite/__init__.py:286-292 | the table holds exactly the target edges, and the two counters are its degrees |
| Traversal.VerifyEulerian | test_suite/__init__.py:76-98 | true if and only if every listed node has equal degrees |
| Traversal.BalancedOnNodes | test_suite/__init__.py:93-98 | checking the listed nodes decides balance of the whole graph |
| Traversal.DecomposedIsActive | test_suite/__init__.py:47-73 | once the edges are balanced, the components hold exactly the nodes with edges |
| Traversal.RootFirstMoves | test_suite/__init__.py:305-306 | the stable sort moves the root's component to the front and leaves the others in order |
| Traversal.Sorting | test_suite/__init__.py:305-306 | after the sort it is still a decomposition, with the root's component first |
| Traversal.WalkCoversComponent | test_suite/__init__.py:308-320 | a walk begun in a component not walked yet covers exactly that component of the original graph |
| Traversal.WalkAll | test_suite/__init__.py:308-320 | each component is walked by one circuit from the right start node |
| Traversal.SameCircuit | test_suite/__init__.py:297-322 | two nodes are on one circuit if and only if they are connected |
| Traversal.EulerTraversal | test_suite/__init__.py:241-322 | succeeds if and only if the target edges are balanced; then the steps of all circuits are, as a multiset, the target edges, each circuit is closed and covers one component, and the root's comes first and starts at it; every edge is walked exactly as often as it is listed between known ids or, without a list, once per pair of two different ids |
| Traversal.EachPairOnce | test_suite/__init__.py:252-283 | with no edges or an empty list, any traversal of distinct agents steps once over each ordered pair of two of them, and over nothing else |
| Traversal.ActiveInOrder | test_suite/__init__.py:298-299 | the nodes with edges, whose order decides that of the circuits, come in the order of the agents |
| Traversal.TraversedIsBalanced | test_suite/__init__.py:76-98 | only balanced edges have a traversal |
| EdgeStrings.ParseEdgeStrings | test_suite/__init__.py:11-44 | the pairs of ids named, in order, or a ValueError if and only if some edge is malformed or out of range |
| EdgeStrings.IndexById | test_suite/__init__.py:329 | each id's last position |
| EdgeStrings.MapEdgesToSubgraph | test_suite/__init__.py:325-351 | the rewritten edges with both ends in the sub-list; rejects exactly the lists that parsing rejects |
| EdgeStrings.RenderedParses | test_suite/__init__.py:349 | a printed edge parses back to its indices |
| EdgeStrings.ReindexingCommutes | test_suite/__init__.py:325-351 | parsing the re-indexed edges gives exactly the parsed edges with both ends in the sub-list, in order |
| Text.StripKeeps | test_suite/__init__.py:32 | stripping a text loses no token that has no blank at its own ends |
| Stripping.TrimmedIsExact | testlib.py:198 | a token survives stripping in every text if and only if it has no blank at its own ends |
| Stripping.ShieldedSurvive | testlib.py:257-274 | if each token lies within a trimmed one of the list, stripping changes no verdict |
| Stripping.StripSafeIffShielded | testlib.py:257-274 | and only then: for any other list some text is accepted before stripping and rejected after |
| Text.DecimalRoundTrip | test_suite/__init__.py:35 | reading a printed number gives the number |
| Text.JoinInjective | testlib.py:645 | parts without the separator can be read back from what they join to |
| Instructions.CardUriInjective | test_suite/agent_table.py:24-27 | agents on distinct ports have distinct card URIs |
| Instructions.OwnerOfCard | test_suite/agent_table.py:57-74 | a card URI leads to the agent it was made for |
| Instructions.TraversalToInstruction | test_suite/__init__.py:106-174 | the nested instruction of the circuit and its hop tokens in reverse, or a RuntimeError if and only if some agent after the first is unknown; at every depth calls stream as told and ask for the behaviour that the scenario names (none of the three for another name), and responses hold the task if and only if it is "resubscribe" |
| Instructions.ToldIsDone | test_suite/__init__.py:147-170 | running any instruction that tells its agents this makes only calls that do it |
| Instructions.CallsAt | test_suite/__init__.py:133-172 | call number i goes from the i-th to the next agent and is answered with what is left of the circuit |
| Instructions.CompilationMeaning | test_suite/__init__.py:127-174 | running the compiled circuit makes its calls in circuit order and answers the hop tokens and the terminal, one per line, for circuits of any length |
| Suite.ExplicitEdges | test_suite/__init__.py:206-207 | explicit edges are the target as written |
| Suite.TraversalCallable | test_suite/__init__.py:152 | compiling a traversal fails for an unknown agent if and only if some target edge leads to one |
| Suite.OneTransport | test_suite/__init__.py:213-233 | one transport's circuits, compiled, or the first error: no first agent, unbalanced edges, or an agent never started |
| Suite.BuildSuite | test_suite/__init__.py:212-238 | the same for every transport in turn |
| Suite.PlanBlocks | test_suite/__init__.py:212-236 | the circuits of a transport follow those of all transports before it |
| Suite.CreateTestSuite | test_suite/__init__.py:177-238 | exactly which inputs give a ValueError, an IndexError or a RuntimeError, and otherwise the compiled legs and the chained tokens of a traversal per transport |
| Walked.EachEdgeOncePerTransport | test_suite/__init__.py:212-233 | counted with repetitions, each edge is walked once per transport and nothing else is; transports times edges hops in all |
| Walked.EachPairOncePerTransport | test_suite/__init__.py:206-233 | without explicit edges, each ordered pair of two of the distinct agents is walked once per occurrence of each transport |
| Walked.WalkedSet | test_suite/__init__.py:212-233 | as a set, every edge over every transport |
| Walked.TokensNameHops | test_suite/__init__.py:144-145 | the tokens that are not terminals name exactly the hops walked |
| Walked.TokensCountHops | test_suite/__init__.py:144-145 | with repetitions too: one token per hop walked |
| Walked.HopIsNotTerminal | testlib.py:290 | no hop token starts like a terminal, every terminal does |
| Walked.HopTokenInjective | test_suite/__init__.py:144 | for ids without blanks a token names one caller, callee and transport |
| Execution.SuiteMeaning | test_suite/__init__.py:201-238 | the suite's instruction answers every leg in turn, joined by newlines, and makes all their calls |
| Execution.SuiteTold | test_suite/__init__.py:136-170 | every call that running a suite makes asks for the scenario's behaviour and streams as it says, and every response holds its task if and only if the behaviour is "resubscribe" |
| Execution.RootedCircuits | test_suite/__init__.py:308-309 | if every edge is connected to the root, every circuit with a hop starts there |
| Execution.UnrootedCircuit | test_suite/__init__.py:308-309 | otherwise some circuit avoids the root and its second node is no target of the root |
| Execution.CallsAreHopsIffRooted | test_suite/__init__.py:308-309 | the calls made are exactly the hops named if and only if every edge is connected to the root |
| Execution.UnrootedScenario | test_suite/__init__.py:308-309 | a readable, balanced scenario that is not rooted |
| Execution.Misattributed | test_suite/__init__.py:308-309 | otherwise here is a call that no token names |
| Combinations.ChooseExact | test_suite/__init__.py:379-380 | the combinations of a size are exactly the sub-lists of that size |
| Combinations.ChooseDistinct | test_suite/__init__.py:379-380 | for distinct elements, each is chosen once |
| Combinations.ChooseCount | test_suite/__init__.py:379-380 | there are as many as the binomial coefficient says |
| Combinations.ChooseOrder | test_suite/__init__.py:379-380 | they come in the lexicographic order of their positions |
| Subgraphs.TraversableIffBalanced | test_suite/__init__.py:376-407 | with explicit edges, a candidate is kept if and only if its induced edges are balanced or there are none |
| Subgraphs.NoEdgeIsEveryEdge | test_suite/__init__.py:277-283 | a candidate that keeps no edge of its scenario and is walked as a complete digraph |
| Subgraphs.TryCandidate | test_suite/__init__.py:386-411 | kept, skipped on a ValueError, or stopped by a RuntimeError, each exactly when |
| Subgraphs.TryCombinations | test_suite/__init__.py:380-411 | the candidates of one size in order, up to the first that stops |
| Subgraphs.GetValidSubgraphs | test_suite/__init__.py:354-413 | all kept candidates in order, or a RuntimeError if and only if some candidate that would be kept calls an agent that was never started |
| Subgraphs.CandidateExact | test_suite/__init__.py:379-384 | the candidates are exactly the root followed by a non-empty sub-list of the others |
| Subgraphs.RootContained | test_suite/__init__.py:362 | for distinct ids these are the sub-lists that contain the root |
| Subgraphs.KeptExactly | test_suite/__init__.py:354-413 | what is returned: exactly the traversable sub-lists of two or more with the root, with their induced edges |
| Expansion.KeptOnce | test_suite/__init__.py:354-413 | no subgraph is returned twice |
| Expansion.KeptRises | test_suite/__init__.py:379-413 | they come in order of size, and within one size in the lexicographic order of their agents' positions |
| Expansion.KeptCount | test_suite/__init__.py:379-413 | without explicit edges there are two to the number of peers, less one |
| Expansion.SubtestNameInjective | testlib.py:642-645 | for ids without dashes a subtest's name tells which subgraph it is |
| Expansion.DashedIdsCollide | testlib.py:632-673 | for every id with a dash some scenario of distinct ids holds it, expands into two subtests of one name and so has more subtests than names |
| Expansion.ResultMap | testlib.py:632-673 | the keys are the names, the last subtest of a name keeps its entry, and there are as many entries as subgraphs if and only if no name is shared |
| Expansion.FullKeepsName | testlib.py:642-645 | a returned subgraph is named as the scenario if and only if it is the full list, whatever the ids; all others get the name, a mark and their ids |
| Expansion.FullEntry | testlib.py:642-673 | the map has an entry under the scenario's name if and only if the full list is returned, and it is the full list's |
| Expansion.EachKeepsItsOwn | testlib.py:632-673 | with distinct names every subtest has its own verdict in the map |
| Expansion.NoResultOverwritten | testlib.py:632-673 | for distinct ids without dashes the names of all returned subgraphs are distinct |
| PushVerifier.SplitChains | testlib.py:286-294 | the token list cut after each terminal |
| PushVerifier.ChainsAreCuts | testlib.py:286-294 | for any list, the chains put end to end are the list, each but the last ends in a terminal, and none holds another |
| PushVerifier.ChainsRecovered | testlib.py:284-294 | cutting a suite's tokens gives back exactly one chain per transport and circuit |
| PushVerifier.BuildStates | testlib.py:296-305 | the states of all chains, in order |
| PushVerifier.StateIsJoin | testlib.py:300-305 | state k is the last k hops and the terminal, one per line |
| PushVerifier.StatesAreAnswers | testlib.py:296-305 | the states of a chain are exactly what running its circuit answers, at the top and at every nested call |
| PushVerifier.RemoveFirst | testlib.py:313 | removing a listed state takes away its first occurrence and nothing else |
| PushVerifier.RemoveSeen | testlib.py:311-313 | removing while walking a snapshot leaves exactly the states the text does not show, duplicates included |
| PushVerifier.UnseenByAllEmpty | testlib.py:309-315 | nothing is left if and only if every state is a substring of some notification |
| PushVerifier.TokensFollow | testlib.py:324 | when every state is shown, every token is in the joined text, so the last check cannot fail |
| PushVerifier.VerifyPushNotification | testlib.py:277-332 | accepts if and only if every expected state is a substring of some notification |
| Notifications.ExpectedAreAnswers | testlib.py:284-305 | the expected states of a suite are the answers of its legs and of all calls that running it makes |
| Notifications.VerdictMeaning | testlib.py:277-332 | a run is accepted if and only if each leg's answer and each call's answer shows in some notification |
| Notifications.HonestRunAccepted | testlib.py:277-332 | notifying every call's answer and the final answer is accepted |
| Notifications.VerdictIgnoresOrder | testlib.py:309-332 | the verdict depends only on which notifications there are |
| Notifications.Regrouped | notifications_app.py:121-128 | grouping by task reorders the notifications and loses none |
| Notifications.NotificationStore.constructor | notifications_app.py:54-55 | an empty store |
| Notifications.NotificationStore.Add | notifications_app.py:57-119 | files a notification under its task, and turns away one without a task id |
| Notifications.NotificationStore.ListAll | notifications_app.py:121-128 | everything received, grouped by task in order of first arrival |
| Notifications.NotificationStore.ListByTask | notifications_app.py:130-139 | what was received for one task, oldest first; nothing for an unknown task |
| Streaming.ExtractResponseText | testlib.py:160-198 | the texts of the first place that holds a message and of the agent's history, joined and stripped |
| Streaming.TextsAreSaid | testlib.py:164-196 | a text is extracted if and only if it is not empty and is said by the first of the four places that holds a message, or by an agent's message in the history that is read |
| Streaming.OthersUnheard | testlib.py:164-196 | when only others speak, nothing is extracted |
| Streaming.HistoryInsert | testlib.py:194-196 | one more message adds its texts where it stands if its role is one of the agent's two, and otherwise nothing |
| Streaming.PartsInsert | testlib.py:164-168 | one more part adds its text where it stands, unless it has none |
| Streaming.PlaceThenHistory | testlib.py:184-196 | the texts of the place come first, those of the history after |
| Streaming.VerifySendMessage | testlib.py:257-274 | accepts if and only if the stripped text has every token; if each token lies within a trimmed one, if and only if the unstripped text has |
| Streaming.ReadStream | testlib.py:346-385 | stops at the first delivery after which all tokens have been collected, or reads to the end |
| Streaming.OthersSkipped | testlib.py:355-382 | an unreadable event, one without a result and one without text leave no trace, wherever they come |
| Streaming.AcceptanceKept | testlib.py:368-379 | reading more events never turns accept into reject |
| Streaming.AgreeOn | testlib.py:335-385 | for such tokens, not all empty, the loop stops early if and only if the judge accepts what it returns, and if and only if the whole stream shows them all |
| Streaming.LoopAndJudgeAgree | testlib.py:335-385 | loop and judge agree on every stream if and only if each token lies within a trimmed one and some token is not empty |
| Streaming.StreamAndVerify | testlib.py:335-385 | for any tokens, when the loop stops early and whether the judge accepts what it returns |
| Streaming.BlankEndDisagrees | testlib.py:198 | a token with a blank at its end that the loop stops for and the judge rejects |
| Streaming.TokensTrimmed | test_suite/__init__.py:228-230 | the tokens of a suite over trimmed transports are trimmed |
| Streaming.SuiteStreamAgrees | testlib.py:335-385 | for a suite over trimmed transports the loop stops early if and only if the judge accepts, and if and only if the stream shows every token |
| Streaming.HonestAnswerAccepted | testlib.py:257-274 | the answer of running a suite contains every token, and is accepted if and only if stripping leaves the last terminal, as it does unless the last transport ends in a blank |
| Streaming.HonestResponseAccepted | testlib.py:160-198 | over trimmed transports, any response that holds the suite's answer in the place read, or in an agent's message of the history read, is accepted |
| Streaming.HonestAnswerLost | testlib.py:257-274 | a transport that ends in a blank, walked by one agent alone, makes the honest answer rejected |
| EdgeReading.ReadsWhatTheEngineReads | scripts/scenarios_diff.py:76-79 | an edge the engine accepts is read the same way |
| EdgeReading.ReadersAgreeIffUnmarked | scripts/scenarios_diff.py:76-79 | both readers give one answer if and only if this one gives none or neither index has a sign or an underscore |
| EdgeReading.ReadsMoreThanTheEngine | scripts/scenarios_diff.py:76-79 | indices with a minus, a plus and an underscore that are read here and rejected there |
| EdgeReading.SubscriptWraps | scripts/scenarios_diff.py:79 | an index is taken if and only if it lies between minus the number of agents and that number, and then names its position modulo it |
| EdgeReading.NumeralShape | scripts/scenarios_diff.py:78 | an unsigned index is digits at both ends, digits and underscores between, and no two underscores together |
| EdgeReading.UnderscoreDropped | scripts/scenarios_diff.py:78 | an underscore between two numerals changes nothing in the number read |
| EdgeReading.ParsedNameTheSame | scripts/scenarios_diff.py:74-80 | edges the engine accepts name the same pairs here |
| EdgeReading.EdgePairs | scripts/scenarios_diff.py:70-80 | the set of pairs the edges name, all pairs when there is no list; it raises if and only if an edge is unreadable |
| Coverage.Atoms | scripts/scenarios_diff.py:59-67 | every pair over every transport, with the scenario's behaviour and streaming; it raises if and only if an edge is unreadable |
| Coverage.StaticIsWalkedIffWalkable | scripts/scenarios_diff.py:59-80 | static coverage equals what the engine walks if and only if no empty list is read two ways and the edges parse and are balanced |
| Coverage.SuiteWalks | test_suite/__init__.py:212-233 | what is walked are the hops of the suite that is built |
| Coverage.OneWayIsCounted | scripts/scenarios_diff.py:59-80 | a scenario of one arrow is counted and cannot be walked |
| Coverage.TokensNameAtoms | scripts/scenarios_diff.py:59-67 | for any ids, a token that is no terminal is in the trace if and only if it is the token of one of the scenario's atoms |
| Coverage.AtomsAreTokens | scripts/scenarios_diff.py:59-67 | for ids without blanks, a hop is an atom of the scenario if and only if its token is in the trace |
| Coverage.AtomsAreCallsIffRooted | scripts/scenarios_diff.py:59-67 | running the suite calls exactly the atoms if and only if every edge is connected to the first agent |
| Comparison.Compare | scripts/scenarios_diff.py:162-176 | splits the old hops missing from the new set into those with a reason, never an empty one, and those without; fails if and only if some have none, and raises if and only if an edge is unreadable |
| Comparison.SplitRoundTripPasses | scripts/scenarios_diff.py:162-212 | a round trip split over two scenarios passes though neither can be walked |
| Retention.PassRetainsIffLoopsKept | scripts/scenarios_diff.py:162-212 | passing retains every walked hop, for all old scenarios that both read alike, if and only if every closed walk of hops counted by the new ones or excused, of one transport, behaviour and streaming, consists of hops they walk or excused |
| Retention.LostLoop | scripts/scenarios_diff.py:162-212 | a closed walk that fails this is itself an old scenario, walkable and of distinct agents, that passes and loses a hop |
| Retention.EmptyListPasses | scripts/scenarios_diff.py:73-80 | any hop between two agents is walked by some old scenario with an empty edge list, for which nothing is counted |
| Retention.PassMeansRetained | scripts/scenarios_diff.py:162-212 | if the new scenarios can be walked, passing means that every hop the old suites walk is walked by a new one or has a reason; if the old ones can, the converse |
| Deviations.SkipsMatching | acts_runner.py:689-702 | the ids of the results whose skip matches, with the last capture |
| Deviations.MatchingKeys | acts_runner.py:689-702 | an id is selected if and only if some result of that id has a matching reason |
| Deviations.MatchingExact | acts_runner.py:689-702 | its capture is that of its last result with a matching reason, an absent reason read as an empty one |
| Deviations.NarrowedExact | acts_runner.py:743 | the tests to run again are those of the suite that were selected, as often and in the same order |
| Deviations.SpliceExact | acts_runner.py:778-782 | after an honest pass every claimed result is replaced, under its own id and stamped, by the last verdict on it, and no other changes |
| Deviations.Environment.constructor | acts_runner.py:589-598 | the environment as found |
| Deviations.Environment.Enter | acts_runner.py:598-599 | sets the variable and remembers what it was |
| Deviations.Environment.Leave | acts_runner.py:602-606 | puts back the value, or the absence, that was remembered |
| Deviations.RerunDeviation | acts_runner.py:710-782 | splices if and only if the pass ran and the card accepts it; whatever the pass comes to, the environment is as it was |
| Deviations.NextDeviation | acts_runner.py:444-467 | one step of a run: an external SUT without an instance for the deviation is passed by, any other is re-run |
| Deviations.Run | acts_runner.py:432-477 | a run is a history of such passes; it fails only if the main pass does or a deviation raises another exception; the environment is restored either way |
| Deviations.PassIsGiven | acts_runner.py:734-758 | a pass that claims a test is given exactly the claimed tests; a SUT started for it finds the variable set to "1" and the rest of the environment as it was, an instance the caller named is dialled with the environment untouched, and an external run without one makes no pass |
| Deviations.NothingClaimed | acts_runner.py:734-736 | a deviation that claims no test runs nothing and changes nothing |
| Deviations.PassSettles | acts_runner.py:766-782 | a result is replaced if and only if the pass claimed it, ran, and was not refused for what the skip reasons captured; then by the last verdict on it |
| Deviations.IdsKept | acts_runner.py:444-467 | over any run the ids and their order never change |
| Deviations.ChangedMeansClaimed | acts_runner.py:724-782 | a result changes only in a pass that claimed its test, for distinct ids by its own skip reason at that moment; a splice stamps all it claimed |
| Deviations.UnstampedIsMain | acts_runner.py:774-782 | a final result names no configuration if and only if it is the main pass's verdict |
| Deviations.StampNamesItsPass | acts_runner.py:774-782 | a stamped result was produced by the pass whose variable it names, of a test that pass claimed |
| Planning.FirstKeysExact | itk_runner.py:245-246 | the keys asked for are those of the ids, each once |
| Planning.BuildSpecs | itk_runner.py:235-268 | with a resolver that answers as it likes, each key is asked for once at its first occurrence and every id gets its key's answer; it succeeds if and only if all ids are known and all keys resolve |
| Planning.OneRevision | itk_runner.py:241-246 | two ids of one repository and ref get the one revision that the single query returned |
| Layout.LayOut | dashboard/src/itk/topology.ts:84-106 | the root is the first "current", or the first id; every node gets its place |
| Layout.NodesApart | dashboard/src/itk/topology.ts:92-106 | for any number of agents no two pills come closer than the least gap, and peers are a pill's height and the gap apart |
| Layout.NodesInView | dashboard/src/itk/topology.ts:101-106 | every pill lies inside the viewBox, and peers keep the breathing room |
| Layout.LayoutIsTight | dashboard/src/itk/topology.ts:92-106 | peers are centred on the root, span the usual spread or stand exactly the least gap apart, and the drawing is no taller than usual unless they fill it |
| Layout.LinesClear | dashboard/src/itk/topology.ts:48-65 | a line between the root and a peer crosses no pill |
| Layout.PeerLineClearIffAdjacent | dashboard/src/itk/topology.ts:58-65 | a line between two peers is clear of every pill if and only if no third peer lies between them |
| Layout.AttachedToPill | dashboard/src/itk/topology.ts:58-65 | a line ends in the middle of the face of its pill that is turned towards the other |
| Pairwise.KeyIsUnordered | dashboard/src/itk/lib.ts:98-103 | two scenarios share a key if and only if they name the same two agents, in either order and any case |
| Pairwise.KeyIsSorted | dashboard/src/itk/lib.ts:98-103 | a key holds the two lower-cased names, sorted |
| Pairwise.LowerFolds | dashboard/src/itk/lib.ts:98-103 | two names are lower-cased to one if and only if they differ in case only |
| Pairwise.KeyTextInjective | dashboard/src/itk/lib.ts:98-103 | written with a comma, keys of names without commas stay distinct |
| Pairwise.EdgesKeepNames | dashboard/src/itk/lib.ts:146-162 | the card's edges join the same names as its source's, turned round or not; a turned end keeps its name if and only if the pattern matches and the end names nothing, its digits are 0 or it says one, or it does not match and the end names neither |
| Pairwise.MisnamedEnds | dashboard/src/itk/lib.ts:155-160 | a padded zero, and blanks beside the arrow, come out under the other name |
| Pairwise.PairwiseGroups | dashboard/src/itk/lib.ts:114-163 | one card per key in rank order, made of all the scenarios with that key |
| Pairwise.RankExact | dashboard/src/itk/lib.ts:118-121 | a name's rank is where the summary first lists it in any case, or 999 |
| Pairwise.SourceIsFirst | dashboard/src/itk/lib.ts:150-153 | a card's edges come from the first scenario in display order, or else from the first of all |
| Pairwise.CardsRise | dashboard/src/itk/lib.ts:130-146 | on each card the first name ranks no later than the second, and from card to card these ranks rise |
| Pairwise.TiesKeepOrder | dashboard/src/itk/lib.ts:136-140 | cards of equal ranks come in order of first appearance |
| Pairwise.CardsPartition | dashboard/src/itk/lib.ts:123-145 | keys are distinct and in rank order, and every two-node scenario is on exactly one card |
| Conformance.EntriesExact | dashboard/src/acts/lib.ts:49-53 | the entries pivoted are the tests of the run's transports |
| Conformance.BuildRows | dashboard/src/acts/lib.ts:48-73 | one row per id in order of first appearance, made of all that id's entries |
| Conformance.RowExact | dashboard/src/acts/lib.ts:54-68 | a row has a cell for each transport that ran its test, holding what that transport said last, deviates if and only if one did not pass, fails if and only if one failed or errored, and failing implies deviating |
| Conformance.Lossless | dashboard/src/acts/lib.ts:41-73 | cells and tests correspond exactly if and only if no transport gives one id two verdicts |
| Conformance.TwoVerdictsLoseOne | dashboard/src/acts/lib.ts:54-68 | a test listed as failed and then as passed: the failure is lost, and the row fails though no cell does |
| Conformance.FilterCounts | dashboard/src/acts/lib.ts:86-101 | each count is the number of rows its filter shows |
| Conformance.FilterShows | dashboard/src/acts/lib.ts:86-90 | a table's failing rows are those of the tests that some transport saw fail or err, its skipped rows those that no transport saw so but some did not see pass |
| Conformance.CellsDecide | dashboard/src/acts/lib.ts:86-90 | without contradicting verdicts the same can be read off a row's cells |
| Conformance.FiltersShareOut | dashboard/src/acts/lib.ts:86-101 | failing and skipped rows share out the deviating ones |
| Conformance.DeviationsOf | dashboard/src/acts/lib.ts:134-147 | one entry per reason in order of first appearance, with the transports that share it |
| Conformance.DeviationsTell | dashboard/src/acts/lib.ts:134-147 | each entry shows the test of its first transport, and lists exactly the transports that did not pass for the same reason |
| Conformance.SameReason | dashboard/src/acts/lib.ts:110-119 | two tests share a reason if and only if they came out the same and their skip reasons and all five parts of their failures agree, absent and empty alike |
| Conformance.ReasonsPartition | dashboard/src/acts/lib.ts:126-147 | the transports that did not pass are shared out among the reasons, each under its own |
| Grouping.GroupsPartition | dashboard/src/itk/lib.ts:143-145 | grouping by any key loses and repeats nothing |
| Grouping.KeysPrefix | dashboard/src/itk/lib.ts:123-128 | keys come in order of first occurrence |

## Left out

- Spawning agents, HTTP, server-sent events, timeouts, ports and locks: each call's outcome is a parameter.
- Digits and capitals beyond ASCII, and the limit Python sets on the length of a numeral: a numeral is any number of ASCII digits.
- The order of Python sets is a free choice: the transports' order is a parameter, neighbours are pushed in any order.
- What agents do with an unspecified response generator or with `hold_task`: the SDKs' interpreters are not part of this model.
- Reading a notification's payload (`_extract_task_id_v10`, `_read_v10_notif` and their v0.3 forms): a notification is its task id and its text, and a blank id stands for a payload turned away.
- An exception while reading one streamed event: the event is unreadable and skipped, as the code does.
- Resolving scenario files, `explain_drop`'s own rules and all report text: the reason for a dropped hop is a parameter of `Comparison.Compare`.
- How the conformance runner executes a suite: a pass answers with one unstamped result per test it was given, with an `ActsRunError`, or with another exception. Which tests a skip pattern matches and whether a card shows that a deviation took effect are parameters, so the results hold for any patterns and checks.
- Deviations.Run: starts at the main pass; argument checks and the narrowing of the suite before it are not modelled.
- Sorting ids before planning, and the spec order of `_plan`.
- Arrowheads and merging of repeated lines in the diagram: only pills and attachment points are modelled, over exact reals.
- The dashboard's key strings: a pair key is kept as the pair it names, a reason key as its list of fields; `JSON.stringify` is taken to be injective on lists of strings.
- `summaryTopology`, `groupBySuite`, `levelTotals`, `cellStatus` and the formatters: they would add only easy members.
- Coverage.StaticIsWalkedIffWalkable: takes the agents of a scenario to be started, since the calculator knows of none; with one missing, the engine raises and walks nothing (`Suite.CreateTestSuite`).
- Pairwise.EdgesKeepNames: an edge is the two texts beside its one arrow; text with none, or with more, which the engine refuses, is not modelled.
