/** The subtests a scenario expands into: how many there are, in what order,
    and that none of their results is lost (test_suite/__init__.py, lines
    376-411; testlib.py, lines 632-673). */
module Expansion {
  import opened Wrappers
  import opened Text
  import opened Sequences
  import opened Combinations
  import opened Traversal
  import opened Subgraphs

  // -------------------------------------------------------------- once each

  /** Stage `k` yields only lists of `k + 1`. */
  ghost predicate Staged(stage: nat -> seq<seq<string>>) {
    forall k: nat, sub :: sub in stage(k) ==> |sub| == k + 1
  }

  lemma OfSizeStaged(root: string, others: seq<string>)
    ensures Staged(OfSize(root, others))
  {
    forall k: nat, sub | sub in OfSize(root, others)(k) ensures |sub| == k + 1 {
      OfSizeMembers(root, others, k, sub);
    }
  }

  lemma OfSizeDistinct(root: string, others: seq<string>, size: nat)
    requires NoDuplicates(others)
    ensures NoDuplicates(OfSize(root, others)(size))
  {
    ChooseDistinct(others, size);
    var f := Rooted(root);
    forall x, y, b | b in f(x) && b in f(y) ensures x == y {
      assert b == [root] + x && b == [root] + y;
      assert x == b[1..] && y == b[1..];
    }
    GatherDistinct(f, Choose(others, size));
  }

  lemma CandidatesDistinct(sdks: seq<string>)
    requires sdks != [] && NoDuplicates(sdks)
    ensures NoDuplicates(Candidates(sdks))
  {
    var stage := OfSize(sdks[0], sdks[1..]);
    forall k: nat ensures NoDuplicates(stage(k)) {
      OfSizeDistinct(sdks[0], sdks[1..], k);
    }
    OfSizeStaged(sdks[0], sdks[1..]);
    StagedDistinct(stage, |sdks|);
  }

  lemma {:induction false} StagedDistinct(stage: nat -> seq<seq<string>>, r: nat)
    requires Staged(stage) && forall k: nat :: NoDuplicates(stage(k))
    ensures NoDuplicates(Stages(stage, r))
  {
    forall j: nat, k: nat, x | j < k < r && x in stage(j) ensures x !in stage(k) {
      assert |x| == j + 1;
    }
    StagesDistinct(stage, r);
  }

  /** `keep` yields at most one subgraph for a candidate, over its ids. */
  ghost predicate KeepsItself(keep: seq<string> -> seq<Subgraph>) {
    && (forall sub :: |keep(sub)| <= 1)
    && (forall sub, s :: s in keep(sub) ==> s.sdks == sub)
  }

  lemma KeepKeepsItself(sdks: seq<string>, edges: Option<seq<string>>, transports: seq<string>)
    ensures KeepsItself(Keep(sdks, edges, transports))
  {
  }

  lemma {:induction false} KeptDistinct(keep: seq<string> -> seq<Subgraph>, subs: seq<seq<string>>)
    requires KeepsItself(keep) && NoDuplicates(subs)
    ensures NoDuplicates(Gather(keep, subs))
  {
    forall x, y, s | s in keep(x) && s in keep(y) ensures x == y {
      assert s.sdks == x && s.sdks == y;
    }
    GatherDistinct(keep, subs);
  }

  /** No subgraph comes back twice. */
  lemma KeptOnce(sdks: seq<string>, edges: Option<seq<string>>, transports: seq<string>)
    requires sdks != [] && NoDuplicates(sdks)
    ensures NoDuplicates(Kept(sdks, edges, transports, Candidates(sdks)))
  {
    CandidatesDistinct(sdks);
    KeepKeepsItself(sdks, edges, transports);
    KeptDistinct(Keep(sdks, edges, transports), Candidates(sdks));
  }

  // ------------------------------------------------------------ smallest first

  /** Smaller lists first; those of one size by the positions of their ids. */
  ghost function Sooner(sdks: seq<string>): (seq<string>, seq<string>) -> bool {
    (a: seq<string>, b: seq<string>) => |a| < |b| || (|a| == |b| && Before(sdks, a, b))
  }

  ghost function KeptSooner(sdks: seq<string>): (Subgraph, Subgraph) -> bool {
    (a: Subgraph, b: Subgraph) => Sooner(sdks)(a.sdks, b.sdks)
  }

  lemma SizeInOrder(root: string, others: seq<string>, size: nat)
    ensures Ordered(Sooner([root] + others), OfSize(root, others)(size))
  {
    var sdks, combos := [root] + others, Choose(others, size);
    var earlier := (a: seq<string>, b: seq<string>) => |a| == |b| && Before(others, a, b);
    forall i, j | 0 <= i < j < |combos| ensures earlier(combos[i], combos[j]) {
      assert combos[i] in combos && combos[j] in combos;
      ChooseSize(others, size, combos[i]);
      ChooseSize(others, size, combos[j]);
      ChooseOrder(others, size);
      assert Earlier(others)(combos[i], combos[j]);
    }
    var f := Rooted(root);
    forall x, y | earlier(x, y) && f(x) != [] && f(y) != [] ensures Sooner(sdks)(f(x)[0], f(y)[0]) {
      BeforeLonger(others, root, x, y);
      assert sdks[1..] == others;
      BeforeLater(sdks, [root] + x, [root] + y);
    }
    OrderedGather(f, combos, earlier, Sooner(sdks));
  }

  lemma {:induction false} StagesInOrder(sdks: seq<string>, stage: nat -> seq<seq<string>>, r: nat)
    requires Staged(stage) && forall k: nat :: Ordered(Sooner(sdks), stage(k))
    ensures Ordered(Sooner(sdks), Stages(stage, r))
  {
    if r > 0 {
      StagesInOrder(sdks, stage, r - 1);
      var some, more := Stages(stage, r - 1), stage(r - 1);
      forall i, j | 0 <= i < |some| && 0 <= j < |more| ensures Sooner(sdks)(some[i], more[j]) {
        StagesMembers(stage, r - 1, some[i]);
        assert some[i] in some && more[j] in more;
      }
      OrderedConcat(Sooner(sdks), some, more);
    }
  }

  /** Subgraphs come back smallest first, those of one size in the lexicographic
      order of their ids' positions. */
  lemma KeptRises(sdks: seq<string>, edges: Option<seq<string>>, transports: seq<string>)
    requires sdks != []
    ensures Ordered(KeptSooner(sdks), Kept(sdks, edges, transports, Candidates(sdks)))
  {
    assert [sdks[0]] + sdks[1..] == sdks;
    forall k: nat ensures Ordered(Sooner(sdks), OfSize(sdks[0], sdks[1..])(k)) {
      SizeInOrder(sdks[0], sdks[1..], k);
    }
    OfSizeStaged(sdks[0], sdks[1..]);
    StagesInOrder(sdks, OfSize(sdks[0], sdks[1..]), |sdks|);
    OrderedGather(Keep(sdks, edges, transports), Candidates(sdks), Sooner(sdks), KeptSooner(sdks));
  }

  // ---------------------------------------------------------------- how many

  lemma {:induction false} OfSizeCount(root: string, others: seq<string>, size: nat)
    ensures |OfSize(root, others)(size)| == if size == 0 then 0 else Binomial(|others|, size)
  {
    var combos := Choose(others, size);
    if size == 0 {
      GatherOne(Rooted(root), combos[0]);
      assert combos == [combos[0]];
    } else {
      forall i | 0 <= i < |combos| ensures |Rooted(root)(combos[i])| == 1 {
        assert combos[i] in combos;
        ChooseSize(others, size, combos[i]);
      }
      GatherCount(Rooted(root), combos);
      ChooseCount(others, size);
    }
  }

  lemma {:induction false} StagesCount(stage: nat -> seq<seq<string>>, n: nat, r: nat)
    requires forall k: nat :: |stage(k)| == if k == 0 then 0 else Binomial(n, k)
    ensures |Stages(stage, r)| == RowSum(n, r) - (if r == 0 then 0 else 1)
  {
    if r > 0 {
      StagesCount(stage, n, r - 1);
      assert Binomial(n, 0) == 1;
    }
  }

  lemma {:induction false} CandidateCount(sdks: seq<string>)
    requires sdks != []
    ensures |Candidates(sdks)| == Pow2(|sdks| - 1) - 1
  {
    var stage := OfSize(sdks[0], sdks[1..]);
    forall k: nat ensures |stage(k)| == if k == 0 then 0 else Binomial(|sdks| - 1, k) {
      OfSizeCount(sdks[0], sdks[1..], k);
    }
    StagesCount(stage, |sdks| - 1, |sdks|);
    RowTotal(|sdks| - 1);
  }

  /** Without explicit edges any candidate is traversable. */
  lemma KeepsAll(sdks: seq<string>, transports: seq<string>, sub: seq<string>)
    ensures |Keep(sdks, None, transports)(sub)| == 1
  {
    CompleteBalanced(sub);
  }

  lemma {:induction false} GatherSingles(keep: seq<string> -> seq<Subgraph>, subs: seq<seq<string>>)
    requires forall sub :: |keep(sub)| == 1
    ensures |Gather(keep, subs)| == |subs|
  {
    GatherCount(keep, subs);
  }

  /** So there are as many subgraphs as non-empty choices of peers. */
  lemma {:induction false} KeptCount(sdks: seq<string>, transports: seq<string>)
    requires sdks != []
    ensures |Kept(sdks, None, transports, Candidates(sdks))| == Pow2(|sdks| - 1) - 1
  {
    forall sub ensures |Keep(sdks, None, transports)(sub)| == 1 {
      KeepsAll(sdks, transports, sub);
    }
    GatherSingles(Keep(sdks, None, transports), Candidates(sdks));
    CandidateCount(sdks);
  }

  // ------------------------------------------------------------- result map

  datatype Entry = Entry(passed: bool, sdks: seq<string>, edges: Option<seq<string>>)

  /** Lines 642-645. */
  function SubtestName(scenario: string, sdks: seq<string>, sub: seq<string>): string {
    if |sub| == |sdks| then scenario else scenario + "-sub-" + Join(sub, "-")
  }

  lemma {:induction false} FullSublist<T>(ys: seq<T>, xs: seq<T>)
    requires IsSublist(ys, xs) && |ys| == |xs|
    ensures ys == xs
  {
    if ys != [] {
      if ys[0] == xs[0] && IsSublist(ys[1..], xs[1..]) {
        FullSublist(ys[1..], xs[1..]);
      } else {
        SublistLength(ys, xs[1..]);
      }
    }
  }

  ghost predicate NoDashes(sdks: seq<string>) {
    forall i :: 0 <= i < |sdks| ==> Free(sdks[i], '-')
  }

  /** For ids without dashes, a subtest's name tells which subgraph it is. */
  lemma {:induction false} SubtestNameInjective(scenario: string, sdks: seq<string>, a: seq<string>, b: seq<string>)
    requires NoDashes(sdks) && a != [] && b != [] && IsSublist(a, sdks) && IsSublist(b, sdks)
    requires SubtestName(scenario, sdks, a) == SubtestName(scenario, sdks, b)
    ensures a == b
  {
    if |a| == |sdks| {
      FullSublist(a, sdks);
    }
    if |b| == |sdks| {
      FullSublist(b, sdks);
    }
    if |a| != |sdks| && |b| != |sdks| {
      var n := |scenario + "-sub-"|;
      assert SubtestName(scenario, sdks, a)[n..] == Join(a, "-") && SubtestName(scenario, sdks, b)[n..] == Join(b, "-");
      SublistMembers(a, sdks);
      SublistMembers(b, sdks);
      forall i | 0 <= i < |a| ensures Free(a[i], '-') { assert a[i] in a; }
      forall i | 0 <= i < |b| ensures Free(b[i], '-') { assert b[i] in b; }
      JoinInjective(a, b, '-');
    }
  }

  function SubtestNames(scenario: string, sdks: seq<string>, subgraphs: seq<Subgraph>): (r: seq<string>)
    ensures |r| == |subgraphs|
    ensures forall i {:trigger r[i]} :: 0 <= i < |r| ==> r[i] == SubtestName(scenario, sdks, subgraphs[i].sdks)
  {
    seq(|subgraphs|, i requires 0 <= i < |subgraphs| => SubtestName(scenario, sdks, subgraphs[i].sdks))
  }

  lemma KeptIsRooted(sdks: seq<string>, edges: Option<seq<string>>, transports: seq<string>, s: Subgraph)
    requires sdks != [] && s in Kept(sdks, edges, transports, Candidates(sdks))
    ensures RootedSublist(sdks[0], sdks[1..], s.sdks)
  {
    GatherMembers(Keep(sdks, edges, transports), Candidates(sdks), s);
    CandidateExact(sdks, s.sdks);
  }

  lemma FullIsAll(sdks: seq<string>, sub: seq<string>)
    requires sdks != [] && RootedSublist(sdks[0], sdks[1..], sub)
    ensures |sub| == |sdks| <==> sub == sdks
  {
    if |sub| == |sdks| {
      FullSublist(sub[1..], sdks[1..]);
      assert sub == [sub[0]] + sub[1..] && sdks == [sdks[0]] + sdks[1..];
    }
  }

  /** The full list runs under the scenario's own name, and no other subgraph does,
      whatever the ids: theirs is the name, a mark and their ids. */
  lemma FullKeepsName(scenario: string, sdks: seq<string>, edges: Option<seq<string>>, transports: seq<string>, i: nat)
    requires sdks != [] && i < |Kept(sdks, edges, transports, Candidates(sdks))|
    ensures var kept := Kept(sdks, edges, transports, Candidates(sdks));
      var name := SubtestNames(scenario, sdks, kept)[i];
      && (name == scenario <==> kept[i].sdks == sdks)
      && (kept[i].sdks != sdks ==> name == scenario + "-sub-" + Join(kept[i].sdks, "-"))
  {
    var kept := Kept(sdks, edges, transports, Candidates(sdks));
    KeptIsRooted(sdks, edges, transports, kept[i]);
    FullIsAll(sdks, kept[i].sdks);
  }

  /** Of the subtests that share a name, the last one's entry stays. */
  ghost predicate LastStays(results: map<string, Entry>, names: seq<string>, subgraphs: seq<Subgraph>,
                            verdicts: seq<bool>)
    requires |names| == |subgraphs| == |verdicts|
  {
    && results.Keys == (set name | name in names)
    && forall i :: 0 <= i < |names| && names[i] !in names[i + 1..] ==>
      results[names[i]] == Entry(verdicts[i], subgraphs[i].sdks, subgraphs[i].edges)
  }

  /** Lines 638-673: an entry under each subtest's name; `verdicts[i]` is what
      running subtest `i` came to. None is lost exactly when no name is shared. */
  method ResultMap(scenario: string, sdks: seq<string>, subgraphs: seq<Subgraph>, verdicts: seq<bool>)
    returns (results: map<string, Entry>)
    requires |verdicts| == |subgraphs|
    ensures LastStays(results, SubtestNames(scenario, sdks, subgraphs), subgraphs, verdicts)
    ensures |results| == |subgraphs| <==> NoDuplicates(SubtestNames(scenario, sdks, subgraphs))
    ensures |results| <= |subgraphs|
  {
    var names := SubtestNames(scenario, sdks, subgraphs);
    results := map[];
    for i := 0 to |subgraphs|
      invariant LastStays(results, names[..i], subgraphs[..i], verdicts[..i])
    {
      StaysNext(results, names, subgraphs, verdicts, i);
      results := results[names[i] := Entry(verdicts[i], subgraphs[i].sdks, subgraphs[i].edges)];
    }
    assert names[..|names|] == names && subgraphs[..|names|] == subgraphs && verdicts[..|names|] == verdicts;
    DistinctCount(names);
    assert |results| == |results.Keys|;
  }

  lemma StaysNext(results: map<string, Entry>, names: seq<string>, subgraphs: seq<Subgraph>, verdicts: seq<bool>,
                  i: nat)
    requires i < |names| == |subgraphs| == |verdicts|
    requires LastStays(results, names[..i], subgraphs[..i], verdicts[..i])
    ensures LastStays(results[names[i] := Entry(verdicts[i], subgraphs[i].sdks, subgraphs[i].edges)],
                      names[..i + 1], subgraphs[..i + 1], verdicts[..i + 1])
  {
    var now := results[names[i] := Entry(verdicts[i], subgraphs[i].sdks, subgraphs[i].edges)];
    TakeNext(names, i);
    forall k | 0 <= k < i + 1 && names[..i + 1][k] !in names[..i + 1][k + 1..]
      ensures now[names[k]] == Entry(verdicts[k], subgraphs[k].sdks, subgraphs[k].edges)
    {
      if k < i {
        LaterNames(names, i, k);
      }
    }
  }

  lemma LaterNames(names: seq<string>, i: nat, k: nat)
    requires k < i < |names|
    ensures names[..i][k] == names[..i + 1][k] == names[k]
    ensures names[..i + 1][k + 1..] == names[..i][k + 1..] + [names[i]]
  {
  }

  /** With distinct names every subtest's entry is there. */
  lemma EachKeepsItsOwn(results: map<string, Entry>, names: seq<string>, subgraphs: seq<Subgraph>,
                        verdicts: seq<bool>, i: nat)
    requires i < |names| == |subgraphs| == |verdicts|
    requires LastStays(results, names, subgraphs, verdicts) && NoDuplicates(names)
    ensures names[i] in results && results[names[i]] == Entry(verdicts[i], subgraphs[i].sdks, subgraphs[i].edges)
  {
    assert names[i] in names;
    assert names[i] !in names[i + 1..];
  }

  /** So no result of an expanded scenario is overwritten. */
  lemma NoResultOverwritten(scenario: string, sdks: seq<string>, edges: Option<seq<string>>, transports: seq<string>)
    requires sdks != [] && NoDuplicates(sdks) && NoDashes(sdks)
    ensures NoDuplicates(SubtestNames(scenario, sdks, Kept(sdks, edges, transports, Candidates(sdks))))
  {
    var kept := Kept(sdks, edges, transports, Candidates(sdks));
    KeptOnce(sdks, edges, transports);
    forall i, j | 0 <= i < j < |kept|
      ensures SubtestName(scenario, sdks, kept[i].sdks) != SubtestName(scenario, sdks, kept[j].sdks)
    {
      assert kept[i] in kept && kept[j] in kept;
      KeptExactly(sdks, edges, transports, kept[i]);
      KeptExactly(sdks, edges, transports, kept[j]);
      if SubtestName(scenario, sdks, kept[i].sdks) == SubtestName(scenario, sdks, kept[j].sdks) {
        SubtestNameInjective(scenario, sdks, kept[i].sdks, kept[j].sdks);
      }
    }
  }

  /** The map has an entry under the scenario's own name exactly when the full list
      is kept, and that entry is the full list's. */
  lemma FullEntry(scenario: string, sdks: seq<string>, edges: Option<seq<string>>, transports: seq<string>,
                  verdicts: seq<bool>, results: map<string, Entry>)
    requires sdks != [] && NoDuplicates(sdks)
    requires var kept := Kept(sdks, edges, transports, Candidates(sdks));
      |verdicts| == |kept| && LastStays(results, SubtestNames(scenario, sdks, kept), kept, verdicts)
    ensures var kept := Kept(sdks, edges, transports, Candidates(sdks));
      && (scenario in results <==> exists i :: 0 <= i < |kept| && kept[i].sdks == sdks)
      && (forall i :: 0 <= i < |kept| && kept[i].sdks == sdks ==>
           results[scenario] == Entry(verdicts[i], sdks, kept[i].edges))
  {
    var kept := Kept(sdks, edges, transports, Candidates(sdks));
    var names := SubtestNames(scenario, sdks, kept);
    forall i | 0 <= i < |kept| ensures names[i] == scenario <==> kept[i].sdks == sdks {
      FullKeepsName(scenario, sdks, edges, transports, i);
    }
    KeptOnce(sdks, edges, transports);
    forall i | 0 <= i < |kept| && kept[i].sdks == sdks
      ensures scenario in results && results[scenario] == Entry(verdicts[i], sdks, kept[i].edges)
    {
      assert names[i] == scenario && names[i] in names;
      OneFull(sdks, edges, transports, i);
    }
    if scenario in results {
      var i :| 0 <= i < |names| && names[i] == scenario;
    }
  }

  lemma OneFull(sdks: seq<string>, edges: Option<seq<string>>, transports: seq<string>, i: nat)
    requires sdks != [] && NoDuplicates(sdks)
    requires var kept := Kept(sdks, edges, transports, Candidates(sdks)); i < |kept| && kept[i].sdks == sdks
    ensures var kept := Kept(sdks, edges, transports, Candidates(sdks));
      forall j :: 0 <= j < |kept| && kept[j].sdks == sdks ==> j == i
  {
    var kept := Kept(sdks, edges, transports, Candidates(sdks));
    KeptOnce(sdks, edges, transports);
    forall j | 0 <= j < |kept| && kept[j].sdks == sdks ensures j == i {
      assert kept[i] in kept && kept[j] in kept;
      KeptExactly(sdks, edges, transports, kept[i]);
      KeptExactly(sdks, edges, transports, kept[j]);
      assert kept[i] == kept[j];
    }
  }

  // -------------------------------------------------- ids with a dash collide

  /** `[x, z]` and `[p, q-z]` after one root: two sub-lists of one scenario. */
  function Colliding(x: string, p: string, q: string): seq<string> {
    var z := Run('z', |x| + 1);
    [Run('z', 2 * |x| + 3), x, z, p, q + "-" + z]
  }

  lemma CollidingDistinct(x: string, p: string, q: string)
    requires x == p + "-" + q
    ensures NoDuplicates(Colliding(x, p, q))
  {
    var l := Colliding(x, p, q);
    assert |l[3]| < |l[1]| < |l[2]| < |l[4]| < |l[0]|;
  }

  lemma CollidingNames(x: string, p: string, q: string, scenario: string)
    requires x == p + "-" + q
    ensures var l := Colliding(x, p, q);
      SubtestName(scenario, l, [l[0], l[1], l[2]]) == SubtestName(scenario, l, [l[0], l[3], l[4]])
  {
    var l := Colliding(x, p, q);
    JoinThree(l[0], l[1], l[2]);
    JoinThree(l[0], l[3], l[4]);
    assert l[0] + "-" + (p + "-" + q) + "-" + l[2] == l[0] + "-" + p + "-" + (q + "-" + l[2]);
  }

  lemma JoinThree(a: string, b: string, c: string)
    ensures Join([a, b, c], "-") == a + "-" + b + "-" + c
  {
    assert [a, b, c][1..] == [b, c] && [b, c][1..] == [c];
    assert Join([b, c], "-") == b + "-" + Join([c], "-") == b + "-" + c;
    assert a + "-" + (b + "-" + c) == a + "-" + b + "-" + c;
  }

  lemma SublistOfFive(a: string, b: string, c: string, d: string, e: string)
    ensures IsSublist([a, b, c], [a, b, c, d, e]) && IsSublist([a, d, e], [a, b, c, d, e])
  {
    var l := [a, b, c, d, e];
    assert l[1..] == [b, c, d, e] && [b, c, d, e][1..] == [c, d, e] && [c, d, e][1..] == [d, e] && [d, e][1..] == [e];
    assert [a, b, c][1..] == [b, c] && [b, c][1..] == [c] && [c][1..] == [] && [a, d, e][1..] == [d, e];
    assert IsSublist([c], [c, d, e]) && IsSublist([b, c], [b, c, d, e]);
    assert [e][1..] == [] && IsSublist([e], [e]) && IsSublist([d, e], [d, e]);
    assert IsSublist([d, e], [c, d, e]) && IsSublist([d, e], [b, c, d, e]);
  }

  /** Without explicit edges every sub-list with the root is returned. */
  lemma AllKept(sdks: seq<string>, transports: seq<string>, sub: seq<string>)
    requires NoDuplicates(sdks) && |sub| >= 2 && sdks != [] && sdks[0] in sub && IsSublist(sub, sdks)
    ensures Subgraph(sub, None) in Kept(sdks, None, transports, Candidates(sdks))
  {
    CompleteBalanced(sub);
    KeptExactly(sdks, None, transports, Subgraph(sub, None));
  }

  /** Every id with a dash can do it: some scenario of distinct ids holds it and
      expands into two subtests of one name, so that a result is lost. */
  lemma DashedIdsCollide(x: string, p: string, q: string, scenario: string, transports: seq<string>)
    returns (sdks: seq<string>)
    requires x == p + "-" + q
    ensures x in sdks && NoDuplicates(sdks)
    ensures var kept := Kept(sdks, None, transports, Candidates(sdks));
      var names := SubtestNames(scenario, sdks, kept);
      !NoDuplicates(names) && |set name | name in names| < |kept|
  {
    sdks := Colliding(x, p, q);
    var a, b := [sdks[0], sdks[1], sdks[2]], [sdks[0], sdks[3], sdks[4]];
    assert x == sdks[1];
    CollidingDistinct(x, p, q);
    CollidingNames(x, p, q, scenario);
    SublistOfFive(sdks[0], sdks[1], sdks[2], sdks[3], sdks[4]);
    assert a[0] in a && b[0] in b && a[1] != b[1];
    AllKept(sdks, transports, a);
    AllKept(sdks, transports, b);
    SharedName(scenario, sdks, Kept(sdks, None, transports, Candidates(sdks)), Subgraph(a, None), Subgraph(b, None));
  }

  lemma SharedName(scenario: string, sdks: seq<string>, kept: seq<Subgraph>, a: Subgraph, b: Subgraph)
    requires a in kept && b in kept && a != b
    requires SubtestName(scenario, sdks, a.sdks) == SubtestName(scenario, sdks, b.sdks)
    ensures !NoDuplicates(SubtestNames(scenario, sdks, kept))
    ensures |set name | name in SubtestNames(scenario, sdks, kept)| < |kept|
  {
    var names := SubtestNames(scenario, sdks, kept);
    var i :| 0 <= i < |kept| && kept[i] == a;
    var j :| 0 <= j < |kept| && kept[j] == b;
    assert names[i] == names[j];
    DistinctCount(names);
  }
}
