/** One card per unordered pair of SDKs (dashboard/src/itk/lib.ts, lines 98-163). */
module Pairwise {
  import opened Wrappers
  import opened Text
  import opened Sequences
  import opened Grouping

  /** The texts before and after the arrow of an edge, which name its ends by
      position; blanks belong to them. */
  type Edge = (string, string)

  datatype Scenario = Scenario(sdks: seq<string>, edges: seq<Edge>)

  /** The two lower-cased names of a pair, sorted. */
  type Pair = (string, string)

  datatype Group = Group(key: Pair, sdks: Pair, edges: seq<Edge>, scenarios: seq<Scenario>)

  function LowerChar(c: char): char {
    if 'A' <= c <= 'Z' then c + ' ' else c
  }

  function Lower(s: string): string {
    Map(LowerChar, s)
  }

  /** The same letter, perhaps in another case. */
  predicate SameLetter(c: char, d: char) {
    || c == d
    || ('A' <= c <= 'Z' && d as int == c as int + 32)
    || ('A' <= d <= 'Z' && c as int == d as int + 32)
  }

  /** Two texts are lowered to one exactly when they differ in case only. */
  lemma LowerFolds(s: string, t: string)
    ensures |Lower(s)| == |s| && forall i :: 0 <= i < |s| ==> !('A' <= Lower(s)[i] <= 'Z')
    ensures Lower(s) == Lower(t) <==> |s| == |t| && forall i :: 0 <= i < |s| ==> SameLetter(s[i], t[i])
  {
    forall i | 0 <= i < |s| && i < |t| ensures Lower(s)[i] == Lower(t)[i] <==> SameLetter(s[i], t[i]) {
      assert LowerChar(s[i]) == LowerChar(t[i]) <==> SameLetter(s[i], t[i]);
    }
    if Lower(s) == Lower(t) {
      forall i | 0 <= i < |s| ensures SameLetter(s[i], t[i]) {
        assert Lower(s)[i] == Lower(t)[i];
      }
    }
  }

  // --------------------------------------------------------------- the pair key

  predicate LexLe(a: string, b: string) {
    a == "" || (b != "" && (a[0] < b[0] || (a[0] == b[0] && LexLe(a[1..], b[1..]))))
  }

  lemma {:induction false} LexOrder(a: string, b: string)
    ensures LexLe(a, b) || LexLe(b, a)
    ensures LexLe(a, b) && LexLe(b, a) ==> a == b
  {
    if a != "" && b != "" && a[0] == b[0] {
      LexOrder(a[1..], b[1..]);
      assert a == [a[0]] + a[1..] && b == [b[0]] + b[1..];
    }
  }

  function PairKey(): Scenario -> Pair {
    (s: Scenario) =>
      if |s.sdks| != 2 then ("", "")
      else
        var a, b := Lower(s.sdks[0]), Lower(s.sdks[1]);
        if LexLe(a, b) then (a, b) else (b, a)
  }

  /** Two pairs have one key exactly when they are the same two names, in either
      order and any case. */
  lemma KeyIsUnordered(s: Scenario, t: Scenario)
    requires |s.sdks| == 2 && |t.sdks| == 2
    ensures PairKey()(s) == PairKey()(t) <==>
      || (Lower(s.sdks[0]) == Lower(t.sdks[0]) && Lower(s.sdks[1]) == Lower(t.sdks[1]))
      || (Lower(s.sdks[0]) == Lower(t.sdks[1]) && Lower(s.sdks[1]) == Lower(t.sdks[0]))
  {
    LexOrder(Lower(s.sdks[0]), Lower(s.sdks[1]));
    LexOrder(Lower(t.sdks[0]), Lower(t.sdks[1]));
  }

  /** A key holds the two lower-cased names, in order. */
  lemma KeyIsSorted(s: Scenario)
    requires |s.sdks| == 2
    ensures var key, a, b := PairKey()(s), Lower(s.sdks[0]), Lower(s.sdks[1]);
      LexLe(key.0, key.1) && (key == (a, b) || key == (b, a))
  {
    LexOrder(Lower(s.sdks[0]), Lower(s.sdks[1]));
  }

  function KeyText(key: Pair): string {
    key.0 + [','] + key.1
  }

  /** Writing a key with a comma loses nothing while names hold none. */
  lemma KeyTextInjective(k: Pair, l: Pair)
    requires Free(k.0, ',') && Free(l.0, ',') && KeyText(k) == KeyText(l)
    ensures k == l
  {
    CutAt(k.0, k.1, l.0, l.1, ',');
  }

  // ------------------------------------------------------------ the display order

  /** Where the summary lists a name, from position `i` on; 999 if it does not. */
  function RankFrom(summary: seq<string>, sdk: string, i: nat): nat
    requires i <= |summary|
    decreases |summary| - i
  {
    if i == |summary| then 999
    else if Lower(summary[i]) == Lower(sdk) then i
    else RankFrom(summary, sdk, i + 1)
  }

  function Rank(summary: seq<string>, sdk: string): nat {
    RankFrom(summary, sdk, 0)
  }

  predicate Listed(summary: seq<string>, sdk: string, i: int) {
    0 <= i < |summary| && Lower(summary[i]) == Lower(sdk)
  }

  lemma {:induction false} RankFromExact(summary: seq<string>, sdk: string, i: nat)
    requires i <= |summary|
    ensures var r := RankFrom(summary, sdk, i);
      || (Listed(summary, sdk, r) && i <= r && forall j :: i <= j < r ==> !Listed(summary, sdk, j))
      || (r == 999 && forall j :: i <= j ==> !Listed(summary, sdk, j))
    decreases |summary| - i
  {
    if i < |summary| && Lower(summary[i]) != Lower(sdk) {
      RankFromExact(summary, sdk, i + 1);
    }
  }

  /** A name's rank is where the summary first lists it, in any case, or 999. */
  lemma RankExact(summary: seq<string>, sdk: string)
    ensures var r := Rank(summary, sdk);
      || (Listed(summary, sdk, r) && forall j :: 0 <= j < r ==> !Listed(summary, sdk, j))
      || (r == 999 && forall j :: !Listed(summary, sdk, j))
  {
    RankFromExact(summary, sdk, 0);
  }

  function Ranks(summary: seq<string>, key: Pair): (nat, nat) {
    var a, b := Rank(summary, key.0), Rank(summary, key.1);
    if a <= b then (a, b) else (b, a)
  }

  /** The comparison puts `k` after `l`. */
  function After(summary: seq<string>): (Pair, Pair) -> bool {
    (k: Pair, l: Pair) =>
      var x, y := Ranks(summary, k), Ranks(summary, l);
      x.0 > y.0 || (x.0 == y.0 && x.1 > y.1)
  }

  // ------------------------------------------------------------------ the groups

  function IsPair(): Scenario -> seq<Scenario> {
    (s: Scenario) => if |s.sdks| == 2 then [s] else []
  }

  /** Only two-node scenarios are grouped. */
  function Pairs(scenarios: seq<Scenario>): seq<Scenario> {
    Gather(IsPair(), scenarios)
  }

  function Flip(n: string): string {
    if n == "0" then "1" else "0"
  }

  /** How many digits end `t`. */
  function TailCount(t: string): (n: nat)
    ensures n <= |t| && forall i :: |t| - n <= i < |t| ==> IsDigit(t[i])
    ensures n < |t| ==> !IsDigit(t[|t| - n - 1])
  {
    if t == "" || !IsDigit(t[|t| - 1]) then 0 else 1 + TailCount(t[..|t| - 1])
  }

  function TailRun(t: string): string {
    t[|t| - TailCount(t)..]
  }

  /** How many digits begin `t`. */
  function HeadCount(t: string): (n: nat)
    ensures n <= |t| && forall i :: 0 <= i < n ==> IsDigit(t[i])
    ensures n < |t| ==> !IsDigit(t[n])
  {
    if t == "" || !IsDigit(t[0]) then 0 else 1 + HeadCount(t[1..])
  }

  function HeadRun(t: string): string {
    t[..HeadCount(t)]
  }

  /** The pattern finds digits on both sides of the arrow. */
  predicate Matches(e: Edge) {
    TailRun(e.0) != "" && HeadRun(e.1) != ""
  }

  function TurnBefore(t: string): string {
    t[..|t| - TailCount(t)] + Flip(TailRun(t))
  }

  function TurnAfter(t: string): string {
    Flip(HeadRun(t)) + t[HeadCount(t)..]
  }

  function FlipEdge(): Edge -> Edge {
    (e: Edge) => if Matches(e) then (TurnBefore(e.0), TurnAfter(e.1)) else e
  }

  predicate InThatOrder(s: Scenario, sdks: Pair) {
    |s.sdks| == 2 && Lower(s.sdks[0]) == sdks.0 && Lower(s.sdks[1]) == sdks.1
  }

  /** `group.find(...)`, from position `i` on, or else the first. */
  function Source(group: seq<Scenario>, sdks: Pair, i: nat): (s: Scenario)
    requires group != [] && i <= |group|
    ensures s in group
    ensures !InThatOrder(s, sdks) ==> forall j :: i <= j < |group| ==> !InThatOrder(group[j], sdks)
    decreases |group| - i
  {
    if i == |group| then group[0]
    else if InThatOrder(group[i], sdks) then group[i]
    else Source(group, sdks, i + 1)
  }

  /** It is the first in that order, or the first of all. */
  lemma {:induction false} SourceIsFirst(group: seq<Scenario>, sdks: Pair, i: nat)
    requires group != [] && i <= |group|
    ensures var s := Source(group, sdks, i);
      || (s == group[0] && forall j :: i <= j < |group| ==> !InThatOrder(group[j], sdks))
      || exists k :: i <= k < |group| && s == group[k] && FirstInOrder(group, sdks, i, k)
    decreases |group| - i
  {
    if i < |group| {
      if InThatOrder(group[i], sdks) {
        assert FirstInOrder(group, sdks, i, i);
      } else {
        SourceIsFirst(group, sdks, i + 1);
        if k :| i + 1 <= k < |group| && Source(group, sdks, i + 1) == group[k] && FirstInOrder(group, sdks, i + 1, k) {
          assert FirstInOrder(group, sdks, i, k);
        }
      }
    }
  }

  ghost predicate FirstInOrder(group: seq<Scenario>, sdks: Pair, i: nat, k: nat)
    requires i <= k < |group|
  {
    InThatOrder(group[k], sdks) && forall j :: i <= j < k ==> !InThatOrder(group[j], sdks)
  }

  /** The names of a card in display order. */
  function Displayed(summary: seq<string>, key: Pair): Pair {
    if Rank(summary, key.0) <= Rank(summary, key.1) then key else (key.1, key.0)
  }

  /** Lines 143-162, for one key. */
  function GroupFor(summary: seq<string>, group: seq<Scenario>, key: Pair): Group
    requires group != [] && forall i :: 0 <= i < |group| ==> |group[i].sdks| == 2
  {
    var sdks := Displayed(summary, key);
    var source := Source(group, sdks, 0);
    assert |source.sdks| == 2;
    var flipped := !InThatOrder(source, sdks) && Lower(source.sdks[0]) != sdks.0;
    Group(key, sdks, if flipped then Map(FlipEdge(), source.edges) else source.edges, group)
  }

  /** The position that the text of an end names. */
  function IndexAt(end: string): Option<nat> {
    if AllDigits(Strip(end)) then Some(Value(Strip(end))) else None
  }

  /** The name at one end of an edge. */
  function NameAt(sdks: Pair, end: string): Option<string> {
    if IndexAt(end) == Some(0) then Some(sdks.0) else if IndexAt(end) == Some(1) then Some(sdks.1) else None
  }

  /** Turning the edge round keeps what this end names. Where the pattern matches,
      the end names nothing, its digits are `0`, or it says one; where it does not,
      the end names neither. */
  predicate EndKept(matches: bool, end: string, run: string) {
    if matches then IndexAt(end) == None || run == "0" || IndexAt(end) == Some(1)
    else IndexAt(end) !in [Some(0), Some(1)]
  }

  lemma HavingPairs(scenarios: seq<Scenario>, key: Pair)
    ensures var group := Having(PairKey(), key, Pairs(scenarios));
      forall i :: 0 <= i < |group| ==> |group[i].sdks| == 2 && PairKey()(group[i]) == key && group[i] in scenarios
  {
    var group := Having(PairKey(), key, Pairs(scenarios));
    forall i | 0 <= i < |group| ensures |group[i].sdks| == 2 && PairKey()(group[i]) == key && group[i] in scenarios {
      assert group[i] in group;
      HavingMembers(PairKey(), key, Pairs(scenarios), group[i]);
      GatherMembers(IsPair(), scenarios, group[i]);
    }
  }

  predicate AllBlank(s: string) {
    forall i :: 0 <= i < |s| ==> IsSpace(s[i])
  }

  lemma {:induction false} BlankBefore(blanks: string, r: string)
    requires AllBlank(blanks) && AllDigits(r)
    ensures Strip(blanks + r) == r
  {
    if blanks == "" {
      assert blanks + r == r;
      DigitsStripped(r);
    } else {
      assert (blanks + r)[1..] == blanks[1..] + r;
      BlankBefore(blanks[1..], r);
    }
  }

  lemma {:induction false} BlankAfter(r: string, blanks: string)
    requires AllBlank(blanks) && AllDigits(r)
    ensures Strip(r + blanks) == r
  {
    if blanks == "" {
      assert r + blanks == r;
      DigitsStripped(r);
    } else {
      var less := blanks[..|blanks| - 1];
      assert (r + blanks)[..|r + blanks| - 1] == r + less;
      assert IsDigit((r + blanks)[0]) && IsSpace((r + blanks)[|r + blanks| - 1]);
      BlankAfter(r, less);
    }
  }

  /** A text that holds more than digits between its outer blanks is no number. */
  lemma NoNumber(text: string, part: string, k: nat)
    requires Contains(text, part) && Trimmed(part) && k < |part| && !IsDigit(part[k])
    ensures !AllDigits(Strip(text))
  {
    StripKeeps(text, part);
    var i: nat :| i <= |Strip(text)| && OccursAt(Strip(text), part, i);
    assert Strip(text)[i + k] == Strip(text)[i..i + |part|][k] == part[k];
  }

  lemma PartBefore(pre: string, r: string, i: nat)
    requires i < |pre|
    ensures Contains(pre + r, pre[i..] + r)
  {
    assert (pre + r)[i..i + |pre[i..] + r|] == pre[i..] + r;
    ContainsAt(pre + r, pre[i..] + r, i);
  }

  lemma TextBefore(pre: string, r: string)
    requires AllDigits(r) && !AllBlank(pre) && !IsDigit(pre[|pre| - 1])
    ensures !AllDigits(Strip(pre + r))
  {
    var i :| 0 <= i < |pre| && !IsSpace(pre[i]);
    PartBefore(pre, r, i);
    var part := pre[i..] + r;
    assert part[0] == pre[i] && part[|part| - 1] == r[|r| - 1] && part[|pre| - 1 - i] == pre[|pre| - 1];
    NoNumber(pre + r, part, |pre| - 1 - i);
  }

  lemma PartAfter(r: string, post: string, i: nat)
    requires i < |post|
    ensures Contains(r + post, r + post[..i + 1])
  {
    assert (r + post)[0..|r + post[..i + 1]|] == r + post[..i + 1];
    ContainsAt(r + post, r + post[..i + 1], 0);
  }

  lemma TextAfter(r: string, post: string)
    requires AllDigits(r) && !AllBlank(post) && !IsDigit(post[0])
    ensures !AllDigits(Strip(r + post))
  {
    var i :| 0 <= i < |post| && !IsSpace(post[i]);
    PartAfter(r, post, i);
    var part := r + post[..i + 1];
    assert part[0] == r[0] && part[|part| - 1] == post[i] && part[|r|] == post[0];
    NoNumber(r + post, part, |r|);
  }

  lemma IndexBefore(pre: string, r: string)
    requires AllDigits(r) && (pre == "" || !IsDigit(pre[|pre| - 1]))
    ensures IndexAt(pre + r) == if AllBlank(pre) then Some(Value(r)) else None
  {
    if AllBlank(pre) {
      BlankBefore(pre, r);
    } else {
      TextBefore(pre, r);
    }
  }

  lemma IndexAfter(r: string, post: string)
    requires AllDigits(r) && (post == "" || !IsDigit(post[0]))
    ensures IndexAt(r + post) == if AllBlank(post) then Some(Value(r)) else None
  {
    if AllBlank(post) {
      BlankAfter(r, post);
    } else {
      TextAfter(r, post);
    }
  }

  lemma FlipIs(r: string)
    ensures AllDigits(Flip(r)) && Value(Flip(r)) == (if r == "0" then 1 else 0)
    ensures r == "0" ==> Value(r) == 0
  {
    assert "0"[..0] == "" && "1"[..0] == "";
  }

  /** What the text of a turned end names: one for the digits `0`, zero for all
      others, or still nothing. */
  ghost predicate IsTurned(end: string, run: string, turned: string) {
    && IndexAt(turned) == (if IndexAt(end) == None then None else Some(if run == "0" then 1 else 0))
    && (run == "0" ==> IndexAt(end) in [None, Some(0)])
  }

  lemma {:induction false} TurnedAt(end: string, run: string, turned: string, blank: bool)
    requires AllDigits(run)
    requires IndexAt(end) == if blank then Some(Value(run)) else None
    requires IndexAt(turned) == if blank then Some(Value(Flip(run))) else None
    ensures IsTurned(end, run, turned)
  {
    FlipIs(run);
  }

  lemma {:induction false} TurnedBefore(t: string)
    requires TailRun(t) != ""
    ensures IsTurned(t, TailRun(t), TurnBefore(t))
  {
    var n := |t| - TailCount(t);
    var pre, run := t[..n], t[n..];
    assert t == pre + run;
    DigitsFrom(t, n);
    IndexBefore(pre, run);
    IndexBefore(pre, Flip(run));
    TurnedAt(t, run, TurnBefore(t), AllBlank(pre));
  }

  lemma DigitsFrom(t: string, n: nat)
    requires n < |t| && forall i :: n <= i < |t| ==> IsDigit(t[i])
    ensures AllDigits(t[n..])
  {
  }

  lemma {:induction false} TurnedAfter(t: string)
    requires HeadRun(t) != ""
    ensures IsTurned(t, HeadRun(t), TurnAfter(t))
  {
    var n := HeadCount(t);
    var run, post := t[..n], t[n..];
    assert t == run + post;
    IndexAfter(run, post);
    IndexAfter(Flip(run), post);
    TurnedAt(t, run, TurnAfter(t), AllBlank(post));
  }

  lemma TurnedName(names: Pair, matches: bool, end: string, run: string, turned: string)
    requires names.0 != names.1 && (if matches then IsTurned(end, run, turned) else turned == end)
    ensures NameAt((names.1, names.0), turned) == NameAt(names, end) <==> EndKept(matches, end, run)
  {
  }

  /** The card's edges join the same names as those of the scenario they come from,
      turned round or not; a turned end does exactly when `EndKept`. */
  lemma EdgesKeepNames(summary: seq<string>, group: seq<Scenario>, key: Pair, k: nat)
    requires group != []
    requires forall i :: 0 <= i < |group| ==> |group[i].sdks| == 2 && PairKey()(group[i]) == key
    ensures var card := GroupFor(summary, group, key); var source := Source(group, card.sdks, 0);
      var names := (Lower(source.sdks[0]), Lower(source.sdks[1]));
      && |card.edges| == |source.edges|
      && (k < |source.edges| ==>
           var e, f := source.edges[k], card.edges[k];
           && (names == card.sdks ==> f == e)
           && (names != card.sdks ==>
                && (NameAt(card.sdks, f.0) == NameAt(names, e.0) <==> EndKept(Matches(e), e.0, TailRun(e.0)))
                && (NameAt(card.sdks, f.1) == NameAt(names, e.1) <==> EndKept(Matches(e), e.1, HeadRun(e.1)))))
  {
    var sdks := Displayed(summary, key);
    var source := Source(group, sdks, 0);
    assert PairKey()(source) == key;
    var names := (Lower(source.sdks[0]), Lower(source.sdks[1]));
    if k < |source.edges| && names != sdks {
      var e := source.edges[k];
      assert sdks == (names.1, names.0) && names.0 != names.1;
      if Matches(e) {
        TurnedBefore(e.0);
        TurnedAfter(e.1);
      }
      TurnedName(names, Matches(e), e.0, TailRun(e.0), FlipEdge()(e).0);
      TurnedName(names, Matches(e), e.1, HeadRun(e.1), FlipEdge()(e).1);
    }
  }

  lemma PaddedRun(t: string)
    requires t == ['0', '0']
    ensures TailRun(t) == t
  {
    assert forall i :: 0 <= i < |t| ==> IsDigit(t[i]);
    assert TailCount(t) == 2;
  }

  lemma PaddedZero(t: string)
    requires t == ['0', '0']
    ensures IndexAt(t) == Some(0)
  {
    assert t[..1] == ['0'] && t[..1][..0] == [];
    assert Value(t[..1]) == 0;
    DigitsStripped(t);
  }

  lemma BlankAtArrow(t: string)
    requires t == ['0', ' ']
    ensures IndexAt(t) == Some(0) && TailRun(t) == ""
  {
    var zero := t[..1];
    assert zero == ['0'] && zero[..0] == [] && t == zero + [' '];
    assert Value(zero) == 0;
    BlankAfter(zero, [' ']);
  }

  /** What is drawn for a pair that is not in display order. */
  lemma TurnedCard(s: Scenario, k: nat)
    requires s.sdks == ["b", "a"] && k < |s.edges|
    ensures PairKey()(s) == ("a", "b")
    ensures var card := GroupFor([], [s], ("a", "b"));
      card.sdks == ("a", "b") && |card.edges| == |s.edges| && card.edges[k] == FlipEdge()(s.edges[k])
  {
    assert Lower("a") == "a" && Lower("b") == "b";
    assert Source([s], ("a", "b"), 0) == s;
  }

  /** Edges that the engine accepts and the card turns into others: a padded zero,
      and blanks beside the arrow. */
  lemma MisnamedEnds(s: Scenario, padded: Edge, spaced: Edge)
    requires s.sdks == ["b", "a"] && s.edges == [padded, spaced]
    requires padded == (['0', '0'], ['1']) && spaced == (['0', ' '], [' ', '1'])
    ensures PairKey()(s) == ("a", "b")
    ensures var card := GroupFor([], [s], ("a", "b"));
      && card.sdks == ("a", "b") && |card.edges| == 2
      && NameAt(("b", "a"), padded.0) == Some("b") && NameAt(card.sdks, card.edges[0].0) == Some("a")
      && NameAt(("b", "a"), spaced.0) == Some("b") && NameAt(card.sdks, card.edges[1].0) == Some("a")
  {
    TurnedCard(s, 0);
    TurnedCard(s, 1);
    PaddedRun(padded.0);
    PaddedZero(padded.0);
    BlankAtArrow(spaced.0);
    TurnedBefore(padded.0);
  }

  /** The card of a key is made of the pairs that have it. */
  ghost predicate IsCard(summary: seq<string>, pairs: seq<Scenario>, key: Pair, card: Group) {
    var group := Having(PairKey(), key, pairs);
    && group != [] && (forall i :: 0 <= i < |group| ==> |group[i].sdks| == 2)
    && card == GroupFor(summary, group, key)
  }

  lemma PairsNext(scenarios: seq<Scenario>, i: nat)
    requires i < |scenarios|
    ensures Pairs(scenarios[..i + 1])
         == if |scenarios[i].sdks| == 2 then Pairs(scenarios[..i]) + [scenarios[i]] else Pairs(scenarios[..i])
  {
    TakeNext(scenarios, i);
    GatherConcat(IsPair(), scenarios[..i], [scenarios[i]]);
    GatherOne(IsPair(), scenarios[i]);
  }

  /** Lines 123-128. */
  method CollectKeys(scenarios: seq<Scenario>) returns (keys: seq<Pair>)
    ensures keys == Keys(PairKey(), Pairs(scenarios))
  {
    keys := [];
    for i := 0 to |scenarios|
      invariant keys == Keys(PairKey(), Pairs(scenarios[..i]))
    {
      PairsNext(scenarios, i);
      KeysNext(PairKey(), Pairs(scenarios[..i]), scenarios[i]);
      if |scenarios[i].sdks| != 2 {
        continue;
      }
      if PairKey()(scenarios[i]) !in keys {
        keys := keys + [PairKey()(scenarios[i])];
      }
    }
    assert scenarios[..|scenarios|] == scenarios;
  }

  ghost function CardOf(summary: seq<string>, pairs: seq<Scenario>): (Pair, Group) -> bool {
    (key: Pair, card: Group) => IsCard(summary, pairs, key, card)
  }

  method MakeCard(scenarios: seq<Scenario>, summary: seq<string>, key: Pair) returns (card: Group)
    requires Having(PairKey(), key, Pairs(scenarios)) != []
    ensures IsCard(summary, Pairs(scenarios), key, card)
  {
    HavingPairs(scenarios, key);
    return GroupFor(summary, Having(PairKey(), key, Pairs(scenarios)), key);
  }

  /** `pairwiseGroups`. */
  method PairwiseGroups(scenarios: seq<Scenario>, summary: seq<string>) returns (cards: seq<Group>)
    ensures var keys := Sorted(After(summary), Keys(PairKey(), Pairs(scenarios)));
      |cards| == |keys| && EachMade(CardOf(summary, Pairs(scenarios)), keys, cards)
  {
    var found := CollectKeys(scenarios);
    var keys := Sorted(After(summary), found);
    cards := [];
    for i := 0 to |keys|
      invariant |cards| == i && EachMade(CardOf(summary, Pairs(scenarios)), keys, cards)
    {
      KeyInUse(summary, Pairs(scenarios), i);
      var card := MakeCard(scenarios, summary, keys[i]);
      EachMadeNext(CardOf(summary, Pairs(scenarios)), keys, cards, card);
      cards := cards + [card];
    }
  }

  lemma {:induction false} KeyInUse(summary: seq<string>, pairs: seq<Scenario>, i: nat)
    requires i < |Sorted(After(summary), Keys(PairKey(), pairs))|
    ensures Having(PairKey(), Sorted(After(summary), Keys(PairKey(), pairs))[i], pairs) != []
  {
    var keys, sorted := Keys(PairKey(), pairs), Sorted(After(summary), Keys(PairKey(), pairs));
    SortedKeeps(After(summary), keys);
    assert sorted[i] in multiset(sorted);
    assert sorted[i] in multiset(keys);
    KeysExact(PairKey(), pairs, sorted[i]);
    var s :| s in pairs && PairKey()(s) == sorted[i];
    HavingMembers(PairKey(), sorted[i], pairs, s);
  }

  /** On each card the first name stands no later in the summary than the second, and
      from card to card these positions rise. */
  lemma CardsRise(summary: seq<string>, scenarios: seq<Scenario>, cards: seq<Group>, i: nat, j: nat)
    requires var keys := Sorted(After(summary), Keys(PairKey(), Pairs(scenarios)));
      |cards| == |keys| && EachMade(CardOf(summary, Pairs(scenarios)), keys, cards)
    requires i < j < |cards|
    ensures var p, q := cards[i].sdks, cards[j].sdks;
      && Rank(summary, p.0) <= Rank(summary, p.1) && Rank(summary, q.0) <= Rank(summary, q.1)
      && (Rank(summary, p.0) < Rank(summary, q.0)
          || (Rank(summary, p.0) == Rank(summary, q.0) && Rank(summary, p.1) <= Rank(summary, q.1)))
  {
    var keys := Sorted(After(summary), Keys(PairKey(), Pairs(scenarios)));
    SortedKeeps(After(summary), Keys(PairKey(), Pairs(scenarios)));
    assert !After(summary)(keys[i], keys[j]);
    assert CardOf(summary, Pairs(scenarios))(keys[i], cards[i]);
    assert CardOf(summary, Pairs(scenarios))(keys[j], cards[j]);
  }

  /** Cards at the same positions come in the order in which their pairs appear. */
  lemma TiesKeepOrder(summary: seq<string>, scenarios: seq<Scenario>, ranks: (nat, nat))
    ensures var keys := Keys(PairKey(), Pairs(scenarios));
      var tied := (key: Pair) => Ranks(summary, key) == ranks;
      Gather(OnlyIf(tied), Sorted(After(summary), keys)) == Gather(OnlyIf(tied), keys)
  {
    SortedStable(After(summary), Keys(PairKey(), Pairs(scenarios)), (key: Pair) => Ranks(summary, key) == ranks);
  }

  /** The cards share out the two-node scenarios: keys are distinct, and every
      scenario is on one card, as often as it was given. */
  lemma CardsPartition(summary: seq<string>, scenarios: seq<Scenario>)
    ensures var pairs := Pairs(scenarios); var keys := Sorted(After(summary), Keys(PairKey(), pairs));
      && NoDuplicates(keys) && InOrder(After(summary), keys)
      && multiset(Gather(GroupOf(PairKey(), pairs), keys)) == multiset(pairs)
  {
    var pairs := Pairs(scenarios);
    var keys, sorted := Keys(PairKey(), pairs), Sorted(After(summary), Keys(PairKey(), pairs));
    SortedKeeps(After(summary), keys);
    KeysExact(PairKey(), pairs, ("", ""));
    SameMembersDistinct(keys, sorted);
    forall s | s in pairs ensures PairKey()(s) in sorted {
      KeysExact(PairKey(), pairs, PairKey()(s));
      assert PairKey()(s) in multiset(keys);
    }
    GroupsPartition(PairKey(), pairs, sorted);
  }
}
