/** Edge strings as the coverage calculator reads them
    (scripts/scenarios_diff.py, lines 70-80). */
module EdgeReading {
  import opened Wrappers
  import opened Text
  import opened Sequences
  import opened EdgeStrings

  /** Digits, with single underscores allowed between two of them. */
  predicate IsNumeral(t: string) {
    t != "" && forall i :: 0 <= i < |t| ==> DigitOrJoint(t, i)
  }

  predicate DigitOrJoint(t: string, i: nat)
    requires i < |t|
  {
    IsDigit(t[i]) || (t[i] == '_' && 0 < i < |t| - 1 && IsDigit(t[i - 1]) && IsDigit(t[i + 1]))
  }

  /** That is: digits at both ends, nothing but digits and underscores between, and
      no two underscores together. */
  lemma NumeralShape(t: string)
    ensures IsNumeral(t) <==>
      && t != "" && IsDigit(t[0]) && IsDigit(t[|t| - 1])
      && (forall i :: 0 <= i < |t| ==> IsDigit(t[i]) || t[i] == '_')
      && (forall i {:trigger t[i]} :: 0 < i < |t| ==> !(t[i - 1] == '_' && t[i] == '_'))
  {
    if IsNumeral(t) {
      assert DigitOrJoint(t, 0) && DigitOrJoint(t, |t| - 1);
      forall i {:trigger t[i]} | 0 < i < |t| ensures !(t[i - 1] == '_' && t[i] == '_') {
        assert DigitOrJoint(t, i);
      }
      forall i | 0 <= i < |t| ensures IsDigit(t[i]) || t[i] == '_' {
        assert DigitOrJoint(t, i);
      }
    }
  }

  /** The text without its underscores. */
  function Bare(t: string): string {
    if t == "" then ""
    else Bare(t[..|t| - 1]) + (if t[|t| - 1] == '_' then "" else [t[|t| - 1]])
  }

  lemma {:induction false} BareDigits(t: string)
    requires forall i :: 0 <= i < |t| ==> IsDigit(t[i]) || t[i] == '_'
    ensures forall i :: 0 <= i < |Bare(t)| ==> IsDigit(Bare(t)[i])
  {
    if t != "" {
      BareDigits(t[..|t| - 1]);
    }
  }

  lemma {:induction false} BarePlain(t: string)
    requires '_' !in t
    ensures Bare(t) == t
  {
    if t != "" {
      BarePlain(t[..|t| - 1]);
    }
  }

  lemma NumeralDigits(t: string)
    requires IsNumeral(t)
    ensures forall i :: 0 <= i < |t| ==> IsDigit(t[i]) || t[i] == '_'
    ensures AllDigits(t) <==> '_' !in t
  {
    forall i | 0 <= i < |t| ensures IsDigit(t[i]) <==> t[i] != '_' {
      assert DigitOrJoint(t, i);
    }
  }

  function NumeralValue(t: string): nat
    requires IsNumeral(t)
  {
    NumeralDigits(t);
    BareDigits(t);
    Value(Bare(t))
  }

  lemma {:induction false} BareConcat(a: string, b: string)
    ensures Bare(a + b) == Bare(a) + Bare(b)
  {
    if b == "" {
      assert a + b == a;
    } else {
      var rest, last := b[..|b| - 1], b[|b| - 1];
      assert (a + b)[..|a + b| - 1] == a + rest;
      BareConcat(a, rest);
    }
  }

  /** Two numerals with an underscore between them, or put side by side, are
      numerals. */
  lemma {:induction false} NumeralsJoined(a: string, b: string, all: string)
    requires IsNumeral(a) && IsNumeral(b) && (all == a + b || all == a + ['_'] + b)
    ensures IsNumeral(all)
  {
    var gap := |all| - |b|;
    forall i | 0 <= i < |all| ensures DigitOrJoint(all, i) {
      assert DigitOrJoint(a, 0) && DigitOrJoint(a, |a| - 1) && DigitOrJoint(b, 0) && DigitOrJoint(b, |b| - 1);
      if i < |a| {
        assert DigitOrJoint(a, i);
      } else if i >= gap {
        assert DigitOrJoint(b, i - gap);
      }
    }
  }

  lemma {:induction false} BareDropped(a: string, b: string)
    ensures Bare(a + ['_'] + b) == Bare(a + b)
  {
    BareConcat(a + ['_'], b);
    BareEnd(a);
    BareConcat(a, b);
  }

  lemma {:induction false} BareEnd(a: string)
    ensures Bare(a + ['_']) == Bare(a)
  {
    assert (a + ['_'])[..|a|] == a;
  }

  /** They mean the same: an underscore changes no number. */
  lemma {:induction false} UnderscoreDropped(a: string, b: string)
    requires IsNumeral(a) && IsNumeral(b)
    ensures IsNumeral(a + ['_'] + b) && IsNumeral(a + b)
    ensures NumeralValue(a + ['_'] + b) == NumeralValue(a + b)
  {
    NumeralsJoined(a, b, a + ['_'] + b);
    NumeralsJoined(a, b, a + b);
    BareDropped(a, b);
  }

  /** `int(s)`: blanks around, an optional sign, a numeral. */
  function ToInt(s: string): Option<int> {
    var t := Strip(s);
    if IsNumeral(t) then Some(NumeralValue(t))
    else if t != "" && t[0] == '-' && IsNumeral(t[1..]) then Some(0 - NumeralValue(t[1..]) as int)
    else if t != "" && t[0] == '+' && IsNumeral(t[1..]) then Some(NumeralValue(t[1..]))
    else None
  }

  /** Plain digits are a numeral and mean the same. */
  lemma DigitsAreNumeral(t: string)
    requires AllDigits(t)
    ensures IsNumeral(t) && NumeralValue(t) == Value(t)
  {
    forall i | 0 <= i < |t| ensures DigitOrJoint(t, i) && t[i] != '_' {
      assert IsDigit(t[i]);
    }
    BarePlain(t);
  }

  /** `s.sdks[i]`, counting from the end when negative. */
  function Subscript(i: int, n: nat): (r: Option<nat>)
    ensures r.Some? ==> r.value < n
  {
    if 0 <= i < n then Some(i) else if 0 <= i + n < n then Some(i + n) else None
  }

  /** An index is taken from either end, and names a position modulo the length. */
  lemma SubscriptWraps(i: int, n: nat)
    ensures Subscript(i, n).Some? <==> 0 - n as int <= i < n
    ensures Subscript(i, n).Some? ==> Subscript(i, n).value == i % n
  {
  }

  /** Lines 77-79 for one edge; `None` where they raise. */
  function ReadEdge(edge: string, n: nat): (r: Option<(nat, nat)>)
    ensures r.Some? ==> r.value.0 < n && r.value.1 < n
  {
    var (rawU, rawV) := PartitionArrow(edge);
    match (ToInt(rawU), ToInt(rawV))
    case (Some(i), Some(j)) =>
      (match (Subscript(i, n), Subscript(j, n))
       case (Some(u), Some(v)) => Some((u, v))
       case _ => None)
    case _ => None
  }

  /** An edge the engine accepts is read the same way here. */
  lemma ReadsWhatTheEngineReads(edge: string, n: nat)
    requires ParseEdge(edge, n).Some?
    ensures ReadEdge(edge, n) == ParseEdge(edge, n)
  {
    SplitIsPartition(edge);
    var parts := SplitArrow(edge);
    assert PartitionArrow(edge) == (parts[0], parts[1]);
    DigitsAreNumeral(Strip(parts[0]));
    DigitsAreNumeral(Strip(parts[1]));
  }

  // ------------------------------------------------- when the two readers agree

  /** Written with a sign or with an underscore. */
  predicate Marked(t: string) {
    t != "" && (t[0] == '-' || t[0] == '+' || '_' in t)
  }

  /** Neither index is. */
  predicate Unmarked(edge: string) {
    var (rawU, rawV) := PartitionArrow(edge);
    !Marked(Strip(rawU)) && !Marked(Strip(rawV))
  }

  /** Splitting goes on where partitioning stops. */
  lemma {:induction false} PartitionCuts(s: string)
    ensures |SplitArrow(s)| == 1 ==> PartitionArrow(s) == (s, "")
    ensures |SplitArrow(s)| > 1 ==> SplitArrow(s) == [PartitionArrow(s).0] + SplitArrow(PartitionArrow(s).1)
  {
    if s != "" && !(|s| >= 2 && s[0] == '-' && s[1] == '>') {
      PartitionCuts(s[1..]);
      assert [s[0]] + s[1..] == s;
    }
  }

  /** Stripping keeps every character that is no blank. */
  lemma StripKeepsChar(s: string, k: nat)
    requires k < |s| && !IsSpace(s[k])
    ensures s[k] in Strip(s)
  {
    var t := [s[k]];
    assert s[k..k + 1] == t;
    ContainsAt(s, t, k);
    StripKeeps(s, t);
    var i: nat :| i <= |Strip(s)| && OccursAt(Strip(s), t, i);
    assert Strip(s)[i] == Strip(s)[i..i + 1][0] == s[k];
  }

  /** A text that splits further holds no plain number. */
  lemma SplitIsNoNumber(s: string)
    requires |SplitArrow(s)| > 1
    ensures !AllDigits(Strip(s))
  {
    if forall i :: 0 <= i < |s| ==> s[i] != '-' {
      SplitNoDash(s);
    } else {
      var k :| 0 <= k < |s| && s[k] == '-';
      StripKeepsChar(s, k);
    }
  }

  lemma UnmarkedDigits(s: string)
    requires !Marked(Strip(s))
    ensures ToInt(s) == if AllDigits(Strip(s)) then Some(Value(Strip(s))) else None
  {
    var t := Strip(s);
    if AllDigits(t) {
      DigitsAreNumeral(t);
    }
    if IsNumeral(t) {
      NumeralDigits(t);
    }
  }

  lemma DigitsUnmarked(t: string)
    requires AllDigits(t)
    ensures !Marked(t)
  {
    assert forall i :: 0 <= i < |t| ==> IsDigit(t[i]);
  }

  /** Both readers give one answer exactly when this one gives none, or neither
      index has a sign or an underscore: `-1` counts from the end, `+1` and `0_1`
      are one here, and all three are a `ValueError` in the engine. */
  lemma ReadersAgreeIffUnmarked(edge: string, n: nat)
    ensures ReadEdge(edge, n) == ParseEdge(edge, n) <==> ReadEdge(edge, n) == None || Unmarked(edge)
  {
    if ParseEdge(edge, n).Some? {
      ReadsWhatTheEngineReads(edge, n);
      ParsedIsUnmarked(edge, n);
    } else if ReadEdge(edge, n).Some? && Unmarked(edge) {
      ReadUnmarkedParses(edge, n);
    }
  }

  lemma ParsedIsUnmarked(edge: string, n: nat)
    requires ParseEdge(edge, n).Some?
    ensures Unmarked(edge)
  {
    SplitIsPartition(edge);
    var (rawU, rawV) := PartitionArrow(edge);
    DigitsUnmarked(Strip(rawU));
    DigitsUnmarked(Strip(rawV));
  }

  lemma ReadUnmarkedParses(edge: string, n: nat)
    requires ReadEdge(edge, n).Some? && Unmarked(edge)
    ensures ParseEdge(edge, n).Some?
  {
    var (rawU, rawV) := PartitionArrow(edge);
    PartitionCuts(edge);
    SplitIsPartition(rawV);
    UnmarkedDigits(rawU);
    UnmarkedDigits(rawV);
    if |SplitArrow(rawV)| > 1 {
      SplitIsNoNumber(rawV);
    }
    assert Strip("") == "" && ToInt("") == None;
  }

  /** What both make of an edge whose first half is no plain number. */
  lemma MarkedHalf(edge: string, u: string, v: string, i: int, n: nat)
    requires SplitArrow(edge) == [u, v] && Marked(Strip(u)) && ToInt(u) == Some(i) && ToInt(v) == Some(0) && n > 0
    ensures ParseEdge(edge, n) == None
    ensures ReadEdge(edge, n) == if Subscript(i, n).Some? then Some((Subscript(i, n).value, 0)) else None
  {
    SplitIsPartition(edge);
    if AllDigits(Strip(u)) {
      DigitsUnmarked(Strip(u));
    }
  }

  lemma SplitHead(u: string, v: string)
    requires u != "" && (u[0] == '-' ==> |u| > 1 && u[1] != '>')
    requires forall i :: 0 < i < |u| ==> u[i] != '-'
    requires forall i :: 0 <= i < |v| ==> v[i] != '-'
    ensures SplitArrow(u + "->" + v) == [u, v]
  {
    assert (u + "->" + v)[1..] == u[1..] + "->" + v;
    SplitTwo(u[1..], v);
    assert [u[0]] + u[1..] == u;
  }

  lemma OneIsOne(t: string)
    requires t == ['1']
    ensures IsNumeral(t) && NumeralValue(t) == 1
  {
    DigitsAreNumeral(t);
    assert t[..0] == "";
  }

  lemma ZeroIsZero(t: string)
    requires t == ['0']
    ensures ToInt(t) == Some(0)
  {
    DigitsAreNumeral(t);
    assert Strip(t) == t && t[..0] == "";
  }

  /** A sign before a numeral. */
  lemma {:induction false} SignedNumeral(t: string)
    requires Strip(t) == t && t != "" && t[0] in ['-', '+'] && IsNumeral(t[1..])
    ensures Marked(Strip(t))
    ensures ToInt(t) == Some(if t[0] == '-' then 0 - NumeralValue(t[1..]) as int else NumeralValue(t[1..]))
  {
    assert !DigitOrJoint(t, 0);
  }

  lemma SignedOne(t: string)
    requires |t| == 2 && t[0] in ['-', '+'] && t[1] == '1'
    ensures Marked(Strip(t)) && (ToInt(t) == Some(1) || ToInt(t) == Some(-1))
  {
    OneIsOne(t[1..]);
    TrimmedStays(t);
    SignedNumeral(t);
  }

  lemma BareNext(t: string, c: char)
    ensures Bare(t + [c]) == Bare(t) + (if c == '_' then "" else [c])
  {
    assert (t + [c])[..|t|] == t;
  }

  /** `0_1` without its underscore. */
  lemma JoinedOne(t: string)
    requires |t| == 3 && t[0] == '0' && t[1] == '_' && t[2] == '1'
    ensures Bare(t) == ['0', '1']
  {
    var zero := ['0'];
    BarePlain(zero);
    BareNext(zero, '_');
    BareNext(zero + ['_'], '1');
    assert t == zero + ['_'] + ['1'];
  }

  lemma PaddedOne(t: string)
    requires t == ['0', '1']
    ensures Value(t) == 1
  {
    assert t[..1] == ['0'] && t[..1][..0] == [];
    assert Value(t[..1]) == 0;
  }

  lemma UnderscoredOne(t: string)
    requires |t| == 3 && t[0] == '0' && t[1] == '_' && t[2] == '1'
    ensures Marked(Strip(t)) && ToInt(t) == Some(1)
  {
    JoinedOne(t);
    PaddedOne(Bare(t));
    assert DigitOrJoint(t, 0) && DigitOrJoint(t, 1) && DigitOrJoint(t, 2);
    TrimmedStays(t);
    assert t[1] in t;
  }

  /** `-1`, `+1` and `0_1`. */
  predicate IsMarkedOne(u: string) {
    || (|u| == 2 && u[0] in ['-', '+'] && u[1] == '1')
    || (|u| == 3 && u[0] == '0' && u[1] == '_' && u[2] == '1')
  }

  lemma MarkedOne(u: string)
    requires IsMarkedOne(u)
    ensures Marked(Strip(u)) && (ToInt(u) == Some(1) || ToInt(u) == Some(-1))
  {
    if |u| == 2 {
      SignedOne(u);
    } else {
      UnderscoredOne(u);
    }
  }

  lemma SplitMarked(u: string, edge: string)
    requires IsMarkedOne(u) && edge == u + "->" + ['0']
    ensures SplitArrow(edge) == [u, ['0']]
  {
    SplitHead(u, ['0']);
  }

  lemma ReadsMarked(u: string, v: string, edge: string)
    requires IsMarkedOne(u) && v == ['0'] && edge == u + "->" + v
    ensures ReadEdge(edge, 2) == Some((1, 0)) && ParseEdge(edge, 2) == None
  {
    SplitMarked(u, edge);
    ZeroIsZero(v);
    MarkedOne(u);
    MarkedHalf(edge, u, v, ToInt(u).value, 2);
  }

  /** Signed indices, and one with an underscore, that this reader takes and the
      engine refuses. */
  lemma ReadsMoreThanTheEngine(edge: string)
    requires edge in ["-1->0", "+1->0", "0_1->0"]
    ensures ReadEdge(edge, 2) == Some((1, 0)) && ParseEdge(edge, 2) == None
  {
    var u := edge[..|edge| - 3];
    assert edge == u + "->" + ['0'];
    ReadsMarked(u, ['0'], edge);
  }

  // ----------------------------------------------------------- a list of edges

  predicate AllRead(edges: seq<string>, n: nat) {
    forall i :: 0 <= i < |edges| ==> ReadEdge(edges[i], n).Some?
  }

  /** The pairs of ids that readable edges name here, in order. */
  function ReadNamed(edges: seq<string>, ids: seq<string>): (r: seq<(string, string)>)
    requires AllRead(edges, |ids|)
    ensures |r| == |edges|
  {
    if edges == [] then []
    else
      var e := ReadEdge(edges[|edges| - 1], |ids|).value;
      ReadNamed(edges[..|edges| - 1], ids) + [(ids[e.0], ids[e.1])]
  }

  /** Edges that the engine accepts name the same pairs. */
  lemma {:induction false} ParsedNameTheSame(edges: seq<string>, ids: seq<string>)
    requires AllParse(edges, |ids|)
    ensures AllRead(edges, |ids|) && ReadNamed(edges, ids) == Named(edges, ids)
  {
    if edges != [] {
      ParsedNameTheSame(edges[..|edges| - 1], ids);
      ReadsWhatTheEngineReads(edges[|edges| - 1], |ids|);
      forall i | 0 <= i < |edges| ensures ReadEdge(edges[i], |ids|).Some? {
        ReadsWhatTheEngineReads(edges[i], |ids|);
      }
    }
  }

  ghost function PairsOf(edges: seq<(string, string)>): set<(string, string)> {
    set e | e in edges
  }

  lemma ReadableNext(edges: seq<string>, k: nat, n: nat)
    requires k < |edges| && AllRead(edges[..k], n)
    ensures AllRead(edges[..k + 1], n) <==> ReadEdge(edges[k], n).Some?
    ensures AllRead(edges, n) ==> ReadEdge(edges[k], n).Some?
  {
    assert edges[..k + 1][..k] == edges[..k] && edges[..k + 1][k] == edges[k];
    EachNext((edge: string) => ReadEdge(edge, n).Some?, edges[..k], edges[..k + 1]);
  }

  lemma PairsNext(pairs: seq<(string, string)>, e: (string, string))
    ensures PairsOf(pairs + [e]) == PairsOf(pairs) + {e}
  {
  }

  lemma {:induction false} ReadNext(edges: seq<string>, k: nat, ids: seq<string>)
    requires k < |edges| && AllRead(edges[..k], |ids|)
    ensures AllRead(edges[..k + 1], |ids|) <==> ReadEdge(edges[k], |ids|).Some?
    ensures AllRead(edges, |ids|) ==> ReadEdge(edges[k], |ids|).Some?
    ensures AllRead(edges[..k + 1], |ids|) ==>
      var e := ReadEdge(edges[k], |ids|).value;
      PairsOf(ReadNamed(edges[..k + 1], ids)) == PairsOf(ReadNamed(edges[..k], ids)) + {(ids[e.0], ids[e.1])}
  {
    ReadableNext(edges, k, |ids|);
    if AllRead(edges[..k + 1], |ids|) {
      var e := ReadEdge(edges[k], |ids|).value;
      assert edges[..k + 1][..k] == edges[..k];
      PairsNext(ReadNamed(edges[..k], ids), (ids[e.0], ids[e.1]));
    }
  }

  /** The loop of `_edge_pairs`. */
  method ListedPairs(sdks: seq<string>, edges: seq<string>) returns (r: Option<set<(string, string)>>)
    ensures r == if AllRead(edges, |sdks|) then Some(PairsOf(ReadNamed(edges, sdks))) else None
  {
    var pairs := {};
    for k := 0 to |edges|
      invariant AllRead(edges[..k], |sdks|) && pairs == PairsOf(ReadNamed(edges[..k], sdks))
    {
      var e := ReadEdge(edges[k], |sdks|);
      ReadNext(edges, k, sdks);
      if e.None? {
        return None;
      }
      pairs := pairs + {(sdks[e.value.0], sdks[e.value.1])};
    }
    assert edges[..|edges|] == edges;
    return Some(pairs);
  }

  ghost function CompletePairs(sdks: seq<string>): set<(string, string)> {
    set u, v | u in sdks && v in sdks && u != v :: (u, v)
  }

  /** The calculator can read the list, if there is one. */
  predicate Counted(sdks: seq<string>, edges: Option<seq<string>>) {
    edges.Some? ==> AllRead(edges.value, |sdks|)
  }

  /** The pairs that a scenario is said to exercise. */
  ghost function StaticPairs(sdks: seq<string>, edges: Option<seq<string>>): set<(string, string)>
    requires Counted(sdks, edges)
  {
    if edges.None? then CompletePairs(sdks) else PairsOf(ReadNamed(edges.value, sdks))
  }

  /** `_edge_pairs`; `None` where it raises. */
  method EdgePairs(sdks: seq<string>, edges: Option<seq<string>>) returns (r: Option<set<(string, string)>>)
    ensures r == if Counted(sdks, edges) then Some(StaticPairs(sdks, edges)) else None
  {
    if edges.None? {
      return Some(set u, v | u in sdks && v in sdks && u != v :: (u, v));
    }
    r := ListedPairs(sdks, edges.value);
  }
}
