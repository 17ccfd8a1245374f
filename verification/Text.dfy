/** The Python string operations the engine and the verifiers rely on: substring
    test, `strip`, `join`, ASCII decimals, splitting on `->`. */
module Text {

  // --------------------------------------------------------------- substrings

  predicate OccursAt(text: string, s: string, i: nat) {
    i + |s| <= |text| && text[i..i + |s|] == s
  }

  /** `s in text`. */
  predicate Contains(text: string, s: string) {
    exists i: nat :: i <= |text| && OccursAt(text, s, i)
  }

  lemma ContainsAt(text: string, s: string, i: nat)
    requires i + |s| <= |text| && text[i..i + |s|] == s
    ensures Contains(text, s)
  {
    assert OccursAt(text, s, i);
  }

  lemma ContainsMiddle(a: string, s: string, b: string)
    ensures Contains(a + s + b, s)
  {
    ContainsAt(a + s + b, s, |a|);
  }

  lemma SliceOfSlice<T>(s: seq<T>, a: nat, b: nat, c: nat, d: nat)
    requires a <= b <= |s| && c <= d <= b - a
    ensures s[a..b][c..d] == s[a + c..a + d]
  {
    var x, y := s[a..b][c..d], s[a + c..a + d];
    forall i | 0 <= i < |x| ensures x[i] == y[i] { }
  }

  lemma ContainsSelf(s: string)
    ensures Contains(s, s)
  {
    assert s[0..|s|] == s;
    ContainsAt(s, s, 0);
  }

  lemma ContainsTrans(text: string, s: string, t: string)
    requires Contains(text, s) && Contains(s, t)
    ensures Contains(text, t)
  {
    var i: nat :| i <= |text| && OccursAt(text, s, i);
    var j: nat :| j <= |s| && OccursAt(s, t, j);
    SliceOfSlice(text, i, i + |s|, j, j + |t|);
    ContainsAt(text, t, i + j);
  }

  lemma ContainsWider(a: string, text: string, b: string, s: string)
    requires Contains(text, s)
    ensures Contains(a + text + b, s)
  {
    ContainsMiddle(a, text, b);
    ContainsTrans(a + text + b, text, s);
  }

  lemma ContainsEmpty(text: string)
    ensures Contains(text, "")
  {
    ContainsAt(text, "", 0);
  }

  lemma ContainsLonger(text: string, sep: string, more: string, s: string)
    requires Contains(text, s)
    ensures Contains(text + sep + more, s)
  {
    ContainsWider("", text, sep + more, s);
    assert "" + text + (sep + more) == text + sep + more;
  }

  /** `all(token in text for token in tokens)`. */
  predicate AllIn(tokens: seq<string>, text: string) {
    forall i :: 0 <= i < |tokens| ==> Contains(text, tokens[i])
  }

  /** `n` times `c`. */
  function Run(c: char, n: nat): (r: string)
    ensures |r| == n && forall i {:trigger r[i]} :: 0 <= i < n ==> r[i] == c
  {
    seq(n, i => c)
  }

  // -------------------------------------------------------------------- strip

  /** What `isspace` holds of. */
  predicate IsSpace(c: char) {
    c == ' ' || '\t' <= c <= '\r' || '\U{1c}' <= c <= '\U{1f}' || IsWideSpace(c)
  }

  /** The blanks beyond ASCII. */
  predicate IsWideSpace(c: char) {
    || c == '\U{85}' || c == '\U{a0}' || c == '\U{1680}' || '\U{2000}' <= c <= '\U{200a}'
    || c == '\U{2028}' || c == '\U{2029}' || c == '\U{202f}' || c == '\U{205f}' || c == '\U{3000}'
  }

  function Strip(s: string): (r: string)
    ensures |r| <= |s|
  {
    if s == "" then s
    else if IsSpace(s[0]) then Strip(s[1..])
    else if IsSpace(s[|s| - 1]) then Strip(s[..|s| - 1])
    else s
  }

  /** `strip` would leave it as it is. */
  predicate Trimmed(s: string) {
    s == "" || (!IsSpace(s[0]) && !IsSpace(s[|s| - 1]))
  }

  lemma TrimmedStays(s: string)
    requires Trimmed(s)
    ensures Strip(s) == s
  {
  }

  lemma ContainsEnds(s: string)
    requires s != ""
    ensures Contains(s, s[1..]) && Contains(s, s[..|s| - 1])
  {
    ContainsAt(s, s[1..], 1);
    ContainsAt(s, s[..|s| - 1], 0);
  }

  /** What `strip` leaves is inside the text. */
  lemma {:induction false} StripWithin(s: string)
    ensures Contains(s, Strip(s)) && Trimmed(Strip(s))
  {
    if Trimmed(s) {
      ContainsSelf(s);
    } else {
      var shorter := if IsSpace(s[0]) then s[1..] else s[..|s| - 1];
      ContainsEnds(s);
      StripWithin(shorter);
      ContainsTrans(s, shorter, Strip(s));
    }
  }

  /** Stripping a text loses no token that has no blank at its own ends. */
  lemma {:induction false} StripKeeps(s: string, t: string)
    requires Trimmed(t)
    ensures Contains(Strip(s), t) <==> Contains(s, t)
  {
    if Contains(Strip(s), t) {
      StripWithin(s);
      ContainsTrans(s, Strip(s), t);
    }
    if Contains(s, t) {
      var i: nat :| i <= |s| && OccursAt(s, t, i);
      if t == "" {
        ContainsAt(Strip(s), t, 0);
      } else if IsSpace(s[0]) {
        assert t[0] == s[i] && i != 0;
        assert s[1..][i - 1..i - 1 + |t|] == t;
        ContainsAt(s[1..], t, i - 1);
        StripKeeps(s[1..], t);
      } else if IsSpace(s[|s| - 1]) {
        assert t[|t| - 1] == s[i + |t| - 1] && i + |t| != |s|;
        assert s[..|s| - 1][i..i + |t|] == t;
        ContainsAt(s[..|s| - 1], t, i);
        StripKeeps(s[..|s| - 1], t);
      }
    }
  }

  // --------------------------------------------------------------------- join

  /** `sep.join(parts)`. */
  function Join(parts: seq<string>, sep: string): string {
    if parts == [] then ""
    else if |parts| == 1 then parts[0]
    else parts[0] + sep + Join(parts[1..], sep)
  }

  lemma {:induction false} JoinContains(parts: seq<string>, sep: string, k: nat)
    requires k < |parts|
    ensures Contains(Join(parts, sep), parts[k])
  {
    if |parts| == 1 {
      ContainsSelf(parts[0]);
    } else if k == 0 {
      ContainsMiddle("", parts[0], sep + Join(parts[1..], sep));
      assert "" + parts[0] + (sep + Join(parts[1..], sep)) == Join(parts, sep);
    } else {
      JoinContains(parts[1..], sep, k - 1);
      ContainsWider(parts[0] + sep, Join(parts[1..], sep), "", parts[k]);
      assert parts[0] + sep + Join(parts[1..], sep) + "" == Join(parts, sep);
    }
  }

  /** Joining more parts keeps what the first ones made. */
  lemma {:induction false} JoinAppend(a: seq<string>, b: seq<string>, sep: string)
    requires a != [] && b != []
    ensures Join(a + b, sep) == Join(a, sep) + sep + Join(b, sep)
  {
    if |a| == 1 {
      assert (a + b)[1..] == b;
    } else {
      assert (a + b)[1..] == a[1..] + b;
      JoinAppend(a[1..], b, sep);
      assert a[0] + sep + (Join(a[1..], sep) + sep + Join(b, sep))
          == a[0] + sep + Join(a[1..], sep) + sep + Join(b, sep);
    }
  }

  lemma JoinLast(parts: seq<string>, last: string, sep: string)
    ensures Join(parts + [last], sep) == Join(parts, sep) + (if parts == [] then "" else sep) + last
  {
    if parts == [] {
      assert parts + [last] == [last];
    } else {
      JoinAppend(parts, [last], sep);
    }
  }

  /** Joining what was joined with the same separator. */
  lemma JoinNested(a: seq<string>, b: seq<string>, sep: string)
    requires b != []
    ensures Join(a + [Join(b, sep)], sep) == Join(a + b, sep)
  {
    JoinLast(a, Join(b, sep), sep);
    if a == [] {
      assert a + b == b;
    } else {
      JoinAppend(a, b, sep);
    }
  }

  predicate Free(s: string, c: char) {
    forall i :: 0 <= i < |s| ==> s[i] != c
  }

  /** The first separator decides where a text is cut. */
  lemma CutAt(x: string, y: string, x': string, y': string, c: char)
    requires Free(x, c) && Free(x', c) && x + [c] + y == x' + [c] + y'
    ensures x == x' && y == y'
  {
    var s := x + [c] + y;
    assert s[|x|] == c && s[|x'|] == c;
    assert |x| == |x'|;
    assert x == s[..|x|] && x' == s[..|x'|];
    assert y == s[|x| + 1..] && y' == s[|x'| + 1..];
  }

  /** Parts without the separator can be read back from what they join to. */
  lemma {:induction false} JoinInjective(a: seq<string>, b: seq<string>, c: char)
    requires a != [] && b != [] && Join(a, [c]) == Join(b, [c])
    requires forall i :: 0 <= i < |a| ==> Free(a[i], c)
    requires forall i :: 0 <= i < |b| ==> Free(b[i], c)
    ensures a == b
  {
    if |a| > 1 && |b| > 1 {
      CutAt(a[0], Join(a[1..], [c]), b[0], Join(b[1..], [c]), c);
      JoinInjective(a[1..], b[1..], c);
      assert a == [a[0]] + a[1..] && b == [b[0]] + b[1..];
    } else {
      JoinLength(a, b, c);
      assert a == [a[0]] && b == [b[0]];
    }
  }

  lemma {:induction false} JoinLength(a: seq<string>, b: seq<string>, c: char)
    requires a != [] && b != [] && Join(a, [c]) == Join(b, [c])
    requires Free(a[0], c) && Free(b[0], c)
    ensures |a| == 1 <==> |b| == 1
  {
    if |a| > 1 {
      assert Join(a, [c])[|a[0]|] == c;
    }
    if |b| > 1 {
      assert Join(b, [c])[|b[0]|] == c;
    }
  }

  // ----------------------------------------------------------------- decimals

  predicate IsDigit(c: char) {
    '0' <= c <= '9'
  }

  /** `s.isdigit()`. */
  predicate AllDigits(s: string) {
    s != "" && forall i :: 0 <= i < |s| ==> IsDigit(s[i])
  }

  lemma DigitsStripped(s: string)
    requires AllDigits(s)
    ensures Strip(s) == s
  {
    assert IsDigit(s[0]) && IsDigit(s[|s| - 1]);
  }

  /** `int(s)` of a digit string. */
  function Value(s: string): nat
    requires forall i :: 0 <= i < |s| ==> IsDigit(s[i])
  {
    if s == "" then 0
    else
      assert IsDigit(s[|s| - 1]);
      10 * Value(s[..|s| - 1]) + (s[|s| - 1] as int - '0' as int)
  }

  /** `str(n)`. */
  function Decimal(n: nat): (s: string)
    ensures AllDigits(s)
  {
    if n < 10 then [('0' as int + n) as char]
    else Decimal(n / 10) + [('0' as int + n % 10) as char]
  }

  lemma {:induction false} DecimalRoundTrip(n: nat)
    ensures Value(Decimal(n)) == n
  {
    if n < 10 {
      assert Decimal(n)[..0] == "";
    } else {
      DecimalRoundTrip(n / 10);
      assert Decimal(n)[..|Decimal(n)| - 1] == Decimal(n / 10);
    }
  }

  lemma {:induction false} DecimalInjective(m: nat, n: nat)
    requires Decimal(m) == Decimal(n)
    ensures m == n
  {
    DecimalRoundTrip(m);
    DecimalRoundTrip(n);
  }

  // -------------------------------------------------------- splitting on `->`

  /** `s.split('->')`. */
  function SplitArrow(s: string): (r: seq<string>)
    ensures r != []
  {
    if s == "" then [""]
    else if |s| >= 2 && s[0] == '-' && s[1] == '>' then [""] + SplitArrow(s[2..])
    else
      var r := SplitArrow(s[1..]);
      [[s[0]] + r[0]] + r[1..]
  }

  /** `s.partition('->')`, without the separator. */
  function PartitionArrow(s: string): (string, string) {
    if s == "" then ("", "")
    else if |s| >= 2 && s[0] == '-' && s[1] == '>' then ("", s[2..])
    else
      var (before, after) := PartitionArrow(s[1..]);
      ([s[0]] + before, after)
  }

  /** With one arrow in the text, splitting and partitioning agree. */
  lemma {:induction false} SplitIsPartition(s: string)
    ensures |SplitArrow(s)| == 1 ==> SplitArrow(s) == [s]
    ensures |SplitArrow(s)| == 2 ==> PartitionArrow(s) == (SplitArrow(s)[0], SplitArrow(s)[1])
  {
    if s == "" {
    } else if |s| >= 2 && s[0] == '-' && s[1] == '>' {
      SplitIsPartition(s[2..]);
    } else {
      SplitIsPartition(s[1..]);
      assert [s[0]] + s[1..] == s;
    }
  }

  lemma {:induction false} SplitNoDash(s: string)
    requires forall i :: 0 <= i < |s| ==> s[i] != '-'
    ensures SplitArrow(s) == [s]
  {
    if s != "" {
      SplitNoDash(s[1..]);
      assert [s[0]] + s[1..] == s;
    }
  }

  lemma {:induction false} SplitTwo(a: string, b: string)
    requires forall i :: 0 <= i < |a| ==> a[i] != '-'
    requires forall i :: 0 <= i < |b| ==> b[i] != '-'
    ensures SplitArrow(a + "->" + b) == [a, b]
  {
    var s := a + "->" + b;
    if a == "" {
      assert s[2..] == b;
      SplitNoDash(b);
    } else {
      assert s[1..] == a[1..] + "->" + b;
      SplitTwo(a[1..], b);
      assert [a[0]] + a[1..] == a;
    }
  }
}
