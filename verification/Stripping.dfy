/** Which tokens survive stripping the text they are looked for in
    (testlib.py, lines 198 and 268). */
module Stripping {
  import opened Text
  import opened Sequences

  /** A single token survives in every text exactly when it is trimmed. */
  lemma TrimmedIsExact(t: string)
    ensures Trimmed(t) <==> forall text :: Contains(text, t) ==> Contains(Strip(text), t)
  {
    if Trimmed(t) {
      forall text | Contains(text, t) ensures Contains(Strip(text), t) {
        StripKeeps(text, t);
      }
    } else {
      ContainsSelf(t);
      StripShortens(t);
      TooLong(Strip(t), t);
    }
  }

  lemma TooLong(text: string, t: string)
    requires |text| < |t|
    ensures !Contains(text, t)
  {
  }

  lemma StripShortens(t: string)
    requires !Trimmed(t)
    ensures |Strip(t)| < |t|
  {
  }

  /** What a trimmed beginning of a text holds survives. */
  lemma BeginningSurvives(start: string, rest: string, t: string)
    requires Trimmed(start) && Contains(start, t)
    ensures Contains(Strip(start + rest), t)
  {
    ContainsAt(start + rest, start, 0);
    StripKeeps(start + rest, start);
    ContainsTrans(Strip(start + rest), start, t);
  }

  // -------------------------------------------------------- a list of tokens

  /** Every token lies within some trimmed token of the list. */
  predicate Shielded(tokens: seq<string>) {
    forall i :: 0 <= i < |tokens| ==> IsShielded(tokens, tokens[i])
  }

  predicate IsShielded(tokens: seq<string>, t: string) {
    exists j :: 0 <= j < |tokens| && Trimmed(tokens[j]) && Contains(tokens[j], t)
  }

  lemma TrimmedIsShielded(tokens: seq<string>)
    requires forall i :: 0 <= i < |tokens| ==> Trimmed(tokens[i])
    ensures Shielded(tokens)
  {
    forall i | 0 <= i < |tokens| ensures IsShielded(tokens, tokens[i]) {
      ContainsSelf(tokens[i]);
    }
  }

  lemma {:induction false} ShieldedSurvive(tokens: seq<string>, text: string)
    requires Shielded(tokens)
    ensures AllIn(tokens, text) <==> AllIn(tokens, Strip(text))
  {
    StripWithin(text);
    forall i | 0 <= i < |tokens|
      ensures AllIn(tokens, Strip(text)) ==> Contains(text, tokens[i])
      ensures AllIn(tokens, text) ==> Contains(Strip(text), tokens[i])
    {
      if AllIn(tokens, Strip(text)) {
        ContainsTrans(text, Strip(text), tokens[i]);
      }
      assert IsShielded(tokens, tokens[i]);
      var j :| 0 <= j < |tokens| && Trimmed(tokens[j]) && Contains(tokens[j], tokens[i]);
      if AllIn(tokens, text) {
        StripKeeps(text, tokens[j]);
        ContainsTrans(Strip(text), tokens[j], tokens[i]);
      }
    }
  }

  // ------------------------------------------- a text that loses a token

  lemma RunBetween(x: string, c: char, n: nat, y: string)
    ensures forall k :: |x| <= k < |x| + n ==> (x + Run(c, n) + y)[k] == c
  {
    forall k | |x| <= k < |x| + n ensures (x + Run(c, n) + y)[k] == c {
      assert (x + Run(c, n) + y)[k] == Run(c, n)[k - |x|];
    }
  }

  lemma OccurrenceEnds(text: string, t: string, i: nat)
    requires t != "" && OccursAt(text, t, i)
    ensures text[i] == t[0] && text[i + |t| - 1] == t[|t| - 1]
  {
    var found := text[i..i + |t|];
    assert found[0] == text[i] && found[|t| - 1] == text[i + |t| - 1];
  }

  /** A token that neither starts nor ends with `c` does not reach into a run of `c`
      as long as itself. */
  lemma BesideRun(x: string, c: char, y: string, t: string, i: nat)
    requires t != "" && t[0] != c && t[|t| - 1] != c
    requires OccursAt(x + Run(c, |t|) + y, t, i)
    ensures i + |t| <= |x| || i >= |x| + |t|
  {
    var text := x + Run(c, |t|) + y;
    OccurrenceEnds(text, t, i);
    RunBetween(x, c, |t|, y);
    assert text[i] != c && text[i + |t| - 1] != c;
  }

  /** So it does not reach across it. */
  lemma NotAcross(x: string, c: char, y: string, t: string)
    requires t != "" && t[0] != c && t[|t| - 1] != c
    requires Contains(x + Run(c, |t|) + y, t)
    ensures Contains(x, t) || Contains(y, t)
  {
    var text := x + Run(c, |t|) + y;
    var i: nat :| i <= |text| && OccursAt(text, t, i);
    BesideRun(x, c, y, t, i);
    if i + |t| <= |x| {
      assert x[i..i + |t|] == text[i..i + |t|];
      ContainsAt(x, t, i);
    } else {
      var j := i - |x| - |t|;
      assert y[j..j + |t|] == text[i..i + |t|];
      ContainsAt(y, t, j);
    }
  }

  lemma {:induction false} NotInJoin(parts: seq<string>, c: char, t: string)
    requires t != "" && t[0] != c && t[|t| - 1] != c
    requires forall i :: 0 <= i < |parts| ==> !Contains(parts[i], t)
    ensures !Contains(Join(parts, Run(c, |t|)), t)
  {
    if |parts| > 1 {
      NotInJoin(parts[1..], c, t);
      if Contains(Join(parts, Run(c, |t|)), t) {
        NotAcross(parts[0], c, Join(parts[1..], Run(c, |t|)), t);
      }
    }
  }

  lemma {:induction false} StripDropsLast(s: string)
    requires s != "" && IsSpace(s[|s| - 1])
    ensures Contains(s[..|s| - 1], Strip(s))
  {
    if |s| == 1 {
      ContainsSelf("");
    } else if IsSpace(s[0]) {
      var init := s[..|s| - 1];
      StripDropsLast(s[1..]);
      ContainsEnds(init);
      assert s[1..][..|s| - 2] == init[1..];
      ContainsTrans(init, init[1..], Strip(s));
    } else {
      StripWithin(s[..|s| - 1]);
    }
  }

  /** The character that keeps `t` apart from what is next to it. */
  function Apart(t: string): (c: char)
    requires t != ""
    ensures c != t[0] && c != t[|t| - 1]
  {
    if t[0] != 'x' && t[|t| - 1] != 'x' then 'x'
    else if t[0] != 'y' && t[|t| - 1] != 'y' then 'y'
    else 'z'
  }

  function Others(t: string): string -> seq<string> {
    (u: string) => if u == t then [] else [u]
  }

  /** All tokens, `t` at the end that has the blank. */
  function Exposing(tokens: seq<string>, t: string): string
    requires t != "" && !Trimmed(t)
  {
    var rest, sep := Join(Gather(Others(t), tokens), Run(Apart(t), |t|)), Run(Apart(t), |t|);
    if IsSpace(t[0]) then t + sep + rest else rest + sep + t
  }

  lemma HoldsBoth(a: string, sep: string, b: string)
    ensures Contains(a + sep + b, a) && Contains(a + sep + b, b)
  {
    ContainsMiddle("", a, sep + b);
    ContainsMiddle(a + sep, b, "");
    assert "" + a + (sep + b) == a + sep + b && a + sep + b + "" == a + sep + b;
  }

  lemma ExposesAll(tokens: seq<string>, t: string, u: string)
    requires t != "" && !Trimmed(t) && u in tokens
    ensures Contains(Exposing(tokens, t), u)
  {
    var others, sep := Gather(Others(t), tokens), Run(Apart(t), |t|);
    var rest := Join(others, sep);
    HoldsBoth(t, sep, rest);
    HoldsBoth(rest, sep, t);
    if u != t {
      GatherMembers(Others(t), tokens, u);
      var k :| 0 <= k < |others| && others[k] == u;
      JoinContains(others, sep, k);
      ContainsTrans(Exposing(tokens, t), rest, u);
    }
  }

  lemma WithoutEnds(t: string, sep: string, rest: string)
    requires t != ""
    ensures (t + sep + rest)[1..] == t[1..] + sep + rest
    ensures (rest + sep + t)[..|rest + sep + t| - 1] == rest + sep + t[..|t| - 1]
  {
  }

  lemma LostAtStart(t: string, c: char, rest: string)
    requires t != "" && IsSpace(t[0]) && t[0] != c && t[|t| - 1] != c && !Contains(rest, t)
    ensures !Contains(Strip(t + Run(c, |t|) + rest), t)
  {
    var text := t + Run(c, |t|) + rest;
    WithoutEnds(t, Run(c, |t|), rest);
    if Contains(Strip(text), t) {
      StripWithin(text[1..]);
      ContainsTrans(text[1..], Strip(text), t);
      NotAcross(t[1..], c, rest, t);
    }
  }

  lemma LostAtEnd(t: string, c: char, rest: string)
    requires t != "" && IsSpace(t[|t| - 1]) && t[0] != c && t[|t| - 1] != c && !Contains(rest, t)
    ensures !Contains(Strip(rest + Run(c, |t|) + t), t)
  {
    var text := rest + Run(c, |t|) + t;
    WithoutEnds(t, Run(c, |t|), rest);
    if Contains(Strip(text), t) {
      StripDropsLast(text);
      ContainsTrans(text[..|text| - 1], Strip(text), t);
      NotAcross(rest, c, t[..|t| - 1], t);
    }
  }

  /** Stripping that text loses `t`, if no other token holds it. */
  lemma ExposedIsLost(tokens: seq<string>, t: string)
    requires t != "" && !Trimmed(t)
    requires forall u :: u in tokens && u != t ==> !Contains(u, t)
    ensures !Contains(Strip(Exposing(tokens, t)), t)
  {
    var others, c := Gather(Others(t), tokens), Apart(t);
    var sep := Run(c, |t|);
    var rest, text := Join(others, sep), Exposing(tokens, t);
    forall i | 0 <= i < |others| ensures !Contains(others[i], t) {
      assert others[i] in others;
      GatherMembers(Others(t), tokens, others[i]);
    }
    NotInJoin(others, c, t);
    if IsSpace(t[0]) {
      LostAtStart(t, c, rest);
    } else {
      LostAtEnd(t, c, rest);
    }
  }

  function IsExposed(tokens: seq<string>): string -> bool {
    (t: string) => !IsShielded(tokens, t)
  }

  /** A longest text among those with a property. */
  lemma {:induction false} Longest(texts: seq<string>, p: string -> bool) returns (t: string)
    requires exists u :: u in texts && p(u)
    ensures t in texts && p(t) && forall u :: u in texts && p(u) ==> |u| <= |t|
  {
    var rest, last := texts[..|texts| - 1], texts[|texts| - 1];
    assert texts == rest + [last];
    assert forall u :: u in texts <==> u in rest || u == last;
    if exists u :: u in rest && p(u) {
      t := Longest(rest, p);
      if p(last) && |last| > |t| {
        t := last;
      }
    } else {
      t := last;
    }
  }

  /** What holds an exposed token is exposed too. */
  lemma HolderIsExposed(tokens: seq<string>, u: string, t: string)
    requires Contains(u, t) && IsShielded(tokens, u)
    ensures IsShielded(tokens, t)
  {
    var j :| 0 <= j < |tokens| && Trimmed(tokens[j]) && Contains(tokens[j], u);
    ContainsTrans(tokens[j], u, t);
  }

  /** A list is accepted after stripping whenever it is before, in every text,
      exactly when each of its tokens lies within a trimmed one. */
  lemma StripSafeIffShielded(tokens: seq<string>)
    ensures Shielded(tokens) <==> forall text :: AllIn(tokens, text) ==> AllIn(tokens, Strip(text))
  {
    if Shielded(tokens) {
      forall text | AllIn(tokens, text) ensures AllIn(tokens, Strip(text)) {
        ShieldedSurvive(tokens, text);
      }
    } else {
      var text := LosingText(tokens);
    }
  }

  lemma LosingText(tokens: seq<string>) returns (text: string)
    requires !Shielded(tokens)
    ensures AllIn(tokens, text) && !AllIn(tokens, Strip(text)) && text != ""
  {
    var e :| 0 <= e < |tokens| && !IsShielded(tokens, tokens[e]);
    assert tokens[e] in tokens && IsExposed(tokens)(tokens[e]);
    var t := Longest(tokens, IsExposed(tokens));
    var k :| 0 <= k < |tokens| && tokens[k] == t;
    ContainsSelf(t);
    assert !Trimmed(t);
    forall u | u in tokens && u != t ensures !Contains(u, t) {
      assert IsExposed(tokens)(u) || IsShielded(tokens, u);
      if Contains(u, t) {
        var i :| 0 <= i < |tokens| && tokens[i] == u;
        if IsShielded(tokens, u) {
          HolderIsExposed(tokens, u, t);
        }
        SameLengthSame(u, t);
      }
    }
    text := Exposing(tokens, t);
    forall i | 0 <= i < |tokens| ensures Contains(text, tokens[i]) {
      ExposesAll(tokens, t, tokens[i]);
    }
    ExposedIsLost(tokens, t);
    assert !Contains(Strip(text), tokens[k]);
  }

  lemma SameLengthSame(u: string, t: string)
    requires Contains(u, t) && |u| <= |t|
    ensures u == t
  {
    var i: nat :| i <= |u| && OccursAt(u, t, i);
    assert i == 0 && u[0..|u|] == u;
  }
}
