/** Edge strings such as `0->1`, read against a list of agent ids and
    re-written against a smaller one (test_suite/__init__.py, lines 11-44 and
    325-351). */
module EdgeStrings {
  import opened Wrappers
  import opened Text
  import opened Sequences
  import opened Traversal

  /** One edge string against `n` ids: both functions make the same checks. */
  function ParseEdge(edge: string, n: nat): (r: Option<(nat, nat)>)
    ensures r.Some? ==> r.value.0 < n && r.value.1 < n
  {
    var parts := SplitArrow(edge);
    if |parts| != 2 then None
    else
      var u, v := Strip(parts[0]), Strip(parts[1]);
      if !(AllDigits(u) && AllDigits(v)) then None
      else if Value(u) >= n || Value(v) >= n then None
      else Some((Value(u), Value(v)))
  }

  predicate AllParse(edges: seq<string>, n: nat) {
    forall i :: 0 <= i < |edges| ==> ParseEdge(edges[i], n).Some?
  }

  /** The pairs of ids that well-formed edges name, in order. */
  function Named(edges: seq<string>, ids: seq<string>): (r: seq<(string, string)>)
    requires AllParse(edges, |ids|)
    ensures |r| == |edges|
  {
    if edges == [] then []
    else
      var e := ParseEdge(edges[|edges| - 1], |ids|).value;
      Named(edges[..|edges| - 1], ids) + [(ids[e.0], ids[e.1])]
  }

  /** The index of the last occurrence: what a dictionary filled in order holds. */
  function LastIndex(ids: seq<string>, id: string): (i: nat)
    requires id in ids
    ensures i < |ids| && ids[i] == id && id !in ids[i + 1..]
  {
    if ids[|ids| - 1] == id then |ids| - 1
    else
      assert ids == ids[..|ids| - 1] + [ids[|ids| - 1]];
      LastIndex(ids[..|ids| - 1], id)
  }

  /** One edge between the ids `u` and `v`, written against `sub` if both are there. */
  function Rewritten(u: string, v: string, sub: seq<string>): seq<string> {
    if u in sub && v in sub then [Decimal(LastIndex(sub, u)) + "->" + Decimal(LastIndex(sub, v))] else []
  }

  /** The edges of `edges` with both ends in `sub`, written against `sub`. */
  function Mapped(edges: seq<string>, ids: seq<string>, sub: seq<string>): seq<string>
    requires AllParse(edges, |ids|)
  {
    if edges == [] then []
    else
      var e := ParseEdge(edges[|edges| - 1], |ids|).value;
      Mapped(edges[..|edges| - 1], ids, sub) + Rewritten(ids[e.0], ids[e.1], sub)
  }

  lemma ParsedNext(edges: seq<string>, i: nat, n: nat)
    requires i < |edges| && AllParse(edges[..i], n)
    ensures AllParse(edges[..i + 1], n) <==> ParseEdge(edges[i], n).Some?
    ensures AllParse(edges, n) ==> ParseEdge(edges[i], n).Some?
  {
    assert edges[..i + 1][..i] == edges[..i] && edges[..i + 1][i] == edges[i];
    EachNext((edge: string) => ParseEdge(edge, n).Some?, edges[..i], edges[..i + 1]);
  }

  /** `_parse_edge_strings`. */
  method ParseEdgeStrings(edges: seq<string>, ids: seq<string>) returns (r: Result<seq<(string, string)>>)
    ensures r == if AllParse(edges, |ids|) then Ok(Named(edges, ids)) else Err(ValueError)
  {
    var parsed := [];
    for i := 0 to |edges|
      invariant AllParse(edges[..i], |ids|) && parsed == Named(edges[..i], ids)
    {
      var e := ParseEdge(edges[i], |ids|);
      ParsedNext(edges, i, |ids|);
      if e.None? {
        return Err(ValueError);
      }
      assert edges[..i + 1][..i] == edges[..i];
      parsed := parsed + [(ids[e.value.0], ids[e.value.1])];
    }
    assert edges[..|edges|] == edges;
    return Ok(parsed);
  }

  /** `{name: idx for idx, name in enumerate(sub_sdks)}`. */
  method IndexById(sub: seq<string>) returns (index: map<string, nat>)
    ensures forall id :: id in index <==> id in sub
    ensures forall id :: id in sub ==> index[id] == LastIndex(sub, id)
  {
    index := map[];
    for i := 0 to |sub|
      invariant forall id :: id in index <==> id in sub[..i]
      invariant forall id :: id in index ==> index[id] == LastIndex(sub[..i], id)
    {
      assert sub[..i + 1][..i] == sub[..i] && sub[..i + 1] == sub[..i] + [sub[i]];
      index := index[sub[i] := i];
    }
    assert sub[..|sub|] == sub;
  }

  /** `_map_edges_to_subgraph`. */
  method MapEdgesToSubgraph(edges: seq<string>, ids: seq<string>, sub: seq<string>) returns (r: Result<seq<string>>)
    ensures r == if AllParse(edges, |ids|) then Ok(Mapped(edges, ids, sub)) else Err(ValueError)
  {
    var index := IndexById(sub);
    var mapped := [];
    for i := 0 to |edges|
      invariant AllParse(edges[..i], |ids|) && mapped == Mapped(edges[..i], ids, sub)
    {
      var e := ParseEdge(edges[i], |ids|);
      ParsedNext(edges, i, |ids|);
      if e.None? {
        return Err(ValueError);
      }
      var u, v := ids[e.value.0], ids[e.value.1];
      MappedNext(edges, i, ids, sub);
      if u in index && v in index {
        mapped := mapped + [Decimal(index[u]) + "->" + Decimal(index[v])];
      }
    }
    assert edges[..|edges|] == edges;
    return Ok(mapped);
  }

  lemma {:induction false} MappedNext(edges: seq<string>, i: nat, ids: seq<string>, sub: seq<string>)
    requires i < |edges| && AllParse(edges[..i], |ids|) && ParseEdge(edges[i], |ids|).Some?
    ensures AllParse(edges[..i + 1], |ids|)
    ensures var e := ParseEdge(edges[i], |ids|).value;
      Mapped(edges[..i + 1], ids, sub) == Mapped(edges[..i], ids, sub) + Rewritten(ids[e.0], ids[e.1], sub)
  {
    ParsedNext(edges, i, |ids|);
    assert edges[..i + 1][..i] == edges[..i];
  }

  // ---------------------------------------------------------- re-indexing law

  /** A rendered edge reads back as the indices it was made from. */
  lemma {:induction false} RenderedParses(u: nat, v: nat, n: nat)
    requires u < n && v < n
    ensures ParseEdge(Decimal(u) + "->" + Decimal(v), n) == Some((u, v))
  {
    var a, b := Decimal(u), Decimal(v);
    assert forall i :: 0 <= i < |a| ==> IsDigit(a[i]);
    assert forall i :: 0 <= i < |b| ==> IsDigit(b[i]);
    SplitTwo(a, b);
    DigitsStripped(a);
    DigitsStripped(b);
    DecimalRoundTrip(u);
    DecimalRoundTrip(v);
  }

  /** The two rendered edges between positions `u` and `v` name the pairs both ways. */
  lemma RoundTripNamed(ids: seq<string>, u: nat, v: nat, there: string, back: string)
    requires u < |ids| && v < |ids|
    requires there == Decimal(u) + "->" + Decimal(v) && back == Decimal(v) + "->" + Decimal(u)
    ensures AllParse([there, back], |ids|)
    ensures Named([there, back], ids) == [(ids[u], ids[v]), (ids[v], ids[u])]
  {
    RenderedParses(u, v, |ids|);
    RenderedParses(v, u, |ids|);
    assert [there, back][..1] == [there] && [there][..0] == [];
    assert Named([there], ids) == [(ids[u], ids[v])];
  }

  /** The edges between small positions, as they are written. */
  lemma SmallEdges()
    ensures Decimal(0) + "->" + Decimal(1) == "0->1" && Decimal(1) + "->" + Decimal(0) == "1->0"
    ensures Decimal(1) + "->" + Decimal(2) == "1->2" && Decimal(2) + "->" + Decimal(1) == "2->1"
  {
  }

  /** Appending one rendered edge appends the pair it names. */
  lemma {:induction false} NamedRewritten(before: seq<string>, u: string, v: string, sub: seq<string>)
    requires AllParse(before, |sub|)
    ensures AllParse(before + Rewritten(u, v, sub), |sub|)
    ensures Named(before + Rewritten(u, v, sub), sub)
         == Named(before, sub) + (if u in sub && v in sub then [(u, v)] else [])
  {
    if u in sub && v in sub {
      RenderedParses(LastIndex(sub, u), LastIndex(sub, v), |sub|);
      var now := before + Rewritten(u, v, sub);
      assert now[..|now| - 1] == before;
    } else {
      assert before + Rewritten(u, v, sub) == before;
    }
  }

  /** Parsing the re-indexed edges against the smaller list gives exactly the
      parsed edges with both ends in it, in order. */
  lemma {:induction false} ReindexingCommutes(edges: seq<string>, ids: seq<string>, sub: seq<string>)
    requires AllParse(edges, |ids|)
    ensures AllParse(Mapped(edges, ids, sub), |sub|)
    ensures Named(Mapped(edges, ids, sub), sub) == Within(Named(edges, ids), sub)
  {
    if edges != [] {
      var rest := edges[..|edges| - 1];
      var e := ParseEdge(edges[|edges| - 1], |ids|).value;
      ReindexingCommutes(rest, ids, sub);
      NamedRewritten(Mapped(rest, ids, sub), ids[e.0], ids[e.1], sub);
      assert Named(edges, ids)[..|edges| - 1] == Named(rest, ids);
    }
  }
}
