/** The conformance table: one row per test (dashboard/src/acts/lib.ts, lines
    31-101 and 110-147). */
module Conformance {
  import opened Wrappers
  import opened Sequences
  import opened Grouping

  datatype Failure = Failure(message: Option<string>, stepId: Option<string>, expected: Option<string>,
                             actual: Option<string>, path: Option<string>)

  datatype Test = Test(id: string, level: string, result: string, skipReason: Option<string>,
                       failure: Option<Failure>)

  /** A run: the tests of each transport it exercised. */
  type Results = map<string, seq<Test>>

  /** A transport and one test run over it. */
  type Entry = (string, Test)

  datatype Row = Row(id: string, level: string, cells: map<string, Test>, deviates: bool, failing: bool)

  const TRANSPORTS := ["jsonrpc", "grpc", "rest"]

  // ---------------------------------------------------------------- the pivot

  /** The entries of some transports in table order. */
  function EntriesOf(run: Results): string -> seq<Entry> {
    (t: string) => if t in run then Map(EntryOver(t), run[t]) else []
  }

  function Entries(run: Results, transports: seq<string>): seq<Entry> {
    Gather(EntriesOf(run), transports)
  }

  lemma EntriesExact(run: Results, transports: seq<string>, t: string, test: Test)
    ensures (t, test) in Entries(run, transports) <==> t in transports && t in run && test in run[t]
  {
    GatherMembers(EntriesOf(run), transports, (t, test));
    forall u ensures (t, test) in EntriesOf(run)(u) <==> u == t && t in run && test in run[t] {
      if u in run {
        MapMembers(EntryOver(u), run[u], (t, test));
      }
    }
  }

  function IdOf(): Entry -> string {
    (e: Entry) => e.1.id
  }

  predicate Fails(test: Test) {
    test.result == "fail" || test.result == "error"
  }

  /** Lines 66-68: one more cell. */
  function WithCell(row: Row, e: Entry): Row {
    row.(cells := row.cells[e.0 := e.1], deviates := row.deviates || e.1.result != "pass",
         failing := row.failing || Fails(e.1))
  }

  /** The row made of one test's entries, first to last. */
  function RowOf(entries: seq<Entry>): Row
    requires entries != []
  {
    var n := |entries| - 1;
    WithCell(if n == 0 then Row(entries[0].1.id, entries[0].1.level, map[], false, false) else RowOf(entries[..n]),
             entries[n])
  }

  function IsRow(): (seq<Entry>, Row) -> bool {
    (group: seq<Entry>, row: Row) => group != [] && row == RowOf(group)
  }

  lemma RowGrows(had: seq<Entry>, row: Row, e: Entry)
    requires if had == [] then row == Row(e.1.id, e.1.level, map[], false, false) else row == RowOf(had)
    ensures IsRow()(had + [e], WithCell(row, e))
  {
    assert (had + [e])[..|had|] == had;
  }

  lemma RowNext(entries: seq<Entry>, ids: seq<string>, rows: map<string, Row>, e: Entry)
    requires Filled(IdOf(), IsRow(), entries, ids, rows)
    ensures e.1.id in rows <==> e.1.id in ids
    ensures var row := if e.1.id in rows then rows[e.1.id] else Row(e.1.id, e.1.level, map[], false, false);
      Filled(IdOf(), IsRow(), entries + [e], if e.1.id in ids then ids else ids + [e.1.id],
             rows[e.1.id := WithCell(row, e)])
  {
    var had := Having(IdOf(), e.1.id, entries);
    FilledAt(IdOf(), IsRow(), entries, ids, rows, e.1.id);
    var row := if e.1.id in rows then rows[e.1.id] else Row(e.1.id, e.1.level, map[], false, false);
    RowGrows(had, row, e);
    FilledNext(IdOf(), IsRow(), entries, ids, rows, e, WithCell(row, e));
  }

  /** `buildRows`. */
  method BuildRows(run: Results) returns (table: seq<Row>)
    ensures Tabled(IdOf(), IsRow(), Entries(run, TRANSPORTS), table)
  {
    var ids: seq<string> := [];
    var rows: map<string, Row> := map[];
    ghost var seen: seq<Entry> := [];
    for i := 0 to |TRANSPORTS|
      invariant seen == Entries(run, TRANSPORTS[..i]) && Filled(IdOf(), IsRow(), seen, ids, rows)
    {
      var t := TRANSPORTS[i];
      EntriesNext(run, TRANSPORTS, i);
      if t in run {
        ids, rows := AddRows(t, run[t], ids, rows, seen);
        seen := seen + EntriesOf(run)(t);
      }
    }
    assert TRANSPORTS[..|TRANSPORTS|] == TRANSPORTS;
    FilledValues(IdOf(), IsRow(), seen, ids, rows);
    return Values(ids, rows);
  }

  function EntryOver(t: string): Test -> Entry {
    (test: Test) => (t, test)
  }

  /** Lines 53-69, for one transport. */
  method AddRows(t: string, tests: seq<Test>, ids0: seq<string>, rows0: map<string, Row>, ghost before: seq<Entry>)
    returns (ids: seq<string>, rows: map<string, Row>)
    requires Filled(IdOf(), IsRow(), before, ids0, rows0)
    ensures Filled(IdOf(), IsRow(), before + Map(EntryOver(t), tests), ids, rows)
  {
    ids, rows := ids0, rows0;
    ghost var added := Map(EntryOver(t), tests);
    assert before + added[..0] == before;
    for j := 0 to |tests|
      invariant Filled(IdOf(), IsRow(), before + added[..j], ids, rows)
    {
      var test := tests[j];
      RowNext(before + added[..j], ids, rows, (t, test));
      AppendNext(before, added, j);
      var row := if test.id in rows then rows[test.id] else Row(test.id, test.level, map[], false, false);
      if test.id !in rows {
        ids := ids + [test.id];
      }
      rows := rows[test.id := WithCell(row, (t, test))];
    }
    assert added[..|tests|] == added;
  }

  lemma AppendNext<T>(a: seq<T>, s: seq<T>, j: nat)
    requires j < |s|
    ensures a + s[..j] + [s[j]] == a + s[..j + 1]
  {
  }

  lemma EntriesNext(run: Results, transports: seq<string>, i: nat)
    requires i < |transports|
    ensures Entries(run, transports[..i + 1]) == Entries(run, transports[..i]) + EntriesOf(run)(transports[i])
  {
    TakeNext(transports, i);
    GatherConcat(EntriesOf(run), transports[..i], [transports[i]]);
    GatherOne(EntriesOf(run), transports[i]);
  }

  /** No transport gives one test id two different verdicts. */
  ghost predicate OneVerdict(entries: seq<Entry>) {
    forall e, f :: e in entries && f in entries && e.0 == f.0 && e.1.id == f.1.id ==> e == f
  }

  /** A row knows of each transport that ran its test, and holds what that
      transport said last; a failing row deviates. */
  lemma {:induction false} RowExact(entries: seq<Entry>, id: string, t: string)
    requires entries != [] && forall i :: 0 <= i < |entries| ==> entries[i].1.id == id
    ensures var row := RowOf(entries);
      && row.id == id && row.level == entries[0].1.level && (row.failing ==> row.deviates)
      && (t in row.cells <==> AnyOf(entries, OverTransport(t)))
      && (t in row.cells ==> SaidLast(entries, (t, row.cells[t])))
      && (row.deviates <==> AnyOf(entries, Deviates()))
      && (row.failing <==> AnyOf(entries, FailsAt()))
  {
    var n := |entries| - 1;
    var before := entries[..n];
    assert entries == before + [entries[n]];
    if n > 0 {
      RowExact(before, id, t);
      SomeMore(before, entries[n], OverTransport(t));
      SomeMore(before, entries[n], Deviates());
      SomeMore(before, entries[n], FailsAt());
    }
    CellSaidLast(entries, t);
  }

  /** `e` is the last entry of its transport. */
  ghost predicate SaidLast(entries: seq<Entry>, e: Entry) {
    exists i :: 0 <= i < |entries| && entries[i] == e && NotAfter(entries, e.0, i)
  }

  ghost predicate NotAfter(entries: seq<Entry>, t: string, i: nat) {
    forall j :: i < j < |entries| ==> entries[j].0 != t
  }

  lemma SaidNow(entries: seq<Entry>, x: Entry)
    ensures SaidLast(entries + [x], x)
  {
    assert (entries + [x])[|entries|] == x && NotAfter(entries + [x], x.0, |entries|);
  }

  lemma SaidBefore(entries: seq<Entry>, x: Entry, e: Entry)
    requires SaidLast(entries, e) && x.0 != e.0
    ensures SaidLast(entries + [x], e)
  {
    var i :| 0 <= i < |entries| && entries[i] == e && NotAfter(entries, e.0, i);
    assert (entries + [x])[i] == e && NotAfter(entries + [x], e.0, i);
  }

  lemma {:induction false} CellSaidLast(entries: seq<Entry>, t: string)
    requires entries != []
    ensures var row := RowOf(entries);
      t in row.cells ==> SaidLast(entries, (t, row.cells[t]))
  {
    var n := |entries| - 1;
    var before, last := entries[..n], entries[n];
    assert entries == before + [last];
    if last.0 == t {
      SaidNow(before, last);
    } else if n > 0 {
      CellSaidLast(before, t);
      if t in RowOf(before).cells {
        SaidBefore(before, last, (t, RowOf(before).cells[t]));
      }
    }
  }

  function OverTransport(t: string): Entry -> bool {
    (e: Entry) => e.0 == t
  }

  function Deviates(): Entry -> bool {
    (e: Entry) => e.1.result != "pass"
  }

  function FailsAt(): Entry -> bool {
    (e: Entry) => Fails(e.1)
  }

  ghost predicate AnyOf<T>(s: seq<T>, p: T -> bool) {
    exists i :: 0 <= i < |s| && p(s[i])
  }

  lemma SomeMore<T>(s: seq<T>, x: T, p: T -> bool)
    ensures AnyOf(s + [x], p) <==> AnyOf(s, p) || p(x)
  {
    if i :| 0 <= i < |s| && p(s[i]) {
      assert p((s + [x])[i]);
    }
    if p(x) {
      assert p((s + [x])[|s|]);
    }
  }

  lemma HavingIds(entries: seq<Entry>, id: string)
    ensures forall i :: 0 <= i < |Having(IdOf(), id, entries)| ==> Having(IdOf(), id, entries)[i].1.id == id
  {
    var group := Having(IdOf(), id, entries);
    forall i | 0 <= i < |group| ensures group[i].1.id == id {
      HavingMembers(IdOf(), id, entries, group[i]);
      assert group[i] in group;
    }
  }

  /** The row of a test's id holds it in the cell of `t`. */
  predicate Held(entries: seq<Entry>, t: string, test: Test) {
    var group := Having(IdOf(), test.id, entries);
    group != [] && t in RowOf(group).cells && RowOf(group).cells[t] == test
  }

  /** A held test was run, and of a test that was run the row holds something. */
  lemma HeldIsRun(entries: seq<Entry>, t: string, test: Test)
    ensures Held(entries, t, test) ==> (t, test) in entries
    ensures (t, test) in entries ==> exists cell: Test :: cell.id == test.id && Held(entries, t, cell)
  {
    var group := Having(IdOf(), test.id, entries);
    HavingIds(entries, test.id);
    HavingMembers(IdOf(), test.id, entries, (t, test));
    if group != [] {
      RowExact(group, test.id, t);
      if t in RowOf(group).cells {
        var cell := RowOf(group).cells[t];
        var c :| 0 <= c < |group| && group[c] == (t, cell);
        HavingMembers(IdOf(), test.id, entries, (t, cell));
        assert Held(entries, t, cell);
      }
    }
  }

  /** The pivot loses nothing exactly when no transport contradicts itself: then a
      test was run over a transport if and only if its row's cell holds it. */
  lemma Lossless(entries: seq<Entry>)
    ensures OneVerdict(entries) <==> forall t, test :: (t, test) in entries <==> Held(entries, t, test)
  {
    forall t, test | OneVerdict(entries) ensures (t, test) in entries <==> Held(entries, t, test) {
      HeldIsRun(entries, t, test);
      if (t, test) in entries {
        var cell: Test :| cell.id == test.id && Held(entries, t, cell);
        HeldIsRun(entries, t, cell);
      }
    }
    if !OneVerdict(entries) {
      var e, f :| e in entries && f in entries && e.0 == f.0 && e.1.id == f.1.id && e != f;
      assert (e.0, e.1) == e && (f.0, f.1) == f;
      assert !(Held(entries, e.0, e.1) && Held(entries, f.0, f.1));
    }
  }

  /** A transport that lists a test twice, failed and then passed: only the second
      verdict is held, and the row fails though no cell does. */
  lemma TwoVerdictsLoseOne(first: Test, second: Test)
    requires first == Test("T-1", "must", "fail", None, None) && second == first.(result := "pass")
    ensures var entries := Entries(map["grpc" := [first, second]], TRANSPORTS);
      && !OneVerdict(entries) && ("grpc", first) in entries && !Held(entries, "grpc", first)
      && Held(entries, "grpc", second)
      && RowOf(Having(IdOf(), "T-1", entries)).failing
  {
    var run: Results := map["grpc" := [first, second]];
    var e, f := ("grpc", first), ("grpc", second);
    ThreeGathered(EntriesOf(run), "jsonrpc", "grpc", "rest");
    assert EntriesOf(run)("grpc") == [e, f];
    assert Entries(run, TRANSPORTS) == [e, f];
    TwoEntries(e, f);
    assert [e, f][0] in [e, f] && [e, f][1] in [e, f];
  }

  lemma TwoEntries(e: Entry, f: Entry)
    requires e.0 == f.0 && e.1.id == f.1.id
    ensures Having(IdOf(), e.1.id, [e, f]) == [e, f]
    ensures RowOf([e, f]).cells == map[e.0 := f.1] && RowOf([e, f]).failing == (Fails(e.1) || Fails(f.1))
  {
    HavingAll(IdOf(), e.1.id, [e, f]);
    assert [e, f][..1] == [e];
    assert RowOf([e]) == WithCell(Row(e.1.id, e.1.level, map[], false, false), e);
  }

  lemma ThreeGathered<A, B>(f: A -> seq<B>, a: A, b: A, c: A)
    ensures Gather(f, [a, b, c]) == f(a) + f(b) + f(c)
  {
    assert [a, b, c] == [a, b] + [c] && [a, b] == [a] + [b];
    GatherConcat(f, [a, b], [c]);
    GatherConcat(f, [a], [b]);
    GatherOne(f, a);
    GatherOne(f, b);
    GatherOne(f, c);
  }

  // ------------------------------------------------------------------ filters

  datatype Filter = All | Failing | Skipped

  predicate RowMatches(row: Row, filter: Filter) {
    match filter
    case All => true
    case Failing => row.failing
    case Skipped => row.deviates && !row.failing
  }

  function KeepRow(filter: Filter): Row -> seq<Row> {
    (row: Row) => if RowMatches(row, filter) then [row] else []
  }

  /** `filterCounts`: each filter's count is how many rows it shows. */
  method FilterCounts(rows: seq<Row>) returns (all: nat, failing: nat, skipped: nat)
    ensures all == |Gather(KeepRow(All), rows)|
    ensures failing == |Gather(KeepRow(Failing), rows)|
    ensures skipped == |Gather(KeepRow(Skipped), rows)|
  {
    failing, skipped := 0, 0;
    for i := 0 to |rows|
      invariant failing == |Gather(KeepRow(Failing), rows[..i])|
      invariant skipped == |Gather(KeepRow(Skipped), rows[..i])|
    {
      assert rows[..i + 1][..i] == rows[..i];
      if rows[i].failing {
        failing := failing + 1;
      } else if rows[i].deviates {
        skipped := skipped + 1;
      }
    }
    assert rows[..|rows|] == rows;
    GatherCount(KeepRow(All), rows);
    all := |rows|;
  }

  ghost function Failed(): Test -> bool {
    (test: Test) => test.result == "fail" || test.result == "error"
  }

  ghost function NotPass(): Test -> bool {
    (test: Test) => test.result != "pass"
  }

  /** Some transport ran the test of `id` and it came out so. */
  ghost predicate Came(entries: seq<Entry>, id: string, so: Test -> bool) {
    exists e :: e in entries && e.1.id == id && so(e.1)
  }

  lemma CameInGroup(entries: seq<Entry>, id: string, so: Test -> bool, p: Entry -> bool)
    requires forall e :: p(e) <==> so(e.1)
    ensures Came(entries, id, so) <==> AnyOf(Having(IdOf(), id, entries), p)
  {
    var group := Having(IdOf(), id, entries);
    if e :| e in entries && e.1.id == id && so(e.1) {
      HavingMembers(IdOf(), id, entries, e);
      var i :| 0 <= i < |group| && group[i] == e;
      assert p(group[i]);
    }
    if i :| 0 <= i < |group| && p(group[i]) {
      HavingMembers(IdOf(), id, entries, group[i]);
      assert group[i] in group;
    }
  }

  /** The filters show: all rows; those of tests that some transport saw fail or err;
      those of tests that no transport saw so, but some did not see pass. */
  lemma FilterShows(entries: seq<Entry>, table: seq<Row>, i: nat)
    requires Tabled(IdOf(), IsRow(), entries, table) && i < |table|
    ensures table[i].id == Keys(IdOf(), entries)[i] && RowMatches(table[i], All)
    ensures RowMatches(table[i], Failing) <==> Came(entries, table[i].id, Failed())
    ensures RowMatches(table[i], Skipped) <==>
      !Came(entries, table[i].id, Failed()) && Came(entries, table[i].id, NotPass())
  {
    var id := Keys(IdOf(), entries)[i];
    var group := Having(IdOf(), id, entries);
    assert IsRow()(group, table[i]);
    HavingIds(entries, id);
    RowExact(group, id, "");
    CameInGroup(entries, id, Failed(), FailsAt());
    CameInGroup(entries, id, NotPass(), Deviates());
  }

  /** The failing and the skipped rows share out those of tests that some transport
      did not see pass. */
  lemma {:induction false} FiltersShareOut(rows: seq<Row>)
    requires forall i :: 0 <= i < |rows| ==> rows[i].failing ==> rows[i].deviates
    ensures multiset(Gather(KeepRow(Failing), rows)) + multiset(Gather(KeepRow(Skipped), rows))
         == multiset(Gather(OnlyIf((row: Row) => row.deviates), rows))
  {
    if rows != [] {
      FiltersShareOut(rows[..|rows| - 1]);
    }
  }

  /** If no transport contradicts itself, a row's cells are its test's entries. */
  lemma CellsAreEntries(entries: seq<Entry>, id: string, e: Entry)
    requires entries != [] && OneVerdict(entries) && forall i :: 0 <= i < |entries| ==> entries[i].1.id == id
    ensures e in entries <==> e.0 in RowOf(entries).cells && RowOf(entries).cells[e.0] == e.1
  {
    var row := RowOf(entries);
    RowExact(entries, id, e.0);
    if e in entries {
      var i :| 0 <= i < |entries| && entries[i] == e;
      assert OverTransport(e.0)(entries[i]);
    }
    if e.0 in row.cells {
      var j :| 0 <= j < |entries| && entries[j] == (e.0, row.cells[e.0]);
      assert entries[j] in entries;
    }
  }

  ghost predicate SomeCell(row: Row, so: Test -> bool) {
    exists t :: t in row.cells && so(row.cells[t])
  }

  lemma SomeCellIsSomeEntry(entries: seq<Entry>, id: string, so: Test -> bool, p: Entry -> bool)
    requires entries != [] && OneVerdict(entries) && forall i :: 0 <= i < |entries| ==> entries[i].1.id == id
    requires forall e :: p(e) <==> so(e.1)
    ensures SomeCell(RowOf(entries), so) <==> AnyOf(entries, p)
  {
    var cells := RowOf(entries).cells;
    if i :| 0 <= i < |entries| && p(entries[i]) {
      CellsAreEntries(entries, id, entries[i]);
    }
    if t :| t in cells && so(cells[t]) {
      CellsAreEntries(entries, id, (t, cells[t]));
      var i :| 0 <= i < |entries| && entries[i] == (t, cells[t]);
      assert p(entries[i]);
    }
  }

  lemma FailingCells(entries: seq<Entry>, id: string)
    requires entries != [] && OneVerdict(entries) && forall i :: 0 <= i < |entries| ==> entries[i].1.id == id
    ensures RowOf(entries).failing <==> SomeCell(RowOf(entries), Failed())
  {
    RowExact(entries, id, "");
    SomeCellIsSomeEntry(entries, id, Failed(), FailsAt());
  }

  lemma DeviatingCells(entries: seq<Entry>, id: string)
    requires entries != [] && OneVerdict(entries) && forall i :: 0 <= i < |entries| ==> entries[i].1.id == id
    ensures RowOf(entries).deviates <==> SomeCell(RowOf(entries), NotPass())
  {
    RowExact(entries, id, "");
    SomeCellIsSomeEntry(entries, id, NotPass(), Deviates());
  }

  /** And then the filter can be read off them. */
  lemma CellsDecide(entries: seq<Entry>, id: string)
    requires entries != [] && OneVerdict(entries) && forall i :: 0 <= i < |entries| ==> entries[i].1.id == id
    ensures var row := RowOf(entries);
      && (RowMatches(row, Failing) <==> SomeCell(row, Failed()))
      && (RowMatches(row, Skipped) <==> SomeCell(row, NotPass()) && !SomeCell(row, Failed()))
  {
    FailingCells(entries, id);
    DeviatingCells(entries, id);
    MatchesBy(RowOf(entries), SomeCell(RowOf(entries), Failed()), SomeCell(RowOf(entries), NotPass()));
  }

  lemma MatchesBy(row: Row, failing: bool, deviates: bool)
    requires (row.failing <==> failing) && (row.deviates <==> deviates)
    ensures (RowMatches(row, Failing) <==> failing) && (RowMatches(row, Skipped) <==> deviates && !failing)
  {
  }

  // --------------------------------------------------------------- deviations

  function OrEmpty(s: Option<string>): string {
    if s.Some? then s.value else ""
  }

  /** What `reasonKey` writes out: absent and empty are alike. */
  function ReasonKey(test: Test): seq<string> {
    var f := if test.failure.Some? then test.failure.value else Failure(None, None, None, None, None);
    [test.result, OrEmpty(test.skipReason), OrEmpty(f.message), OrEmpty(f.stepId), OrEmpty(f.expected),
     OrEmpty(f.actual), OrEmpty(f.path)]
  }

  /** Alike, an absent text counting as an empty one. */
  ghost predicate Alike(a: Option<string>, b: Option<string>) {
    a == b || (a in [None, Some("")] && b in [None, Some("")])
  }

  /** A missing failure is alike one without any of its parts. */
  ghost predicate AlikeFailures(a: Option<Failure>, b: Option<Failure>) {
    match (a, b)
    case (None, None) => true
    case (Some(f), None) => AlikeParts(f, Failure(None, None, None, None, None))
    case (None, Some(g)) => AlikeParts(Failure(None, None, None, None, None), g)
    case (Some(f), Some(g)) => AlikeParts(f, g)
  }

  ghost predicate AlikeParts(f: Failure, g: Failure) {
    && Alike(f.message, g.message) && Alike(f.stepId, g.stepId) && Alike(f.expected, g.expected)
    && Alike(f.actual, g.actual) && Alike(f.path, g.path)
  }

  lemma Sevens(k: seq<string>, l: seq<string>)
    requires |k| == |l| == 7
    ensures k == l <==> k[0] == l[0] && k[1] == l[1] && k[2] == l[2] && k[3] == l[3] && k[4] == l[4] && k[5] == l[5]
                        && k[6] == l[6]
  {
  }

  lemma AlikeTexts(a: Option<string>, b: Option<string>)
    ensures Alike(a, b) <==> OrEmpty(a) == OrEmpty(b)
  {
    assert a in [None, Some("")] <==> OrEmpty(a) == "";
    assert b in [None, Some("")] <==> OrEmpty(b) == "";
  }

  lemma AlikeByParts(f: Failure, g: Failure)
    ensures AlikeParts(f, g) <==>
      && OrEmpty(f.message) == OrEmpty(g.message) && OrEmpty(f.stepId) == OrEmpty(g.stepId)
      && OrEmpty(f.expected) == OrEmpty(g.expected) && OrEmpty(f.actual) == OrEmpty(g.actual)
      && OrEmpty(f.path) == OrEmpty(g.path)
  {
    AlikeTexts(f.message, g.message);
    AlikeTexts(f.stepId, g.stepId);
    AlikeTexts(f.expected, g.expected);
    AlikeTexts(f.actual, g.actual);
    AlikeTexts(f.path, g.path);
  }

  /** Two tests share a reason exactly when they came out the same and both their
      skip reasons and their failures are alike. */
  lemma SameReason(a: Test, b: Test)
    ensures ReasonKey(a) == ReasonKey(b) <==>
      a.result == b.result && Alike(a.skipReason, b.skipReason) && AlikeFailures(a.failure, b.failure)
  {
    var none := Failure(None, None, None, None, None);
    var f := if a.failure.Some? then a.failure.value else none;
    var g := if b.failure.Some? then b.failure.value else none;
    Sevens(ReasonKey(a), ReasonKey(b));
    AlikeTexts(a.skipReason, b.skipReason);
    AlikeByParts(f, g);
    assert AlikeFailures(a.failure, b.failure) <==> AlikeParts(f, g);
  }

  function ReasonOf(): Entry -> seq<string> {
    (e: Entry) => ReasonKey(e.1)
  }

  function NotPassed(row: Row): string -> seq<Entry> {
    (t: string) => if t in row.cells && row.cells[t].result != "pass" then [(t, row.cells[t])] else []
  }

  /** The row's cells that did not pass, in table order. */
  function Deviating(row: Row, transports: seq<string>): seq<Entry> {
    Gather(NotPassed(row), transports)
  }

  function TransportOf(): Entry -> string {
    (e: Entry) => e.0
  }

  datatype Deviation = Deviation(transports: seq<string>, test: Test)

  function DeviationOf(entries: seq<Entry>): Deviation
    requires entries != []
  {
    Deviation(Map(TransportOf(), entries), entries[0].1)
  }

  function IsDeviation(): (seq<Entry>, Deviation) -> bool {
    (group: seq<Entry>, d: Deviation) => group != [] && d == DeviationOf(group)
  }

  lemma DeviationGrows(had: seq<Entry>, now: Deviation, e: Entry)
    requires now == if had == [] then Deviation([e.0], e.1)
                    else DeviationOf(had).(transports := DeviationOf(had).transports + [e.0])
    ensures IsDeviation()(had + [e], now)
  {
    assert Map(TransportOf(), had + [e]) == Map(TransportOf(), had) + [e.0];
  }

  lemma DeviationNext(entries: seq<Entry>, keys: seq<seq<string>>, found: map<seq<string>, Deviation>, e: Entry)
    requires Filled(ReasonOf(), IsDeviation(), entries, keys, found)
    ensures var k := ReasonKey(e.1);
      && (k in found <==> k in keys)
      && Filled(ReasonOf(), IsDeviation(), entries + [e], if k in keys then keys else keys + [k],
                found[k := if k in found then found[k].(transports := found[k].transports + [e.0])
                           else Deviation([e.0], e.1)])
  {
    var k := ReasonKey(e.1);
    var had := Having(ReasonOf(), k, entries);
    FilledAt(ReasonOf(), IsDeviation(), entries, keys, found, k);
    var now := if k in found then found[k].(transports := found[k].transports + [e.0]) else Deviation([e.0], e.1);
    DeviationGrows(had, now, e);
    FilledNext(ReasonOf(), IsDeviation(), entries, keys, found, e, now);
  }

  lemma DeviatingNext(row: Row, transports: seq<string>, i: nat)
    requires i < |transports|
    ensures Deviating(row, transports[..i + 1]) == Deviating(row, transports[..i]) + NotPassed(row)(transports[i])
  {
    TakeNext(transports, i);
    GatherConcat(NotPassed(row), transports[..i], [transports[i]]);
    GatherOne(NotPassed(row), transports[i]);
  }

  /** `deviationsOf`: one entry per reason, with every transport it holds for. */
  method DeviationsOf(row: Row, transports: seq<string>) returns (r: seq<Deviation>)
    ensures Tabled(ReasonOf(), IsDeviation(), Deviating(row, transports), r)
  {
    var keys: seq<seq<string>> := [];
    var found: map<seq<string>, Deviation> := map[];
    ghost var entries: seq<Entry> := [];
    for i := 0 to |transports|
      invariant entries == Deviating(row, transports[..i])
      invariant Filled(ReasonOf(), IsDeviation(), entries, keys, found)
    {
      var t := transports[i];
      DeviatingNext(row, transports, i);
      if t !in row.cells || row.cells[t].result == "pass" {
        continue;
      }
      var test := row.cells[t];
      DeviationNext(entries, keys, found, (t, test));
      entries := entries + [(t, test)];
      var k := ReasonKey(test);
      if k in found {
        found := found[k := found[k].(transports := found[k].transports + [t])];
      } else {
        keys, found := keys + [k], found[k := Deviation([t], test)];
      }
    }
    assert transports[..|transports|] == transports;
    FilledValues(ReasonOf(), IsDeviation(), entries, keys, found);
    return Values(keys, found);
  }

  lemma DeviatingMembers(row: Row, transports: seq<string>, e: Entry)
    ensures e in Deviating(row, transports) <==>
      e.0 in transports && e.0 in row.cells && row.cells[e.0] == e.1 && e.1.result != "pass"
  {
    GatherMembers(NotPassed(row), transports, e);
    if e.0 in transports && e.0 in row.cells && row.cells[e.0] == e.1 && e.1.result != "pass" {
      assert e in NotPassed(row)(e.0);
    }
  }

  lemma ListedUnder(row: Row, transports: seq<string>, k: seq<string>, t: string)
    ensures t in Map(TransportOf(), Having(ReasonOf(), k, Deviating(row, transports))) <==>
      t in transports && t in row.cells && row.cells[t].result != "pass" && ReasonOf()((t, row.cells[t])) == k
  {
    var entries := Deviating(row, transports);
    var group := Having(ReasonOf(), k, entries);
    MapMembers(TransportOf(), group, t);
    if e :| e in group && TransportOf()(e) == t {
      HavingMembers(ReasonOf(), k, entries, e);
      DeviatingMembers(row, transports, e);
    }
    if t in row.cells {
      var e := (t, row.cells[t]);
      HavingMembers(ReasonOf(), k, entries, e);
      DeviatingMembers(row, transports, e);
      assert TransportOf()(e) == t;
    }
  }

  /** The deviations of a row share out its transports that did not pass: each is
      listed under one reason, its own. */
  lemma ReasonsPartition(row: Row, transports: seq<string>, k: seq<string>, t: string)
    ensures var entries := Deviating(row, transports); var keys := Keys(ReasonOf(), entries);
      && NoDuplicates(keys)
      && multiset(Gather(GroupOf(ReasonOf(), entries), keys)) == multiset(entries)
      && (t in Map(TransportOf(), Having(ReasonOf(), k, entries)) <==>
          t in transports && t in row.cells && row.cells[t].result != "pass" && ReasonKey(row.cells[t]) == k)
  {
    var entries := Deviating(row, transports);
    var keys := Keys(ReasonOf(), entries);
    KeysExact(ReasonOf(), entries, k);
    forall x | x in entries ensures ReasonOf()(x) in keys {
      KeysExact(ReasonOf(), entries, ReasonOf()(x));
    }
    GroupsPartition(ReasonOf(), entries, keys);
    ListedUnder(row, transports, k, t);
  }

  lemma FirstOfGroup(row: Row, transports: seq<string>, k: seq<string>)
    requires Having(ReasonOf(), k, Deviating(row, transports)) != []
    ensures var e := Having(ReasonOf(), k, Deviating(row, transports))[0];
      e.0 in row.cells && e.1 == row.cells[e.0] && e.1.result != "pass" && ReasonKey(e.1) == k
  {
    var entries := Deviating(row, transports);
    var e := Having(ReasonOf(), k, entries)[0];
    HavingMembers(ReasonOf(), k, entries, e);
    GatherMembers(NotPassed(row), transports, e);
  }

  /** `d` shows the test of its first transport, and lists all that share its reason. */
  ghost predicate Tells(d: Deviation, row: Row, transports: seq<string>) {
    && d.transports != [] && d.transports[0] in row.cells
    && d.test == row.cells[d.transports[0]] && d.test.result != "pass"
    && forall t :: t in d.transports <==>
      t in transports && t in row.cells && row.cells[t].result != "pass" && ReasonKey(row.cells[t]) == ReasonKey(d.test)
  }

  lemma GroupTells(row: Row, transports: seq<string>, k: seq<string>, d: Deviation)
    requires IsDeviation()(Having(ReasonOf(), k, Deviating(row, transports)), d)
    ensures Tells(d, row, transports)
  {
    var group := Having(ReasonOf(), k, Deviating(row, transports));
    assert d == DeviationOf(group);
    FirstOfGroup(row, transports, k);
    forall t ensures t in d.transports <==>
      t in transports && t in row.cells && row.cells[t].result != "pass" && ReasonKey(row.cells[t]) == k
    {
      ReasonsPartition(row, transports, k, t);
    }
  }

  lemma DeviationsTell(row: Row, transports: seq<string>, found: seq<Deviation>, i: nat)
    requires Tabled(ReasonOf(), IsDeviation(), Deviating(row, transports), found) && i < |found|
    ensures Tells(found[i], row, transports)
  {
    var keys := Keys(ReasonOf(), Deviating(row, transports));
    assert IsDeviation()(Having(ReasonOf(), keys[i], Deviating(row, transports)), found[i]);
    GroupTells(row, transports, keys[i], found[i]);
  }
}
