/** The digester object and the batch digest built on it. */
module StateDigester {
  import opened Bytes
  import opened Wrappers
  import opened HashChain
  import opened KeyedOrder
  import opened Mapping
  import opened Mutations
  import opened MutationMethods
  import opened StateDigest
  import opened StateDigestProofs

  datatype LogicalRow = LogicalRow(table: Bytes, primaryKey: Bytes, row: Bytes)

  datatype TableRowCount = TableRowCount(table: Bytes, count: nat)

  datatype AppendOutcome = Taken | RowOrder | UnknownTable | InvalidRow

  /** A row of an unknown table gets a position past every table. */
  function Located(s: Schema, row: LogicalRow): (r: Row)
    ensures r.table < |s.names| <==> Lookup(s, row.table).Some?
  {
    var t := Lookup(s, row.table);
    Keyed(if t.Some? then t.value else |s.names|, row.primaryKey, row.row)
  }

  lemma AdvanceUnfolds(c: Config, st: DState, target: nat)
    requires ValidConfig(c)
    ensures st.tableIndex >= target ==> Advance(c, st, target) == (st, true)
    ensures st.tableIndex < target ==>
              Advance(c, st, target) == if CanFinishTable(c, st) then Advance(c, NextTable(c, st), target) else (st, false)
  {
  }

  class Digester {
    const c: Config
    var state: Bytes
    var table: Bytes
    var tableIndex: nat
    var rowsInTable: nat
    var previousPrimaryKey: Bytes
    var digest: Digest
    var finished: bool

    /** The rows taken so far. */
    ghost var rows: seq<Row>

    ghost predicate Valid()
      reads this
    {
      ValidConfig(c) && Inv(c, View(), rows)
    }

    function View(): DState
      reads this
    {
      DState(state, table, tableIndex, rowsInTable, previousPrimaryKey, finished, digest)
    }

    constructor (config: Config)
      requires ValidConfig(config)
      ensures c == config && Valid() && View() == Fresh(config) && rows == []
    {
      c := config;
      state := StateHeader(config);
      tableIndex := 0;
      rowsInTable := 0;
      previousPrimaryKey := [];
      digest := ZERO_DIGEST;
      finished := false;
      table := [];
      rows := [];
      new;
      Start();
      FreshInv(config);
    }

    method Start()
      requires ValidConfig(c)
      modifies this
      ensures View() == StartTable(c, old(View())) && rows == old(rows)
    {
      if tableIndex < |c.counts| {
        table := TableHeader(c, tableIndex);
        rowsInTable := 0;
        previousPrimaryKey := [];
      }
    }

    method LeaveTable()
      requires Valid() && CanFinishTable(c, View())
      modifies this
      ensures Valid() && rows == old(rows) && !finished && tableIndex == old(tableIndex) + 1 <= |c.counts|
      ensures View() == NextTable(c, old(View()))
    {
      hide Inv, StartTable;
      NextTableInv(c, View(), rows);
      state := state + c.H(table);
      tableIndex := tableIndex + 1;
      Start();
    }

    /** The loop shared by Append and Sum: leave every table before `target`. */
    method MoveTo(target: nat) returns (ok: bool)
      requires Valid() && !finished && target <= |c.counts|
      modifies this
      ensures Valid() && rows == old(rows) && !finished
      ensures (View(), ok) == Advance(c, old(View()), target)
      ensures ok <==> CountsMet(c, rows, target)
      ensures ok ==> tableIndex >= target
    {
      assert tableIndex <= |c.counts|;
      hide Inv, CountsMet, Advance, NextTable;
      AdvanceInv(c, View(), rows, target);
      ghost var goal := Advance(c, View(), target);
      while tableIndex < target
        invariant Valid() && rows == old(rows) && !finished && tableIndex <= |c.counts|
        invariant Advance(c, View(), target) == goal
        decreases target - tableIndex
      {
        AdvanceUnfolds(c, View(), target);
        if rowsInTable != c.counts[tableIndex] { return false; }
        LeaveTable();
      }
      AdvanceUnfolds(c, View(), target);
      return true;
    }

    /** A row is taken exactly when it may follow the rows already taken. */
    method Append(row: LogicalRow) returns (r: AppendOutcome)
      requires Valid()
      modifies this
      ensures Valid() && finished == old(finished)
      ensures r.Taken? <==> !old(finished) && Extends(c, old(rows), Located(c.schema, row))
      ensures rows == if r.Taken? then old(rows) + [Located(c.schema, row)] else old(rows)
      ensures r.UnknownTable? ==> Lookup(c.schema, row.table).None?
      ensures r.InvalidRow? ==> !ValidRow(c.schema, Located(c.schema, row))
    {
      ghost var at := Located(c.schema, row);
      hide Inv, Extends, RowsOf, TableHeader, RowPreimage;
      AppendMeaning(c, View(), rows, at);
      if finished || tableIndex >= |c.counts| { return RowOrder; }
      var found := Lookup(c.schema, row.table);
      if found.None? { return AppendOutcome.UnknownTable; }
      var t := found.value;
      var moved := MoveTo(t);
      if !moved || t != tableIndex || rowsInTable >= c.counts[t] { return RowOrder; }
      if !c.schema.keyOk(t, row.primaryKey) { return InvalidRow; }
      if !c.schema.rowOk(t, row.primaryKey, row.row) { return InvalidRow; }
      if rowsInTable != 0 && !Less(previousPrimaryKey, row.primaryKey) { return RowOrder; }
      table := table + c.H(RowPreimage(c, Keyed(t, row.primaryKey, row.row)));
      rowsInTable := rowsInTable + 1;
      previousPrimaryKey := row.primaryKey;
      rows := rows + [at];
      return Taken;
    }

    /** Succeeds exactly when every declared count is met; repeated calls agree. */
    method Sum() returns (r: Option<Digest>)
      requires Valid()
      modifies this
      ensures Valid() && rows == old(rows)
      ensures r.Some? <==> Complete(c, rows)
      ensures r.Some? ==> r.value == StateSpec(c, rows) && finished
      ensures r.None? ==> !finished
    {
      SumMeaning(c, View(), rows);
      hide Inv, Complete, StateSpec, CountsMet;
      if finished { return Some(digest); }
      var moved := MoveTo(|c.counts|);
      if !moved { return None; }
      digest := c.H(state);
      finished := true;
      previousPrimaryKey := [];
      return Some(digest);
    }
  }

  predicate GoodCounts(s: Schema, counts: seq<TableRowCount>) {
    && |counts| == |s.names|
    && forall i | 0 <= i < |counts| :: counts[i].table == s.names[i] && counts[i].count <= MAX_SAFE_INTEGER
  }

  method NewStateDigester(H: Hash, domains: Domains, s: Schema, versions: Versions, counts: seq<TableRowCount>)
    returns (r: Option<Digester>)
    ensures r.Some? <==> ValidVersions(versions) && GoodCounts(s, counts)
    ensures r.Some? ==>
              && fresh(r.value) && r.value.Valid() && r.value.rows == [] && !r.value.finished
              && r.value.c == Config(H, domains, s, versions, Map((k: TableRowCount) => k.count, counts))
  {
    if !ValidVersions(versions) || |counts| != |s.names| { return None; }
    var rowCounts := [];
    for i := 0 to |counts|
      invariant |rowCounts| == i && forall k | 0 <= k < i :: rowCounts[k] == counts[k].count
      invariant forall k | 0 <= k < i :: counts[k].table == s.names[k] && counts[k].count <= MAX_SAFE_INTEGER
    {
      if counts[i].table != s.names[i] || counts[i].count > MAX_SAFE_INTEGER { return None; }
      rowCounts := rowCounts + [counts[i].count];
    }
    assert rowCounts == Map((k: TableRowCount) => k.count, counts);
    var d := new Digester(Config(H, domains, s, versions, rowCounts));
    return Some(d);
  }

  // ---- the batch digest ----

  function LocateAll(s: Schema, rows: seq<LogicalRow>): seq<Row> {
    Map(row => Located(s, row), rows)
  }

  predicate AllRowsValid(s: Schema, rows: seq<LogicalRow>) {
    forall i | 0 <= i < |rows| :: ValidRow(s, Located(s, rows[i]))
  }

  ghost function CountsOf(s: Schema, rows: seq<Row>): (r: seq<nat>)
    ensures |r| == |s.names| && forall t | 0 <= t < |r| :: r[t] == |RowsOf(rows, t)|
  {
    seq(|s.names|, t requires 0 <= t < |s.names| => |RowsOf(rows, t)|)
  }

  ghost predicate CountsSafe(s: Schema, rows: seq<Row>) {
    forall t | 0 <= t < |s.names| :: |RowsOf(rows, t)| <= MAX_SAFE_INTEGER
  }

  /** The specification of the batch digest: the nested digest of the sorted rows under their own counts. */
  ghost function BatchSpec(H: Hash, domains: Domains, s: Schema, versions: Versions, rows: seq<LogicalRow>): Digest {
    var sorted := Sort(LocateAll(s, rows));
    StateSpec(Config(H, domains, s, versions, CountsOf(s, sorted)), sorted)
  }

  datatype BatchOutcome = Batch(digest: Digest) | BadVersions | BadRow | DuplicateRow | TooManyRows

  method PrepareRows(s: Schema, rows: seq<LogicalRow>) returns (prepared: Option<seq<Row>>)
    ensures prepared.Some? <==> AllRowsValid(s, rows)
    ensures prepared.Some? ==> prepared.value == LocateAll(s, rows)
  {
    var out: seq<Row> := [];
    for k := 0 to |rows|
      invariant |out| == k && forall i | 0 <= i < k :: out[i] == Located(s, rows[i]) && ValidRow(s, out[i])
    {
      var row := rows[k];
      var t := Lookup(s, row.table);
      if t.None? { return None; }
      if !s.keyOk(t.value, row.primaryKey) { return None; }
      if !s.rowOk(t.value, row.primaryKey, row.row) { return None; }
      out := out + [Keyed(t.value, row.primaryKey, row.row)];
    }
    assert out == LocateAll(s, rows);
    return Some(out);
  }

  method CountRows(s: Schema, rows: seq<Row>) returns (counts: seq<TableRowCount>)
    requires forall i | 0 <= i < |rows| :: rows[i].table < |s.names|
    ensures |counts| == |s.names|
    ensures forall t | 0 <= t < |s.names| :: counts[t] == TableRowCount(s.names[t], |RowsOf(rows, t)|)
  {
    counts := seq(|s.names|, t requires 0 <= t < |s.names| => TableRowCount(s.names[t], 0));
    assert rows[..0] == [];
    for k := 0 to |rows|
      invariant |counts| == |s.names|
      invariant forall t | 0 <= t < |s.names| :: counts[t] == TableRowCount(s.names[t], |RowsOf(rows[..k], t)|)
    {
      var t := rows[k].table;
      counts := counts[t := TableRowCount(counts[t].table, counts[t].count + 1)];
      assert rows[..k + 1] == rows[..k] + [rows[k]];
      forall u | 0 <= u < |s.names| ensures |RowsOf(rows[..k + 1], u)| == |RowsOf(rows[..k], u)| + if u == t then 1 else 0 {
        RowsOfSnoc(rows[..k], rows[k], u);
      }
    }
    assert rows[..|rows|] == rows;
  }

  lemma LocatedByName(s: Schema, r: Row)
    requires WellFormed(s) && r.table < |s.names|
    ensures Located(s, LogicalRow(s.names[r.table], r.key, r.payload)) == r
  {
    var t := Lookup(s, s.names[r.table]).value;
    assert s.names[t] == s.names[r.table];
  }

  lemma OwnCountsComplete(c: Config, rows: seq<Row>)
    requires forall i | 0 <= i < |rows| :: ValidRow(c.schema, rows[i])
    requires StrictlySorted(rows) && c.counts == CountsOf(c.schema, rows)
    ensures Complete(c, rows)
  {
  }

  lemma PrefixComplete(c: Config, rows: seq<Row>, k: nat)
    requires ValidConfig(c) && Complete(c, rows) && k < |rows|
    ensures Extends(c, rows[..k], rows[k])
  {
    assert rows[..k] + rows[k..] == rows;
    CompleteExtends(c, rows[..k], rows[k..]);
  }

  /** Feeding a complete list in its order: every append is taken and the sum succeeds. */
  method StreamAll(s: Schema, d: Digester, rows: seq<Row>) returns (r: Option<Digest>)
    requires d.Valid() && d.rows == [] && !d.finished && Complete(d.c, rows) && WellFormed(s) && d.c.schema == s
    modifies d
    ensures r == Some(StateSpec(d.c, rows))
  {
    hide Complete, StateSpec, Extends, Inv, WellFormed, Located, RowsOf;
    for k := 0 to |rows|
      invariant d.Valid() && !d.finished && d.rows == rows[..k]
    {
      RowsInRange(d.c, rows, k);
      LocatedByName(s, rows[k]);
      PrefixComplete(d.c, rows, k);
      var taken := d.Append(LogicalRow(s.names[rows[k].table], rows[k].key, rows[k].payload));
      if !taken.Taken? { return None; }
      assert rows[..k + 1] == rows[..k] + [rows[k]];
    }
    assert rows[..|rows|] == rows;
    r := d.Sum();
  }

  lemma RowsInRange(c: Config, rows: seq<Row>, k: nat)
    requires Complete(c, rows) && k < |rows|
    ensures rows[k].table < |c.schema.names|
  {
  }

  method OpenDigester(H: Hash, domains: Domains, s: Schema, versions: Versions, sorted: seq<Row>) returns (r: Option<Digester>)
    requires ValidVersions(versions) && forall i | 0 <= i < |sorted| :: sorted[i].table < |s.names|
    ensures r.Some? <==> CountsSafe(s, sorted)
    ensures r.Some? ==>
              && fresh(r.value) && r.value.Valid() && r.value.rows == [] && !r.value.finished
              && r.value.c == Config(H, domains, s, versions, CountsOf(s, sorted))
  {
    hide RowsOf, ValidVersions, Inv;
    var counts := CountRows(s, sorted);
    r := NewStateDigester(H, domains, s, versions, counts);
    if r.Some? { assert r.value.c.counts == CountsOf(s, sorted); }
  }

  method StreamSorted(H: Hash, domains: Domains, s: Schema, versions: Versions, sorted: seq<Row>) returns (r: Option<Digest>)
    requires WellFormed(s) && ValidVersions(versions) && StrictlySorted(sorted)
    requires forall i | 0 <= i < |sorted| :: ValidRow(s, sorted[i]) && sorted[i].table < |s.names|
    ensures r == if CountsSafe(s, sorted)
                 then Some(StateSpec(Config(H, domains, s, versions, CountsOf(s, sorted)), sorted)) else None
  {
    hide *;
    var d := OpenDigester(H, domains, s, versions, sorted);
    if d.None? { return None; }
    OwnCountsComplete(d.value.c, sorted);
    r := StreamAll(s, d.value, sorted);
  }

  /** The batch digest refuses only bad versions, invalid rows, repeated keys, or more rows in a
      table than an exact integer counts; its streaming phase never refuses anything else. */
  method BatchDigest(H: Hash, domains: Domains, s: Schema, versions: Versions, rows: seq<LogicalRow>)
    returns (r: BatchOutcome)
    requires WellFormed(s)
    ensures r.BadVersions? <==> !ValidVersions(versions)
    ensures r.BadRow? <==> ValidVersions(versions) && !AllRowsValid(s, rows)
    ensures r.DuplicateRow? <==>
              ValidVersions(versions) && AllRowsValid(s, rows) && !KeyedOrder.DistinctKeys(LocateAll(s, rows))
    ensures r.TooManyRows? <==>
              && ValidVersions(versions) && AllRowsValid(s, rows) && KeyedOrder.DistinctKeys(LocateAll(s, rows))
              && !CountsSafe(s, Sort(LocateAll(s, rows)))
    ensures r.Batch? ==> r.digest == BatchSpec(H, domains, s, versions, rows)
  {
    if !ValidVersions(versions) { return BadVersions; }
    var prepared := PrepareRows(s, rows);
    if prepared.None? { return BadRow; }
    hide Sort, SameKey, StrictlySorted, WellFormed, StateSpec, ValidVersions, CountsSafe;
    var sorted := Sort(prepared.value);
    SortedRows(s, rows);
    hide AllRowsValid, LocateAll;
    var repeated := RepeatedNeighbour(sorted);
    if repeated { return DuplicateRow; }
    var sum := StreamSorted(H, domains, s, versions, sorted);
    return if sum.Some? then Batch(sum.value) else TooManyRows;
  }

  lemma SortedRows(s: Schema, rows: seq<LogicalRow>)
    requires AllRowsValid(s, rows)
    ensures var located := LocateAll(s, rows);
      var sorted := Sort(located);
      && (forall i | 0 <= i < |sorted| :: ValidRow(s, sorted[i]))
      && ((exists i :: 1 <= i < |sorted| && SameKey(sorted[i - 1], sorted[i])) <==> !KeyedOrder.DistinctKeys(located))
      && (KeyedOrder.DistinctKeys(located) ==> StrictlySorted(sorted))
  {
    var located := LocateAll(s, rows);
    var sorted := Sort(located);
    hide Sort;
    SortSorts(located);
    NeighboursSuffice(sorted);
    if KeyedOrder.DistinctKeys(located) { DistinctKeysOfPermutation(located, sorted); }
    if KeyedOrder.DistinctKeys(sorted) { DistinctKeysOfPermutation(sorted, located); }
    hide Before, SameKey;
    forall i | 0 <= i < |sorted| ensures ValidRow(s, sorted[i]) {
      assert sorted[i] in multiset(located);
    }
  }

  /** Neither acceptance nor the digest depends on the order in which rows are given. */
  lemma BatchIgnoresOrder(H: Hash, domains: Domains, s: Schema, versions: Versions, a: seq<LogicalRow>, b: seq<LogicalRow>)
    requires multiset(a) == multiset(b) && AllRowsValid(s, a)
    ensures AllRowsValid(s, b)
    ensures KeyedOrder.DistinctKeys(LocateAll(s, a)) <==> KeyedOrder.DistinctKeys(LocateAll(s, b))
    ensures KeyedOrder.DistinctKeys(LocateAll(s, a)) ==>
              (CountsSafe(s, Sort(LocateAll(s, a))) <==> CountsSafe(s, Sort(LocateAll(s, b))))
    ensures KeyedOrder.DistinctKeys(LocateAll(s, a)) ==>
              BatchSpec(H, domains, s, versions, a) == BatchSpec(H, domains, s, versions, b)
  {
    hide ValidRow, SameKey, StateSpec, Sort;
    MapPermutes(row => Located(s, row), a, b);
    forall i | 0 <= i < |b| ensures ValidRow(s, Located(s, b[i])) {
      assert b[i] in multiset(a);
    }
    if KeyedOrder.DistinctKeys(LocateAll(s, a)) {
      DistinctKeysOfPermutation(LocateAll(s, a), LocateAll(s, b));
      SortIgnoresOrder(LocateAll(s, a), LocateAll(s, b));
    }
    if KeyedOrder.DistinctKeys(LocateAll(s, b)) { DistinctKeysOfPermutation(LocateAll(s, b), LocateAll(s, a)); }
  }
}
