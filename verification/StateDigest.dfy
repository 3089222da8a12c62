/** The projection-state digest of internal/chain/projection.go: the nested specification and
    the streaming machine as transitions on values. */
module StateDigest {
  import opened Bytes
  import opened Wrappers
  import opened HashChain
  import opened KeyedOrder
  import opened Mutations

  type Row = Keyed<Bytes>

  datatype Versions = Versions(digest: nat, projectionSchema: nat)

  datatype Domains = Domains(row: Bytes, table: Bytes, state: Bytes)

  /** What is fixed for the life of a digester. */
  datatype Config = Config(H: Hash, domains: Domains, schema: Schema, versions: Versions, counts: seq<nat>)

  predicate ValidVersions(v: Versions) {
    0 < v.digest <= MAX_SAFE_INTEGER && 0 < v.projectionSchema <= MAX_SAFE_INTEGER
  }

  predicate ValidConfig(c: Config) {
    && ValidVersions(c.versions)
    && |c.counts| == |c.schema.names|
    && forall i | 0 <= i < |c.counts| :: c.counts[i] <= MAX_SAFE_INTEGER
  }

  predicate ValidRow(s: Schema, r: Row) {
    r.table < |s.names| && s.keyOk(r.table, r.key) && s.rowOk(r.table, r.key, r.payload)
  }

  // ---- the nested specification ----

  function Lengthy(text: Bytes): Bytes {
    Uint64(|text|) + text
  }

  function RowPreimage(c: Config, r: Row): Bytes
    requires r.table < |c.schema.names|
  {
    Framed(c.domains.row, Lengthy(c.schema.names[r.table]) + (Lengthy(r.key) + Lengthy(r.payload)))
  }

  function RowDigests(c: Config, rows: seq<Row>): (r: Bytes)
    requires forall i | 0 <= i < |rows| :: rows[i].table < |c.schema.names|
    ensures |r| == 32 * |rows|
  {
    if rows == [] then [] else RowDigests(c, rows[..|rows| - 1]) + c.H(RowPreimage(c, rows[|rows| - 1]))
  }

  /** The rows of one table, in order. */
  function RowsOf(rows: seq<Row>, t: nat): (r: seq<Row>)
    ensures |r| <= |rows| && forall i | 0 <= i < |r| :: r[i].table == t && r[i] in rows
  {
    if rows == [] then []
    else RowsOf(rows[..|rows| - 1], t) + if rows[|rows| - 1].table == t then [rows[|rows| - 1]] else []
  }

  function TableHeader(c: Config, t: nat): Bytes
    requires t < |c.schema.names| && t < |c.counts|
  {
    Framed(c.domains.table, Lengthy(c.schema.names[t]) + Uint64(c.counts[t]))
  }

  function TablePreimage(c: Config, t: nat, rows: seq<Row>): Bytes
    requires t < |c.schema.names| && t < |c.counts|
  {
    TableHeader(c, t) + RowDigests(c, RowsOf(rows, t))
  }

  function TableDigests(c: Config, rows: seq<Row>, k: nat): (r: Bytes)
    requires k <= |c.schema.names| && k <= |c.counts|
    ensures |r| == 32 * k
  {
    if k == 0 then [] else TableDigests(c, rows, k - 1) + c.H(TablePreimage(c, k - 1, rows))
  }

  function StateHeader(c: Config): Bytes {
    Framed(c.domains.state, Uint64(c.versions.digest) + Uint64(c.versions.projectionSchema))
  }

  function StatePreimage(c: Config, rows: seq<Row>): Bytes
    requires |c.counts| == |c.schema.names|
  {
    StateHeader(c) + TableDigests(c, rows, |c.counts|)
  }

  /** The digest of a set of rows listed in canonical order. */
  function StateSpec(c: Config, rows: seq<Row>): Digest
    requires |c.counts| == |c.schema.names|
  {
    c.H(StatePreimage(c, rows))
  }

  /** Rows that a digester with these counts digests completely. */
  predicate Complete(c: Config, rows: seq<Row>) {
    && (forall i | 0 <= i < |rows| :: ValidRow(c.schema, rows[i]))
    && StrictlySorted(rows)
    && forall t | 0 <= t < |c.counts| :: |RowsOf(rows, t)| == c.counts[t]
  }

  // ---- the streaming machine ----

  datatype DState = DState(
    state: Bytes,
    table: Bytes,
    tableIndex: nat,
    rowsInTable: nat,
    previousKey: Bytes,
    finished: bool,
    digest: Digest)

  function StartTable(c: Config, st: DState): DState
    requires ValidConfig(c)
  {
    if st.tableIndex >= |c.counts| then st
    else st.(table := TableHeader(c, st.tableIndex), rowsInTable := 0, previousKey := [])
  }

  function Fresh(c: Config): DState
    requires ValidConfig(c)
  {
    StartTable(c, DState(StateHeader(c), [], 0, 0, [], false, ZERO_DIGEST))
  }

  predicate CanFinishTable(c: Config, st: DState)
    requires ValidConfig(c)
  {
    st.tableIndex < |c.counts| && st.rowsInTable == c.counts[st.tableIndex]
  }

  /** finishTable, the increment, and startTable. */
  function NextTable(c: Config, st: DState): DState
    requires ValidConfig(c)
  {
    StartTable(c, st.(state := st.state + c.H(st.table), tableIndex := st.tableIndex + 1))
  }

  function Advance(c: Config, st: DState, target: nat): (r: (DState, bool))
    requires ValidConfig(c)
    decreases target - st.tableIndex
  {
    if st.tableIndex >= target then (st, true)
    else if !CanFinishTable(c, st) then (st, false)
    else Advance(c, NextTable(c, st), target)
  }

  predicate Accepts(c: Config, st: DState, r: Row)
    requires ValidConfig(c)
  {
    && r.table == st.tableIndex < |c.counts|
    && st.rowsInTable < c.counts[r.table]
    && ValidRow(c.schema, r)
    && (st.rowsInTable != 0 ==> Less(st.previousKey, r.key))
  }

  function Absorb(c: Config, st: DState, r: Row): DState
    requires r.table < |c.schema.names|
  {
    st.(table := st.table + c.H(RowPreimage(c, r)), rowsInTable := st.rowsInTable + 1, previousKey := r.key)
  }

  /** Append: the state afterwards and whether the row was taken. */
  function AppendStep(c: Config, st: DState, r: Row): (DState, bool)
    requires ValidConfig(c)
  {
    if st.finished || st.tableIndex >= |c.counts| || r.table >= |c.counts| then (st, false)
    else
      var (moved, ok) := Advance(c, st, r.table);
      if ok && Accepts(c, moved, r) then (Absorb(c, moved, r), true) else (moved, false)
  }

  /** Sum: the state afterwards and the digest, if every count was met. */
  function SumStep(c: Config, st: DState): (DState, Option<Digest>)
    requires ValidConfig(c)
  {
    if st.finished then (st, Some(st.digest))
    else
      var (moved, ok) := Advance(c, st, |c.counts|);
      if !ok then (moved, None)
      else
        var d := c.H(moved.state);
        (moved.(digest := d, finished := true, previousKey := []), Some(d))
  }

  /** Appending all of `w` and then summing: the digest if every call succeeds. */
  function RunToEnd(c: Config, st: DState, w: seq<Row>): Option<Digest>
    requires ValidConfig(c)
    decreases |w|
  {
    if w == [] then SumStep(c, st).1
    else
      var (next, ok) := AppendStep(c, st, w[0]);
      if ok then RunToEnd(c, next, w[1..]) else None
  }
}
