/** The streaming digester commits to exactly the rows it accepted, whatever calls it refused. */
module StateDigestProofs {
  import opened Bytes
  import opened Wrappers
  import opened HashChain
  import opened KeyedOrder
  import opened Mutations
  import opened StateDigest

  // ---- one more row ----

  lemma Snoc<T>(s: seq<T>, x: T)
    ensures s + [x] != [] && (s + [x])[..|s + [x]| - 1] == s && (s + [x])[|s + [x]| - 1] == x
  {
  }

  lemma RowsOfSnoc(rows: seq<Row>, r: Row, t: nat)
    ensures RowsOf(rows + [r], t) == RowsOf(rows, t) + if r.table == t then [r] else []
  {
    Snoc(rows, r);
  }

  lemma {:induction false} RowsOfOther(rows: seq<Row>, t: nat)
    requires forall i | 0 <= i < |rows| :: rows[i].table != t
    ensures RowsOf(rows, t) == []
  {
    if rows != [] {
      RowsOfOther(rows[..|rows| - 1], t);
    }
  }

  lemma SameTable(c: Config, a: seq<Row>, b: seq<Row>, t: nat)
    requires t < |c.schema.names| && t < |c.counts| && RowsOf(a, t) == RowsOf(b, t)
    ensures TablePreimage(c, t, a) == TablePreimage(c, t, b)
  {
    hide RowDigests, TableHeader, RowsOf;
  }

  lemma {:induction false} TableDigestsSnoc(c: Config, rows: seq<Row>, r: Row, k: nat)
    requires k <= |c.schema.names| && k <= |c.counts| && k <= r.table
    ensures TableDigests(c, rows + [r], k) == TableDigests(c, rows, k)
  {
    hide RowDigests, TableHeader, RowsOf;
    if k > 0 {
      TableDigestsSnoc(c, rows, r, k - 1);
      RowsOfSnoc(rows, r, k - 1);
      SameTable(c, rows, rows + [r], k - 1);
    }
  }

  lemma RowDigestsSnoc(c: Config, rows: seq<Row>, r: Row)
    requires forall i | 0 <= i < |rows| :: rows[i].table < |c.schema.names|
    requires r.table < |c.schema.names|
    ensures RowDigests(c, rows + [r]) == RowDigests(c, rows) + c.H(RowPreimage(c, r))
  {
    Snoc(rows, r);
  }

  /** What the hasher of the current table has been fed after one more row of that table. */
  lemma TablePreimageSnoc(c: Config, rows: seq<Row>, r: Row)
    requires r.table < |c.schema.names| && r.table < |c.counts|
    ensures TablePreimage(c, r.table, rows + [r]) == TablePreimage(c, r.table, rows) + c.H(RowPreimage(c, r))
  {
    hide RowDigests, TableHeader, RowsOf, RowPreimage;
    RowsOfSnoc(rows, r, r.table);
    RowDigestsSnoc(c, RowsOf(rows, r.table), r);
    Regroup(TableHeader(c, r.table), RowDigests(c, RowsOf(rows, r.table)), c.H(RowPreimage(c, r)));
  }

  /** The last row decides where a strictly ordered list may continue. */
  lemma SortedSnoc(rows: seq<Row>, r: Row)
    requires StrictlySorted(rows)
    ensures StrictlySorted(rows + [r]) <==> rows == [] || Before(rows[|rows| - 1], r)
  {
    var longer := rows + [r];
    assert longer[|rows|] == r;
    if rows != [] {
      var last := rows[|rows| - 1];
      assert longer[|rows| - 1] == last;
      if Before(last, r) {
        forall i | 0 <= i < |rows| ensures Before(rows[i], r) {
          if i < |rows| - 1 { BeforeTransitive(rows[i], last, r); }
        }
      }
    }
  }

  // ---- the invariant ----

  ghost predicate CountsMet(c: Config, rows: seq<Row>, k: nat)
    requires k <= |c.counts|
  {
    forall t | 0 <= t < k :: |RowsOf(rows, t)| == c.counts[t]
  }

  ghost predicate CurrentTable(c: Config, st: DState, rows: seq<Row>)
    requires ValidConfig(c) && st.tableIndex < |c.counts|
  {
    && st.table == TablePreimage(c, st.tableIndex, rows)
    && st.rowsInTable == |RowsOf(rows, st.tableIndex)| <= c.counts[st.tableIndex]
    && if st.rowsInTable == 0 then forall i | 0 <= i < |rows| :: rows[i].table < st.tableIndex
       else rows != [] && rows[|rows| - 1].table == st.tableIndex && rows[|rows| - 1].key == st.previousKey
  }

  ghost predicate Inv(c: Config, st: DState, rows: seq<Row>)
    requires ValidConfig(c)
  {
    && st.tableIndex <= |c.counts|
    && (forall i | 0 <= i < |rows| :: ValidRow(c.schema, rows[i]) && rows[i].table <= st.tableIndex)
    && StrictlySorted(rows)
    && CountsMet(c, rows, st.tableIndex)
    && st.state == StateHeader(c) + TableDigests(c, rows, st.tableIndex)
    && (st.tableIndex < |c.counts| ==> CurrentTable(c, st, rows))
    && (st.finished ==> st.tableIndex == |c.counts| && st.digest == c.H(st.state))
  }

  lemma EmptyTable(c: Config, t: nat, rows: seq<Row>)
    requires ValidConfig(c) && t < |c.counts|
    requires forall i | 0 <= i < |rows| :: rows[i].table < t
    ensures RowsOf(rows, t) == [] && TablePreimage(c, t, rows) == TableHeader(c, t)
  {
    RowsOfOther(rows, t);
  }

  lemma FreshInv(c: Config)
    requires ValidConfig(c)
    ensures Inv(c, Fresh(c), [])
  {
    hide TableHeader, StateHeader;
    if |c.counts| > 0 { EmptyTable(c, 0, []); }
  }

  /** Each table is folded into the state exactly once, when it is left. */
  lemma NextTableInv(c: Config, st: DState, rows: seq<Row>)
    requires ValidConfig(c) && Inv(c, st, rows) && CanFinishTable(c, st)
    ensures Inv(c, NextTable(c, st), rows) && !NextTable(c, st).finished
    ensures NextTable(c, st).tableIndex == st.tableIndex + 1
  {
    hide TableHeader, StateHeader, TablePreimage, RowsOf, ValidRow, StrictlySorted;
    Regroup(StateHeader(c), TableDigests(c, rows, st.tableIndex), c.H(st.table));
    if st.tableIndex + 1 < |c.counts| {
      EmptyTable(c, st.tableIndex + 1, rows);
    }
  }

  lemma {:induction false} AdvanceInv(c: Config, st: DState, rows: seq<Row>, target: nat)
    requires ValidConfig(c) && Inv(c, st, rows) && target <= |c.counts| && !st.finished
    ensures var (moved, ok) := Advance(c, st, target);
      && Inv(c, moved, rows) && !moved.finished
      && (ok <==> CountsMet(c, rows, target))
      && (ok ==> moved.tableIndex == if target <= st.tableIndex then st.tableIndex else target)
    decreases target - st.tableIndex
  {
    hide TableHeader, StateHeader, TablePreimage, TableDigests, StrictlySorted, ValidRow, RowsOf;
    if st.tableIndex < target && CanFinishTable(c, st) {
      NextTableInv(c, st, rows);
      AdvanceInv(c, NextTable(c, st), rows, target);
    }
  }

  // ---- what the calls do ----

  /** When a row may follow the rows accepted so far; the machine state is not mentioned. */
  ghost predicate Extends(c: Config, rows: seq<Row>, r: Row) {
    && ValidRow(c.schema, r)
    && StrictlySorted(rows + [r])
    && r.table < |c.counts|
    && CountsMet(c, rows, r.table)
    && |RowsOf(rows, r.table)| < c.counts[r.table]
  }

  lemma AcceptsIffExtends(c: Config, st: DState, rows: seq<Row>, r: Row)
    requires ValidConfig(c) && Inv(c, st, rows) && r.table <= st.tableIndex < |c.counts|
    ensures Accepts(c, st, r) <==> Extends(c, rows, r)
  {
    hide TableHeader, StateHeader, TablePreimage, TableDigests, RowsOf;
    SortedSnoc(rows, r);
    if r.table == st.tableIndex && st.rowsInTable == 0 && rows != [] {
      assert Before(rows[|rows| - 1], r);
    }
  }

  lemma AbsorbInv(c: Config, st: DState, rows: seq<Row>, r: Row)
    requires ValidConfig(c) && Inv(c, st, rows) && !st.finished && r.table == st.tableIndex && Accepts(c, st, r)
    ensures Inv(c, Absorb(c, st, r), rows + [r])
  {
    hide TableHeader, StateHeader, TablePreimage, TableDigests, RowsOf, RowPreimage, ValidRow, StrictlySorted;
    AcceptsIffExtends(c, st, rows, r);
    TablePreimageSnoc(c, rows, r);
    TableDigestsSnoc(c, rows, r, st.tableIndex);
    RowsOfSnoc(rows, r, r.table);
    forall t | 0 <= t < st.tableIndex ensures |RowsOf(rows + [r], t)| == c.counts[t] {
      RowsOfSnoc(rows, r, t);
    }
  }

  /** A row is taken exactly when it may follow the rows taken before, and a refused row
      leaves the digester standing for the same rows. */
  lemma AppendMeaning(c: Config, st: DState, rows: seq<Row>, r: Row)
    requires ValidConfig(c) && Inv(c, st, rows)
    ensures var (next, ok) := AppendStep(c, st, r);
      && (ok <==> !st.finished && Extends(c, rows, r))
      && Inv(c, next, if ok then rows + [r] else rows)
      && next.finished == st.finished
  {
    hide TableHeader, StateHeader, TablePreimage, TableDigests, RowsOf, RowPreimage, StrictlySorted;
    if !st.finished && st.tableIndex < |c.counts| && r.table < |c.counts| {
      AdvanceInv(c, st, rows, r.table);
      var (moved, ok) := Advance(c, st, r.table);
      if ok {
        AcceptsIffExtends(c, moved, rows, r);
        if Accepts(c, moved, r) { AbsorbInv(c, moved, rows, r); }
      }
    }
  }

  /** Sum succeeds exactly when every declared count is met, and then returns the specified digest. */
  lemma SumMeaning(c: Config, st: DState, rows: seq<Row>)
    requires ValidConfig(c) && Inv(c, st, rows)
    ensures var (next, d) := SumStep(c, st);
      && (d.Some? <==> Complete(c, rows))
      && (d.Some? ==> d.value == StateSpec(c, rows) && next.finished)
      && Inv(c, next, rows)
  {
    hide TableHeader, StateHeader, TablePreimage, TableDigests, RowsOf, RowPreimage, StrictlySorted;
    if !st.finished {
      AdvanceInv(c, st, rows, |c.counts|);
    }
  }

  lemma {:induction false} RowsOfGrows(rows: seq<Row>, more: seq<Row>, t: nat)
    ensures |RowsOf(rows, t)| <= |RowsOf(rows + more, t)|
    ensures (exists i :: 0 <= i < |more| && more[i].table == t) ==> |RowsOf(rows, t)| < |RowsOf(rows + more, t)|
    ensures (forall i | 0 <= i < |more| :: more[i].table != t) ==> RowsOf(rows, t) == RowsOf(rows + more, t)
    decreases |more|
  {
    if more == [] {
      assert rows + more == rows;
    } else {
      var shorter, r := more[..|more| - 1], more[|more| - 1];
      assert rows + more == rows + shorter + [r];
      RowsOfGrows(rows, shorter, t);
      RowsOfSnoc(rows + shorter, r, t);
      if (exists i :: 0 <= i < |more| && more[i].table == t) && r.table != t {
        var i :| 0 <= i < |more| && more[i].table == t;
        assert shorter[i].table == t;
      }
    }
  }

  /** Every row of a complete list could be appended when its turn came. */
  lemma CompleteExtends(c: Config, rows: seq<Row>, w: seq<Row>)
    requires ValidConfig(c) && w != [] && Complete(c, rows + w)
    ensures Extends(c, rows, w[0])
  {
    var all, r := rows + w, w[0];
    assert all[|rows|] == r;
    assert rows + [r] == all[..|rows| + 1];
    assert ValidRow(c.schema, r);
    forall t | 0 <= t < r.table ensures |RowsOf(rows, t)| == c.counts[t] {
      forall i | 0 <= i < |w| ensures w[i].table != t {
        assert all[|rows| + i] == w[i];
        if i > 0 { assert Before(all[|rows|], all[|rows| + i]); }
      }
      RowsOfGrows(rows, w, t);
    }
    RowsOfGrows(rows, w, r.table);
    hide RowsOf, Before, ValidRow;
  }

  /** From any unfinished state the successful continuations are those that complete the
      accepted rows: they depend on nothing the refused calls did. */
  lemma {:induction false} ContinuationsExact(c: Config, st: DState, rows: seq<Row>, w: seq<Row>)
    requires ValidConfig(c) && Inv(c, st, rows) && !st.finished
    ensures RunToEnd(c, st, w).Some? <==> Complete(c, rows + w)
    ensures RunToEnd(c, st, w).Some? ==> RunToEnd(c, st, w).value == StateSpec(c, rows + w)
    decreases |w|
  {
    hide Inv, Complete, StateSpec, AppendStep, SumStep, Extends;
    if w == [] {
      assert rows + w == rows;
      SumMeaning(c, st, rows);
    } else {
      AppendMeaning(c, st, rows, w[0]);
      assert rows + w == rows + [w[0]] + w[1..];
      if Complete(c, rows + w) { CompleteExtends(c, rows, w); }
      var (next, ok) := AppendStep(c, st, w[0]);
      if ok { ContinuationsExact(c, next, rows + [w[0]], w[1..]); }
    }
  }

  // ---- arbitrary mixes of calls ----

  datatype Call = AppendCall(row: Row) | SumCall

  datatype Trace = Trace(st: DState, taken: seq<Row>)

  function Perform(c: Config, t: Trace, call: Call): Trace
    requires ValidConfig(c)
  {
    match call
    case AppendCall(r) =>
      var (next, ok) := AppendStep(c, t.st, r);
      Trace(next, if ok then t.taken + [r] else t.taken)
    case SumCall => Trace(SumStep(c, t.st).0, t.taken)
  }

  function PerformAll(c: Config, calls: seq<Call>): Trace
    requires ValidConfig(c)
  {
    if calls == [] then Trace(Fresh(c), [])
    else Perform(c, PerformAll(c, calls[..|calls| - 1]), calls[|calls| - 1])
  }

  lemma {:induction false} RunInv(c: Config, calls: seq<Call>)
    requires ValidConfig(c)
    ensures var t := PerformAll(c, calls); Inv(c, t.st, t.taken)
  {
    if calls == [] {
      FreshInv(c);
    } else {
      RunInv(c, calls[..|calls| - 1]);
      var t := PerformAll(c, calls[..|calls| - 1]);
      match calls[|calls| - 1]
      case AppendCall(r) => AppendMeaning(c, t.st, t.taken, r);
      case SumCall => SumMeaning(c, t.st, t.taken);
      hide Inv, AppendStep, SumStep;
    }
  }

  /** After any mix of calls, Sum answers for exactly the accepted rows. */
  lemma SumAfterAnyCalls(c: Config, calls: seq<Call>)
    requires ValidConfig(c)
    ensures var t := PerformAll(c, calls);
      && (SumStep(c, t.st).1.Some? <==> Complete(c, t.taken))
      && (SumStep(c, t.st).1.Some? ==> SumStep(c, t.st).1.value == StateSpec(c, t.taken))
  {
    RunInv(c, calls);
    SumMeaning(c, PerformAll(c, calls).st, PerformAll(c, calls).taken);
    hide *;
  }

  /** A refused append or a failed sum rules out no continuation and makes none possible. */
  lemma RefusalChangesNoFuture(c: Config, calls: seq<Call>, call: Call, w: seq<Row>)
    requires ValidConfig(c)
    requires var t := PerformAll(c, calls);
      !t.st.finished && match call
                        case AppendCall(r) => !AppendStep(c, t.st, r).1
                        case SumCall => SumStep(c, t.st).1.None?
    ensures var t := PerformAll(c, calls);
      RunToEnd(c, Perform(c, t, call).st, w) == RunToEnd(c, t.st, w)
  {
    var t := PerformAll(c, calls);
    var u := Perform(c, t, call);
    RunInv(c, calls);
    match call {
      case AppendCall(r) => AppendMeaning(c, t.st, t.taken, r);
      case SumCall => SumMeaning(c, t.st, t.taken); FailedSumUnfinished(c, t.st, t.taken);
    }
    ContinuationsExact(c, t.st, t.taken, w);
    ContinuationsExact(c, u.st, t.taken, w);
    hide Inv, AppendStep, SumStep, RunToEnd, Complete, PerformAll;
  }

  lemma FailedSumUnfinished(c: Config, st: DState, rows: seq<Row>)
    requires ValidConfig(c) && Inv(c, st, rows) && !st.finished && SumStep(c, st).1.None?
    ensures !SumStep(c, st).0.finished
  {
    hide Advance;
    AdvanceInv(c, st, rows, |c.counts|);
    hide Inv;
  }
}
