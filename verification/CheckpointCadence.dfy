/** The checkpoint scheduler of cmd/codecommd/checkpoint_scheduler.go. A moment has a wall reading, which
    may jump, and a monotonic reading; durable baseline times have only a wall reading. */
module CheckpointCadence {
  import opened Bytes
  import opened Wrappers

  const MIN_EVENTS: nat := 100
  const MAX_EVENTS: nat := 10_000
  const MIN_INTERVAL_SECONDS: nat := 60
  const MAX_INTERVAL_SECONDS: nat := 3_600
  const SECOND: nat := 1_000_000_000

  datatype Moment = Moment(wall: int, mono: int)

  datatype Lineage = Lineage(session: nat, workspace: nat, generation: nat)

  datatype Snapshot = Snapshot(
    lineage: Lineage,
    headChain: nat,
    headResult: nat,
    baseChain: nat,
    baseResult: nat,
    baselineAt: int,
    events: nat,
    intervalSeconds: nat)

  datatype Observation = Nothing | Seen(snapshot: Snapshot, at: Moment)

  predicate Valid(s: Snapshot) {
    && s.lineage.generation <= MAX_SAFE_INTEGER && s.headChain <= MAX_SAFE_INTEGER && s.headResult <= MAX_SAFE_INTEGER
    && s.headChain <= s.headResult && s.baseChain <= s.baseResult
    && s.baseChain <= s.headChain && s.baseResult <= s.headResult
    && MIN_EVENTS <= s.events <= MAX_EVENTS
    && MIN_INTERVAL_SECONDS <= s.intervalSeconds <= MAX_INTERVAL_SECONDS
  }

  function Interval(s: Snapshot): nat {
    s.intervalSeconds * SECOND
  }

  predicate SameBaseline(a: Snapshot, b: Snapshot) {
    a.baseChain == b.baseChain && a.baseResult == b.baseResult
  }

  predicate Advanced(a: Snapshot, b: Snapshot) {
    b.baseChain > a.baseChain && b.baseResult > a.baseResult
  }

  function Max(a: int, b: int): int {
    if a < b then b else a
  }

  /** The cadence accepts a reading after what it saw before. */
  predicate Follows(previous: Observation, s: Snapshot) {
    previous.Seen? && previous.snapshot.lineage == s.lineage ==>
      && s.headChain >= previous.snapshot.headChain && s.headResult >= previous.snapshot.headResult
      && (SameBaseline(previous.snapshot, s) || Advanced(previous.snapshot, s))
      && (SameBaseline(previous.snapshot, s) ==> s.baselineAt == previous.snapshot.baselineAt)
  }

  function Next(s: Snapshot, now: Moment, previous: Observation): Observation {
    if previous.Seen? && previous.snapshot.lineage == s.lineage && SameBaseline(previous.snapshot, s)
    then Seen(s, previous.at) else Seen(s, now)
  }

  /** Durable elapsed time is a wall difference; observed elapsed time is a monotonic one. */
  function Elapsed(s: Snapshot, now: Moment, observedAt: Moment): int {
    Max(Max(now.wall - s.baselineAt, 0), Max(now.mono - observedAt.mono, 0))
  }

  /** Enough events have been accepted since the baseline. */
  predicate CountReached(s: Snapshot) {
    s.headChain - s.baseChain >= s.events
  }

  function Delay(s: Snapshot, now: Moment, observedAt: Moment): (d: int)
    ensures d >= 0
  {
    if CountReached(s) then 0
    else if Elapsed(s, now, observedAt) >= Interval(s) then 0
    else Interval(s) - Elapsed(s, now, observedAt)
  }

  function CadenceDelay(s: Snapshot, now: Moment, previous: Observation): Option<(nat, Observation)> {
    if !Valid(s) || !Follows(previous, s) then None
    else
      var next := Next(s, now, previous);
      Some((Delay(s, now, next.at), next))
  }

  // ---- the due time ----

  /** When the checkpoint falls due, on the monotonic clock. */
  function Due(s: Snapshot, now: Moment, observedAt: Moment): int {
    now.mono + Delay(s, now, observedAt)
  }

  /** Readings of one lineage, baseline and interval, taken in order. */
  predicate Steady(readings: seq<(Snapshot, Moment)>) {
    && (forall i | 0 <= i < |readings| :: Valid(readings[i].0))
    && (forall i | 0 < i < |readings| ::
          var (p, m), (s, n) := readings[i - 1], readings[i];
          && s.lineage == p.lineage && SameBaseline(p, s) && s.baselineAt == p.baselineAt && s.intervalSeconds == p.intervalSeconds
          && s.headChain >= p.headChain && s.headResult >= p.headResult && n.mono >= m.mono)
  }

  function Observe(readings: seq<(Snapshot, Moment)>): Option<Observation> {
    if readings == [] then Some(Nothing)
    else
      var previous := Observe(readings[..|readings| - 1]);
      if previous.None? then None
      else
        var r := CadenceDelay(readings[|readings| - 1].0, readings[|readings| - 1].1, previous.value);
        if r.None? then None else Some(r.value.1)
  }

  /** A steady run is never refused and keeps its first local observation. */
  lemma {:induction false} SteadyKeepsFirst(readings: seq<(Snapshot, Moment)>)
    requires Steady(readings) && readings != []
    ensures Observe(readings) == Some(Seen(readings[|readings| - 1].0, readings[0].1))
    ensures forall i | 0 <= i < |readings| :: readings[i].1.mono >= readings[0].1.mono
    ensures forall i | 0 <= i < |readings| ::
              Interval(readings[i].0) == Interval(readings[0].0) && readings[i].0.baselineAt == readings[0].0.baselineAt
  {
    var n := |readings| - 1;
    if n > 0 {
      SteadyKeepsFirst(readings[..n]);
      assert readings[..n][n - 1] == readings[n - 1];
    } else {
      assert Observe(readings[..0]) == Some(Nothing);
    }
  }

  /** However the wall clock jumps, at every wake-up of a steady run the checkpoint is due now or
      within one interval of the first local observation. */
  lemma DueWithinOneInterval(readings: seq<(Snapshot, Moment)>, i: nat)
    requires Steady(readings) && i < |readings|
    ensures var (s, now) := readings[i];
      Delay(s, now, readings[0].1) == 0 || Due(s, now, readings[0].1) <= readings[0].1.mono + Interval(readings[0].0)
  {
    SteadyKeepsFirst(readings);
  }

  /** The due time of the second reading is later than that of the first, and not because the
      checkpoint is due at once. */
  predicate PushedBack(s: Snapshot, a: Moment, t: Snapshot, b: Moment, o: Moment) {
    Due(t, b, o) > Max(Due(s, a, o), b.mono)
  }

  /** The two ways to lose a due time: the event threshold had been reached and was raised, or durable
      elapsed time governed and the wall clock then advanced less than the monotonic one. Neither
      matters when the second reading finds the checkpoint due. */
  predicate Loses(s: Snapshot, a: Moment, t: Snapshot, b: Moment, o: Moment) {
    && !CountReached(t) && Elapsed(t, b, o) < Interval(t)
    && (CountReached(s) || (a.wall - s.baselineAt > a.mono - o.mono && b.wall - a.wall < b.mono - a.mono))
  }

  /** For any two readings of one baseline and interval the condition is exact. */
  lemma DuePushedBackExactly(s: Snapshot, a: Moment, t: Snapshot, b: Moment, o: Moment)
    requires s.baselineAt == t.baselineAt && Interval(s) == Interval(t) && o.mono <= a.mono <= b.mono
    ensures PushedBack(s, a, t, b, o) <==> Loses(s, a, t, b, o)
  {
    var e, f := Elapsed(s, a, o), Elapsed(t, b, o);
    assert f < Interval(t) && !CountReached(t) ==> Due(t, b, o) == b.mono + Interval(t) - f > b.mono;
    assert CountReached(s) || e >= Interval(s) ==> Due(s, a, o) == a.mono;
    assert !CountReached(s) && e < Interval(s) ==> Due(s, a, o) == a.mono + Interval(s) - e;
  }

  /** No wake-up of the run pushes the due time back. */
  ghost predicate NeverPushedBack(readings: seq<(Snapshot, Moment)>) {
    forall i, j | 0 <= i < j < |readings| ::
      !PushedBack(readings[i].0, readings[i].1, readings[j].0, readings[j].1, readings[0].1)
  }

  ghost predicate NeverLoses(readings: seq<(Snapshot, Moment)>) {
    forall k | 0 < k < |readings| ::
      !Loses(readings[k - 1].0, readings[k - 1].1, readings[k].0, readings[k].1, readings[0].1)
  }

  lemma {:induction false} StepsCompose(readings: seq<(Snapshot, Moment)>, i: nat, j: nat)
    requires Steady(readings) && NeverLoses(readings) && i < j < |readings|
    ensures !PushedBack(readings[i].0, readings[i].1, readings[j].0, readings[j].1, readings[0].1)
    decreases j - i
  {
    SteadyKeepsFirst(readings);
    DuePushedBackExactly(readings[j - 1].0, readings[j - 1].1, readings[j].0, readings[j].1, readings[0].1);
    hide Loses, Due;
    if i < j - 1 { StepsCompose(readings, i, j - 1); }
  }

  /** Over every run with one lineage, baseline and interval, some wake-up pushes the due time back
      exactly when some step loses it. */
  lemma RunPushedBackExactly(readings: seq<(Snapshot, Moment)>)
    requires Steady(readings)
    ensures NeverPushedBack(readings) <==> NeverLoses(readings)
  {
    if NeverPushedBack(readings) && readings != [] {
      SteadyKeepsFirst(readings);
      forall k | 0 < k < |readings|
        ensures !Loses(readings[k - 1].0, readings[k - 1].1, readings[k].0, readings[k].1, readings[0].1)
      {
        DuePushedBackExactly(readings[k - 1].0, readings[k - 1].1, readings[k].0, readings[k].1, readings[0].1);
      }
    }
    hide Loses, PushedBack;
    if NeverLoses(readings) {
      forall i, j | 0 <= i < j < |readings|
        ensures !PushedBack(readings[i].0, readings[i].1, readings[j].0, readings[j].1, readings[0].1)
      {
        StepsCompose(readings, i, j);
      }
    }
  }

  /** In particular not when the wall clock keeps up with the monotonic one and the event threshold is
      never raised. */
  lemma DueNeverPushedBack(readings: seq<(Snapshot, Moment)>)
    requires Steady(readings)
    requires forall k | 0 < k < |readings| ::
               && readings[k].1.wall - readings[k - 1].1.wall >= readings[k].1.mono - readings[k - 1].1.mono
               && readings[k].0.events <= readings[k - 1].0.events
    ensures NeverPushedBack(readings)
  {
    RunPushedBackExactly(readings);
  }

  /** A backward step of the wall clock pushes it back. */
  lemma BackwardWallClockDelaysTheCheckpoint()
    ensures var s := Snapshot(Lineage(1, 1, 0), 5, 5, 5, 5, 0, 100, 60);
      var first, second := Moment(50 * SECOND, 0), Moment(10 * SECOND, SECOND);
      && Steady([(s, first), (s, second)])
      && Due(s, first, first) == 10 * SECOND && Due(s, second, first) == 51 * SECOND
  {
    var s := Snapshot(Lineage(1, 1, 0), 5, 5, 5, 5, 0, 100, 60);
    var first, second := Moment(50 * SECOND, 0), Moment(10 * SECOND, SECOND);
    assert Elapsed(s, first, first) == 50 * SECOND && Elapsed(s, second, first) == 10 * SECOND;
  }

  /** So does raising the event threshold of a checkpoint that was due by count. */
  lemma RaisedThresholdDelaysTheCheckpoint()
    ensures var s := Snapshot(Lineage(1, 1, 0), 105, 105, 5, 5, 0, 100, 60);
      var t := s.(events := 200);
      var first, second := Moment(0, 0), Moment(SECOND, SECOND);
      && Steady([(s, first), (t, second)])
      && Due(s, first, first) == 0 && Due(t, second, first) == 60 * SECOND
  {
    var s := Snapshot(Lineage(1, 1, 0), 105, 105, 5, 5, 0, 100, 60);
    var t := s.(events := 200);
    var first, second := Moment(0, 0), Moment(SECOND, SECOND);
    assert Elapsed(t, second, first) == SECOND;
  }

  // ---- retries ----

  /** Doubling that saturates, tested by halving so that it cannot overflow. */
  function NextRetry(current: nat, maximum: nat): (r: nat)
    ensures r == if 2 * current <= maximum then 2 * current else maximum
    ensures current <= maximum ==> current <= r <= maximum
  {
    if current >= maximum || current > maximum / 2 then maximum else current * 2
  }

  // ---- the run loop ----

  datatype Forcing = Committed | Retryable | Fatal

  /** How the source answers in one turn: it has already failed for good, its durable reading fails, it fails for good
      after the reading, or it works. */
  datatype Source = Broken | Unreadable | BreaksLater | Working

  /** What one turn of the loop meets: the source, a durable reading, the clock, leadership, the outcome
      of a forced checkpoint, and whether a wait ended by a wake-up. */
  datatype Turn = Turn(source: Source, snapshot: Snapshot, now: Moment, leader: bool, forcing: Forcing, woke: bool)

  predicate Readable(turn: Turn) {
    turn.source.Working? || turn.source.BreaksLater?
  }

  datatype Outcome = Running | Failed

  predicate RequireAdvanced(pending: Option<Snapshot>, s: Snapshot) {
    pending.Some? && pending.value.lineage == s.lineage ==> Advanced(pending.value, s)
  }

  /** The lineage is the same at every turn from `a` to `b`. */
  predicate Unbroken(turns: seq<Turn>, a: nat, b: nat) {
    b < |turns| && forall k | a <= k <= b :: turns[k].snapshot.lineage == turns[b].snapshot.lineage
  }

  /** `at` lists the turns whose forced checkpoint committed. */
  predicate InOrder(turns: seq<Turn>, at: seq<nat>, k: nat) {
    && k <= |turns|
    && (forall i | 0 <= i < |at| :: at[i] < k)
    && (forall i, j | 0 <= i < j < |at| :: at[i] < at[j])
  }

  /** Forced checkpoints of an unbroken lineage happen at strictly increasing baselines. */
  predicate Advancing(turns: seq<Turn>, at: seq<nat>)
    requires forall i | 0 <= i < |at| :: at[i] < |turns|
  {
    forall i, j | 0 <= i < j < |at| && Unbroken(turns, at[i], at[j]) ::
      Advanced(turns[at[i]].snapshot, turns[at[j]].snapshot)
  }

  /** What the loop knows after turn `k - 1`: every checkpoint forced since the lineage last changed lies below the
      observed baseline, except one that has just been committed and is not verified yet. */
  predicate Below(turns: seq<Turn>, at: seq<nat>, k: nat, pending: Option<Snapshot>)
    requires 0 < k <= |turns| && forall i | 0 <= i < |at| :: at[i] < k
  {
    var s := turns[k - 1].snapshot;
    forall i | 0 <= i < |at| && Unbroken(turns, at[i], k - 1) ::
      Advanced(turns[at[i]].snapshot, s) || (at[i] == k - 1 && pending == Some(s))
  }

  lemma BelowNext(turns: seq<Turn>, at: seq<nat>, k: nat, pending: Option<Snapshot>, observation: Observation)
    requires 0 < k < |turns| && InOrder(turns, at, k) && Below(turns, at, k, pending)
    requires observation.Seen? && observation.snapshot == turns[k - 1].snapshot
    requires Follows(observation, turns[k].snapshot) && RequireAdvanced(pending, turns[k].snapshot)
    ensures forall i | 0 <= i < |at| && Unbroken(turns, at[i], k) :: Advanced(turns[at[i]].snapshot, turns[k].snapshot)
  {
    forall i | 0 <= i < |at| && Unbroken(turns, at[i], k)
      ensures Advanced(turns[at[i]].snapshot, turns[k].snapshot)
    {
      assert turns[k - 1].snapshot.lineage == turns[k].snapshot.lineage;
      assert Unbroken(turns, at[i], k - 1);
    }
  }

  ghost function Readings(turns: seq<Turn>, k: nat): (r: seq<(Snapshot, Moment)>)
    requires k <= |turns|
    ensures |r| == k
  {
    seq(k, i requires 0 <= i < k => (turns[i].snapshot, turns[i].now))
  }

  lemma ReadingsNext(turns: seq<Turn>, k: nat)
    requires k < |turns|
    ensures var r := Readings(turns, k + 1); r[..k] == Readings(turns, k) && r[k] == (turns[k].snapshot, turns[k].now)
  {
  }

  /** The checkpoint is due at turn `k`, given everything observed up to then. */
  ghost predicate DueAt(turns: seq<Turn>, k: nat)
    requires k < |turns|
  {
    var o := Observe(Readings(turns, k + 1));
    o.Some? && o.value.Seen? && Delay(turns[k].snapshot, turns[k].now, o.value.at) == 0
  }

  ghost predicate Forces(turns: seq<Turn>, k: nat)
    requires k < |turns|
  {
    Readable(turns[k]) && turns[k].leader && turns[k].forcing.Committed? && DueAt(turns, k)
  }

  /** What holds before turn `k`. */
  ghost predicate LoopInv(turns: seq<Turn>, at: seq<nat>, k: nat, observation: Observation, pending: Option<Snapshot>) {
    && InOrder(turns, at, k) && Advancing(turns, at)
    && (forall i | i in at :: i < k && Forces(turns, i))
    && (forall i | 0 <= i < k && Forces(turns, i) :: i in at)
    && Observe(Readings(turns, k)) == Some(observation)
    && (k > 0 ==> observation.Seen? && observation.snapshot == turns[k - 1].snapshot && Below(turns, at, k, pending))
    && (pending.Some? <==> k > 0 && k - 1 in at) && (pending.Some? ==> pending.value == turns[k - 1].snapshot)
  }

  lemma ObserveTurn(turns: seq<Turn>, k: nat, observation: Observation)
    requires k < |turns| && Observe(Readings(turns, k)) == Some(observation)
    requires CadenceDelay(turns[k].snapshot, turns[k].now, observation).Some?
    ensures var r := CadenceDelay(turns[k].snapshot, turns[k].now, observation).value;
      Observe(Readings(turns, k + 1)) == Some(r.1) && (DueAt(turns, k) <==> r.0 == 0) && r.1.Seen? && r.1.snapshot == turns[k].snapshot
  {
    ReadingsNext(turns, k);
  }

  lemma TurnKeeps(turns: seq<Turn>, at: seq<nat>, k: nat, observation: Observation, pending: Option<Snapshot>)
    requires k < |turns| && LoopInv(turns, at, k, observation, pending) && Readable(turns[k])
    requires CadenceDelay(turns[k].snapshot, turns[k].now, observation).Some? && RequireAdvanced(pending, turns[k].snapshot)
    ensures var r := CadenceDelay(turns[k].snapshot, turns[k].now, observation).value;
      && (Forces(turns, k) <==> turns[k].leader && turns[k].forcing.Committed? && r.0 == 0)
      && if Forces(turns, k) then LoopInv(turns, at + [k], k + 1, r.1, Some(turns[k].snapshot))
         else LoopInv(turns, at, k + 1, r.1, None)
    ensures DueAt(turns, k) <==> CadenceDelay(turns[k].snapshot, turns[k].now, observation).value.0 == 0
  {
    ObserveTurn(turns, k, observation);
    if k > 0 { BelowNext(turns, at, k, pending, observation); }
    hide Observe, DueAt, Advanced, CadenceDelay;
    if Forces(turns, k) {
      ForcedInOrder(turns, at, k);
      hide InOrder, Advancing, Unbroken;
      assert Below(turns, at + [k], k + 1, Some(turns[k].snapshot)) by { BelowForced(turns, at, k); }
      hide Below;
    }
  }

  lemma ForcedInOrder(turns: seq<Turn>, at: seq<nat>, k: nat)
    requires k < |turns| && InOrder(turns, at, k) && Advancing(turns, at)
    requires forall i | 0 <= i < |at| && Unbroken(turns, at[i], k) :: Advanced(turns[at[i]].snapshot, turns[k].snapshot)
    ensures InOrder(turns, at + [k], k + 1) && Advancing(turns, at + [k])
  {
    hide Advanced, Unbroken;
    var more := at + [k];
    assert forall i | 0 <= i < |at| :: more[i] == at[i];
    assert more[|at|] == k;
  }

  lemma BelowForced(turns: seq<Turn>, at: seq<nat>, k: nat)
    requires k < |turns| && InOrder(turns, at, k)
    requires forall i | 0 <= i < |at| && Unbroken(turns, at[i], k) :: Advanced(turns[at[i]].snapshot, turns[k].snapshot)
    ensures forall i | 0 <= i < |at + [k]| :: (at + [k])[i] < k + 1
    ensures Below(turns, at + [k], k + 1, Some(turns[k].snapshot))
  {
    hide Advanced, Unbroken;
    var more := at + [k];
    assert forall i | 0 <= i < |at| :: more[i] == at[i];
    assert more[|at|] == k;
  }

  /** Why the loop may give up at turn `k`: the source has failed or cannot be read, the reading is refused, a committed
      forced checkpoint did not advance the baseline of its lineage, or a checkpoint is due and forcing
      it, or the source of a node that does not lead, failed for good. */
  ghost predicate GivesUpAt(turns: seq<Turn>, at: seq<nat>, k: nat)
    requires k < |turns|
  {
    || !Readable(turns[k])
    || Observe(Readings(turns, k + 1)).None?
    || (k > 0 && k - 1 in at && turns[k - 1].snapshot.lineage == turns[k].snapshot.lineage
        && !Advanced(turns[k - 1].snapshot, turns[k].snapshot))
    || (DueAt(turns, k) && turns[k].leader && (turns[k].forcing.Fatal? || (turns[k].forcing.Retryable? && turns[k].source.BreaksLater?)))
    || (DueAt(turns, k) && !turns[k].leader && turns[k].source.BreaksLater?)
  }

  ghost predicate NeverGaveUp(turns: seq<Turn>, at: seq<nat>, k: nat)
    requires k <= |turns|
  {
    forall i | 0 <= i < k :: !GivesUpAt(turns, at, i)
  }

  /** A turn that reached its end was no reason to give up, whether or not it forced a checkpoint. */
  lemma TurnContinues(turns: seq<Turn>, at: seq<nat>, k: nat, observation: Observation, pending: Option<Snapshot>)
    requires k < |turns| && LoopInv(turns, at, k, observation, pending) && Readable(turns[k]) && NeverGaveUp(turns, at, k)
    requires CadenceDelay(turns[k].snapshot, turns[k].now, observation).Some? && RequireAdvanced(pending, turns[k].snapshot)
    requires DueAt(turns, k) && !(turns[k].leader && turns[k].forcing.Committed?) ==>
               !turns[k].source.BreaksLater? && !(turns[k].leader && turns[k].forcing.Fatal?)
    ensures NeverGaveUp(turns, at, k + 1) && NeverGaveUp(turns, at + [k], k + 1)
  {
    ObserveTurn(turns, k, observation);
    hide DueAt, Observe, CadenceDelay, Below, Advancing, Advanced;
    forall i | 0 <= i < k + 1 ensures !GivesUpAt(turns, at, i) && !GivesUpAt(turns, at + [k], i) {
      assert i > 0 ==> (i - 1 in at + [k] <==> i - 1 in at);
    }
  }

  lemma RefusedReading(turns: seq<Turn>, at: seq<nat>, k: nat, observation: Observation, pending: Option<Snapshot>)
    requires k < |turns| && LoopInv(turns, at, k, observation, pending)
    requires CadenceDelay(turns[k].snapshot, turns[k].now, observation).None?
    ensures GivesUpAt(turns, at, k)
  {
    ReadingsNext(turns, k);
  }

  lemma StartLoop(turns: seq<Turn>)
    ensures LoopInv(turns, [], 0, Nothing, None)
  {
    assert Readings(turns, 0) == [];
  }

  /** The scheduler's loop. Unless it fails, a checkpoint is forced at exactly the turns where one is due
      and this node leads. Committed forced checkpoints of an unbroken lineage lie at strictly
      increasing baselines, and every retry delay lies between its initial and maximum values. */
  method RunScheduler(turns: seq<Turn>, initial: nat, maximum: nat)
    returns (outcome: Outcome, at: seq<nat>, retries: seq<nat>)
    requires initial <= maximum
    ensures InOrder(turns, at, |turns|) && Advancing(turns, at)
    ensures forall k | k in at :: k < |turns| && Forces(turns, k)
    ensures outcome.Running? ==> forall k | 0 <= k < |turns| && Forces(turns, k) :: k in at
    ensures outcome.Failed? <==> exists k :: 0 <= k < |turns| && GivesUpAt(turns, at, k)
    ensures forall i | 0 <= i < |retries| :: initial <= retries[i] <= maximum
  {
    at, retries := [], [];
    var observation, pending, retry := Nothing, None, initial;
    StartLoop(turns);
    assert NeverGaveUp(turns, [], 0);
    hide LoopInv, Forces, Delay, Follows, Valid, DueAt, NeverGaveUp;
    for k := 0 to |turns|
      invariant initial <= retry <= maximum && forall i | 0 <= i < |retries| :: initial <= retries[i] <= maximum
      invariant LoopInv(turns, at, k, observation, pending) && NeverGaveUp(turns, at, k)
    {
      ghost var before := (at, observation, pending);
      LoopPromises(turns, at, k, observation, pending);
      var turn := turns[k];
      if !Readable(turn) {
        assert GivesUpAt(turns, at, k);
        return Failed, at, retries;
      }
      var r := CadenceDelay(turn.snapshot, turn.now, observation);
      if r.None? {
        RefusedReading(turns, at, k, observation, pending);
        return Failed, at, retries;
      }
      if !RequireAdvanced(pending, turn.snapshot) {
        PendingWasForced(turns, at, k, observation, pending);
        return Failed, at, retries;
      }
      TurnKeeps(turns, at, k, observation, pending);
      hide CadenceDelay;
      var (delay, next) := r.value;
      observation, pending := next, None;
      if delay > 0 || (turn.leader && turn.forcing.Committed?) {
        TurnContinues(turns, before.0, k, before.1, before.2);
      }
      if delay > 0 {
        retry := initial;
        continue;
      }
      if turn.leader && turn.forcing.Committed? {
        pending := Some(turn.snapshot);
        at := at + [k];
        retry := initial;
        continue;
      }
      if turn.source.BreaksLater? || (turn.leader && turn.forcing.Fatal?) {
        LoopPromises(turns, at, k + 1, observation, pending);
        assert GivesUpAt(turns, at, k);
        return Failed, at, retries;
      }
      TurnContinues(turns, before.0, k, before.1, before.2);
      retries := retries + [retry];
      retry := if turn.woke then initial else NextRetry(retry, maximum);
    }
    LoopPromises(turns, at, |turns|, observation, pending);
    assert forall k | 0 <= k < |turns| :: !GivesUpAt(turns, at, k) by { NothingGaveUp(turns, at); }
    return Running, at, retries;
  }

  lemma NothingGaveUp(turns: seq<Turn>, at: seq<nat>)
    requires NeverGaveUp(turns, at, |turns|)
    ensures forall k | 0 <= k < |turns| :: !GivesUpAt(turns, at, k)
  {
  }

  lemma PendingWasForced(turns: seq<Turn>, at: seq<nat>, k: nat, observation: Observation, pending: Option<Snapshot>)
    requires k < |turns| && LoopInv(turns, at, k, observation, pending) && !RequireAdvanced(pending, turns[k].snapshot)
    ensures GivesUpAt(turns, at, k)
  {
    hide Observe, DueAt, Below, Advancing;
  }

  lemma LoopPromises(turns: seq<Turn>, at: seq<nat>, k: nat, observation: Observation, pending: Option<Snapshot>)
    requires LoopInv(turns, at, k, observation, pending)
    ensures InOrder(turns, at, |turns|) && Advancing(turns, at)
    ensures forall i | i in at :: i < |turns| && Forces(turns, i)
    ensures forall i | 0 <= i < k && i < |turns| && Forces(turns, i) :: i in at
  {
    hide Forces, Advancing, Below;
  }
}
