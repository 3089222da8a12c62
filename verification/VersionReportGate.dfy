/** The version-report loop of cmd/codecommd/version_report.go, run against an arbitrary environment. */
module VersionReportGate {
  import opened Bytes
  import opened Wrappers

  type Reservation = nat

  datatype Member = Member(entityVersion: nat, daemonVersion: nat, applyLevel: nat)

  datatype Outcome = Accepted | VersionMismatch | OtherRejection

  /** What the environment answers to one call; `ok` is false for an error, which is not a failure of
      the gate when its context was cancelled. */
  datatype Answer = Answer(ok: bool, cancelled: bool, outcome: Outcome, member: Member)

  /** Calls made by the loop that succeeded, in order. */
  datatype Call =
    | Await(reservation: Reservation, outcome: Outcome)
    | Read(member: Member)
    | Reserve(reservation: Reservation, version: nat)
    | Synchronize
    | Complete(reservation: Reservation)
    | Recover

  predicate ValidMember(m: Member) {
    1 <= m.entityVersion <= MAX_SAFE_INTEGER
  }

  /** The binary being started. */
  datatype Binary = Binary(daemonVersion: nat, applyLevel: nat)

  predicate Matches(b: Binary, m: Member) {
    m.daemonVersion == b.daemonVersion && m.applyLevel == b.applyLevel
  }

  /** The most recent membership read matched; with no read yet, the one made in preparation did. */
  predicate LastReadMatches(b: Binary, prepared: bool, trace: seq<Call>) {
    if trace == [] then prepared
    else if trace[|trace| - 1].Read? then Matches(b, trace[|trace| - 1].member)
    else LastReadMatches(b, prepared, trace[..|trace| - 1])
  }

  /** `r` was awaited to an outcome, the membership read right after it matched, and nothing has
      been reserved since. */
  predicate SettledBy(b: Binary, trace: seq<Call>, r: Reservation) {
    exists j :: 0 <= j < |trace| - 1 && SettledAt(b, trace, r, j)
  }

  predicate SettledAt(b: Binary, trace: seq<Call>, r: Reservation, j: nat)
    requires j + 1 < |trace|
  {
    && trace[j].Await? && trace[j].reservation == r
    && trace[j + 1].Read? && Matches(b, trace[j + 1].member)
    && forall i | j < i < |trace| :: !trace[i].Reserve?
  }

  /** Every completed report was settled before it was completed. */
  predicate CompletesSettled(b: Binary, trace: seq<Call>) {
    forall i | 0 <= i < |trace| && trace[i].Complete? :: SettledBy(b, trace[..i], trace[i].reservation)
  }

  /** A report is reserved only right after a read that did not match, at the version just read. */
  predicate ReservesFollowReads(b: Binary, trace: seq<Call>) {
    forall i | 0 <= i < |trace| && trace[i].Reserve? ::
      && i > 0 && trace[i - 1].Read? && !Matches(b, trace[i - 1].member)
      && trace[i].version == trace[i - 1].member.entityVersion
  }

  lemma LastReadSnoc(b: Binary, prepared: bool, trace: seq<Call>, call: Call)
    ensures LastReadMatches(b, prepared, trace + [call]) <==>
            if call.Read? then Matches(b, call.member) else LastReadMatches(b, prepared, trace)
  {
    assert (trace + [call])[..|trace|] == trace;
  }

  lemma SettledSnoc(b: Binary, trace: seq<Call>, r: Reservation, call: Call)
    requires SettledBy(b, trace, r) && !call.Reserve?
    ensures SettledBy(b, trace + [call], r)
  {
    var j :| 0 <= j < |trace| - 1 && SettledAt(b, trace, r, j);
    assert SettledAt(b, trace + [call], r, j);
  }

  lemma SettledNow(b: Binary, trace: seq<Call>, r: Reservation, outcome: Outcome, m: Member)
    requires Matches(b, m)
    ensures SettledBy(b, trace + [Await(r, outcome)] + [Read(m)], r)
  {
    var t := trace + [Await(r, outcome)] + [Read(m)];
    assert SettledAt(b, t, r, |trace|);
  }

  predicate FollowsRead(b: Binary, trace: seq<Call>, version: nat) {
    && trace != [] && trace[|trace| - 1].Read?
    && !Matches(b, trace[|trace| - 1].member) && trace[|trace| - 1].member.entityVersion == version
  }

  lemma CallSnoc(b: Binary, trace: seq<Call>, call: Call)
    requires CompletesSettled(b, trace) && (call.Complete? ==> SettledBy(b, trace, call.reservation))
    ensures CompletesSettled(b, trace + [call])
    ensures ReservesFollowReads(b, trace) && (call.Reserve? ==> FollowsRead(b, trace, call.version)) ==>
              ReservesFollowReads(b, trace + [call])
  {
    var t := trace + [call];
    forall i | 0 <= i < |t| && t[i].Complete? ensures SettledBy(b, t[..i], t[i].reservation) {
      if i < |trace| { assert t[..i] == trace[..i] && t[i] == trace[i]; } else { assert t[..i] == trace; }
    }
    hide SettledBy;
  }

  /** The loop made `asked` calls: all but the last succeeded. */
  ghost predicate OnlyLastMayFail(env: nat -> Answer, asked: nat) {
    forall i | 0 <= i < asked - 1 :: env(i).ok
  }

  ghost predicate AllOk(env: nat -> Answer, asked: nat) {
    forall i | 0 <= i < asked :: env(i).ok
  }

  lemma OneMoreCall(env: nat -> Answer, asked: nat)
    ensures AllOk(env, asked) ==> OnlyLastMayFail(env, asked) && OnlyLastMayFail(env, asked + 1)
    ensures AllOk(env, asked) && env(asked).ok ==> AllOk(env, asked + 1)
  {
  }

  ghost predicate Cancelled(env: nat -> Answer, asked: nat) {
    asked > 0 && env(asked - 1).cancelled
  }

  /** The last call failed, and not because its context was cancelled: it returned an error, or it was a
      membership read that returned an invalid member. */
  ghost predicate LastCallErred(env: nat -> Answer, asked: nat, trace: seq<Call>) {
    && asked > 0 && !env(asked - 1).cancelled
    && (!env(asked - 1).ok
        || (!ValidMember(env(asked - 1).member) && trace != [] && (trace[|trace| - 1].Await? || trace[|trace| - 1].Synchronize?)))
  }

  /** The last report was awaited to an outcome and yet the membership read after it did not match. */
  predicate Stuck(b: Binary, trace: seq<Call>) {
    |trace| >= 2 && trace[|trace| - 2].Await? && trace[|trace| - 1].Read? && !Matches(b, trace[|trace| - 1].member)
  }

  /** The loop's variables: the report awaited, the report whose membership read matched, the version expected, whether the
      retry at one version is used, whether synchronisation is left, and the calls made. */
  datatype Progress = Progress(
    reservation: Option<Reservation>,
    resolved: Option<Reservation>,
    expected: nat,
    retried: bool,
    left: bool,
    trace: seq<Call>,
    asked: nat)

  ghost predicate Sound(b: Binary, start: Option<Reservation>, synchronizes: bool, matched: bool, env: nat -> Answer, p: Progress) {
    && p.expected <= MAX_SAFE_INTEGER && AllOk(env, p.asked)
    && (p.reservation.None? ==> LastReadMatches(b, matched, p.trace))
    && (p.resolved.Some? ==> p.reservation.None? && SettledBy(b, p.trace, p.resolved.value))
    && CompletesSettled(b, p.trace) && ReservesFollowReads(b, p.trace)
    && (synchronizes && !p.left ==> Synchronize in p.trace)
    && (start.Some? ==> p.reservation.Some? || p.resolved.Some?)
  }

  /** The lexicographic measure of the loop. */
  predicate Smaller(q: Progress, p: Progress) {
    || (!q.left && p.left)
    || (q.left == p.left
        && (q.expected > p.expected
            || (q.expected == p.expected
                && ((q.retried && !p.retried) || (q.retried == p.retried && q.reservation.None? && p.reservation.Some?)))))
  }

  class Gate {
    const binary: Binary
    var ready: bool
    var closed: bool
    var failed: bool

    /** The calls of the finished run, and whether membership matched when it was prepared. */
    ghost var history: seq<Call>
    ghost var prepared: bool

    /** A ready gate has recovered agents after a last membership read that matched this binary. */
    ghost predicate Valid()
      reads this
    {
      ready ==> history != [] && history[|history| - 1].Recover? && LastReadMatches(binary, prepared, history)
    }

    constructor (b: Binary)
      ensures binary == b && !ready && !closed && !failed && Valid()
    {
      binary, ready, closed, failed, history, prepared := b, false, false, false, [], false;
    }

    method Fail(cancelled: bool)
      modifies this`failed
      ensures failed == (old(failed) || !cancelled)
    {
      if !cancelled { failed := true; }
    }

    method BeginClose()
      modifies this`closed
      ensures closed
    {
      closed := true;
    }

    /** Agents bind only to a live gate, and only after membership matched this binary and agents were
        recovered. */
    method Bind() returns (allowed: bool)
      requires Valid()
      ensures allowed <==> ready && !closed && !failed
      ensures allowed ==> history != [] && history[|history| - 1].Recover? && LastReadMatches(binary, prepared, history)
    {
      return ready && !closed && !failed;
    }

    /** One call that failed: the gate fails unless the context was cancelled. */
    method Stop(ghost env: nat -> Answer, ghost asked: nat, ghost trace: seq<Call>, cancelled: bool)
      requires !failed && OnlyLastMayFail(env, asked)
      requires if cancelled then Cancelled(env, asked) else LastCallErred(env, asked, trace) || Stuck(binary, trace)
      modifies this`failed
      ensures failed <==> !cancelled
      ensures Halted(env, asked, trace)
    {
      Fail(cancelled);
    }

    /** Why a run may end without recovering agents. */
    ghost predicate Halted(env: nat -> Answer, asked: nat, trace: seq<Call>)
      reads this
    {
      && OnlyLastMayFail(env, asked)
      && (failed || Cancelled(env, asked))
      && (failed ==> LastCallErred(env, asked, trace) || Stuck(binary, trace))
    }

    /** Await the report, read membership, and decide whether to report again. */
    method ReportOnce(p: Progress, start: Option<Reservation>, synchronizes: bool, matched: bool, env: nat -> Answer)
      returns (q: Progress, going: bool)
      requires !failed && p.reservation.Some? && Sound(binary, start, synchronizes, matched, env, p)
      modifies this`failed
      ensures going ==> !failed && Sound(binary, start, synchronizes, matched, env, q) && Smaller(q, p)
      ensures !going ==> Halted(env, q.asked, q.trace)
      ensures CompletesSettled(binary, q.trace) && ReservesFollowReads(binary, q.trace)
    {
      hide LastReadMatches, SettledBy, CompletesSettled, ReservesFollowReads, AllOk, OnlyLastMayFail;
      q, going := p, false;
      var report := p.reservation.value;
      OneMoreCall(env, q.asked);
      var awaited := env(q.asked);
      q := q.(asked := q.asked + 1);
      if !awaited.ok { Stop(env, q.asked, q.trace, awaited.cancelled); return; }
      CallSnoc(binary, q.trace, Await(report, awaited.outcome));
      q := q.(trace := q.trace + [Await(report, awaited.outcome)]);
      OneMoreCall(env, q.asked);
      var reading := env(q.asked);
      q := q.(asked := q.asked + 1);
      if !reading.ok || !ValidMember(reading.member) { Stop(env, q.asked, q.trace, reading.cancelled); return; }
      var member := reading.member;
      CallSnoc(binary, q.trace, Read(member));
      LastReadSnoc(binary, matched, q.trace, Read(member));
      q := q.(trace := q.trace + [Read(member)]);
      if Matches(binary, member) {
        SettledNow(binary, p.trace, report, awaited.outcome, member);
        q := q.(resolved := Some(report), reservation := None);
        return q, true;
      }
      var advanced := member.entityVersion > p.expected;
      var again := awaited.outcome.VersionMismatch? && member.entityVersion == p.expected && !p.retried;
      if !((!awaited.outcome.OtherRejection? && advanced) || again) {
        OneMoreCall(env, q.asked);
        Stop(env, q.asked, q.trace, false);
        return;
      }
      OneMoreCall(env, q.asked);
      var next := env(q.asked);
      q := q.(expected := member.entityVersion, retried := !advanced, asked := q.asked + 1);
      if !next.ok { Stop(env, q.asked, q.trace, next.cancelled); return; }
      CallSnoc(binary, q.trace, Reserve(q.asked, member.entityVersion));
      q := q.(reservation := Some(q.asked), trace := q.trace + [Reserve(q.asked, member.entityVersion)]);
      return q, true;
    }

    /** Synchronise membership once, and report again if it has moved away. */
    method SynchronizeOnce(p: Progress, start: Option<Reservation>, synchronizes: bool, matched: bool, env: nat -> Answer)
      returns (q: Progress, going: bool)
      requires !failed && p.reservation.None? && p.left && Sound(binary, start, synchronizes, matched, env, p)
      modifies this`failed
      ensures going ==> !failed && Sound(binary, start, synchronizes, matched, env, q) && Smaller(q, p)
      ensures !going ==> Halted(env, q.asked, q.trace)
      ensures CompletesSettled(binary, q.trace) && ReservesFollowReads(binary, q.trace)
    {
      hide LastReadMatches, SettledBy, CompletesSettled, ReservesFollowReads, AllOk, OnlyLastMayFail;
      q, going := p.(left := false), false;
      OneMoreCall(env, q.asked);
      var synchronized := env(q.asked);
      q := q.(asked := q.asked + 1);
      if !synchronized.ok { Stop(env, q.asked, q.trace, synchronized.cancelled); return; }
      CallSnoc(binary, q.trace, Synchronize);
      if q.resolved.Some? { SettledSnoc(binary, q.trace, q.resolved.value, Synchronize); }
      q := q.(trace := q.trace + [Synchronize]);
      OneMoreCall(env, q.asked);
      var reading := env(q.asked);
      q := q.(asked := q.asked + 1);
      if !reading.ok || !ValidMember(reading.member) { Stop(env, q.asked, q.trace, reading.cancelled); return; }
      var member := reading.member;
      CallSnoc(binary, q.trace, Read(member));
      LastReadSnoc(binary, matched, q.trace, Read(member));
      if q.resolved.Some? { SettledSnoc(binary, q.trace, q.resolved.value, Read(member)); }
      q := q.(trace := q.trace + [Read(member)]);
      if !Matches(binary, member) {
        OneMoreCall(env, q.asked);
        var next := env(q.asked);
        q := q.(asked := q.asked + 1);
        if !next.ok { Stop(env, q.asked, q.trace, next.cancelled); return; }
        CallSnoc(binary, q.trace, Reserve(q.asked, member.entityVersion));
        q := q.(reservation := Some(q.asked), resolved := None, expected := member.entityVersion, retried := false,
                trace := q.trace + [Reserve(q.asked, member.entityVersion)]);
      }
      return q, true;
    }

    /** Release the barrier of a settled report, then recover agents. */
    method Finish(p: Progress, start: Option<Reservation>, synchronizes: bool, matched: bool, env: nat -> Answer)
      returns (trace: seq<Call>, asked: nat, done: bool)
      requires !failed && p.reservation.None? && !p.left && Sound(binary, start, synchronizes, matched, env, p)
      modifies this`failed
      ensures done ==> !failed && trace != [] && trace[|trace| - 1].Recover? && LastReadMatches(binary, matched, trace)
      ensures done && synchronizes ==> Synchronize in trace
      ensures done && start.Some? ==> exists i :: 0 <= i < |trace| && trace[i].Complete?
      ensures CompletesSettled(binary, trace) && ReservesFollowReads(binary, trace)
      ensures if done then AllOk(env, asked) else Halted(env, asked, trace)
    {
      hide LastReadMatches, SettledBy, CompletesSettled, ReservesFollowReads, AllOk, OnlyLastMayFail;
      done := false;
      trace, asked := p.trace, p.asked;
      if p.resolved.Some? {
        OneMoreCall(env, asked);
        var completed := env(asked);
        asked := asked + 1;
        if !completed.ok { Stop(env, asked, trace, completed.cancelled); return; }
        CallSnoc(binary, trace, Complete(p.resolved.value));
        LastReadSnoc(binary, matched, trace, Complete(p.resolved.value));
        trace := trace + [Complete(p.resolved.value)];
        assert trace[|trace| - 1].Complete?;
      }
      OneMoreCall(env, asked);
      var recovered := env(asked);
      asked := asked + 1;
      if !recovered.ok { Stop(env, asked, trace, recovered.cancelled); return; }
      CallSnoc(binary, trace, Recover);
      LastReadSnoc(binary, matched, trace, Recover);
      ghost var before := trace;
      trace := trace + [Recover];
      assert forall i | 0 <= i < |before| :: trace[i] == before[i];
      done := true;
    }

    /** Reports until membership matches, synchronises once, releases the barrier and recovers agents; ends against every
        environment, since synchronisation left, room above the expected version and the unused same-version
        retry can only shrink. */
    method Resolve(start: Option<Reservation>, version: nat, synchronizes: bool, matched: bool, env: nat -> Answer)
      returns (trace: seq<Call>, asked: nat, done: bool)
      requires !failed && 1 <= version <= MAX_SAFE_INTEGER
      requires start.None? ==> matched
      modifies this`failed
      ensures done ==> !failed && trace != [] && trace[|trace| - 1].Recover? && LastReadMatches(binary, matched, trace)
      ensures done && synchronizes ==> Synchronize in trace
      ensures done && start.Some? ==> exists i :: 0 <= i < |trace| && trace[i].Complete?
      ensures CompletesSettled(binary, trace) && ReservesFollowReads(binary, trace)
      ensures if done then AllOk(env, asked) else Halted(env, asked, trace)
    {
      NoCalls(binary, matched);
      var p := Progress(start, None, version, false, synchronizes, [], 0);
      assert AllOk(env, 0);
      hide LastReadMatches, SettledBy, CompletesSettled, ReservesFollowReads, AllOk, OnlyLastMayFail, Halted;
      done := false;
      while p.reservation.Some? || p.left
        invariant !failed && Sound(binary, start, synchronizes, matched, env, p)
        invariant CompletesSettled(binary, p.trace) && ReservesFollowReads(binary, p.trace)
        decreases if p.left then 1 else 0, MAX_SAFE_INTEGER - p.expected, if p.retried then 0 else 1, if p.reservation.Some? then 1 else 0
      {
        var going;
        if p.reservation.Some? {
          p, going := ReportOnce(p, start, synchronizes, matched, env);
        } else {
          p, going := SynchronizeOnce(p, start, synchronizes, matched, env);
        }
        if !going { return p.trace, p.asked, false; }
      }
      trace, asked, done := Finish(p, start, synchronizes, matched, env);
    }

    /** The gate becomes ready only when the last membership read matched this binary and agents were recovered after
        it; a barrier is completed only for a report that was settled. */
    method Run(start: Option<Reservation>, version: nat, synchronizes: bool, matched: bool, env: nat -> Answer)
      returns (trace: seq<Call>, asked: nat)
      requires !ready && !failed && 1 <= version <= MAX_SAFE_INTEGER
      requires start.None? ==> matched
      modifies this
      ensures Valid() && history == trace && prepared == matched && closed == old(closed)
      ensures ready ==> !closed && !failed && trace != [] && trace[|trace| - 1].Recover?
      ensures ready ==> LastReadMatches(binary, matched, trace)
      ensures ready && synchronizes ==> Synchronize in trace
      ensures ready && start.Some? ==> exists i :: 0 <= i < |trace| && trace[i].Complete?
      ensures CompletesSettled(binary, trace) && ReservesFollowReads(binary, trace)
      ensures OnlyLastMayFail(env, asked)
      ensures !ready ==> closed || failed || Cancelled(env, asked)
      ensures failed ==> LastCallErred(env, asked, trace) || Stuck(binary, trace)
    {
      hide LastReadMatches, SettledBy, CompletesSettled, ReservesFollowReads;
      var done;
      trace, asked, done := Resolve(start, version, synchronizes, matched, env);
      history, prepared := trace, matched;
      OneMoreCall(env, asked);
      if !done { return; }
      // the last look at the context
      var context := env(asked);
      asked := asked + 1;
      if !closed && !failed && !context.cancelled { ready := true; }
    }
  }

  lemma NoCalls(b: Binary, prepared: bool)
    ensures LastReadMatches(b, prepared, []) == prepared && CompletesSettled(b, []) && ReservesFollowReads(b, [])
  {
  }
}
