/** The sequential loops that run under the boot-origin lane: draining one scope, and finding the
    version report left pending by an earlier boot. */
module BootQueues {
  import opened Wrappers

  type Event = nat

  /** What happens to the head of a scope: it is applied, its collision finds it resolved already, it
      must wait (a pairing command, or a leader's command on a follower), or the drain fails. */
  datatype Verdict = Applied | CollisionResolved | Waits | Fails

  datatype DrainStatus = DrainEmpty | DrainBlocked | DrainError

  predicate Settles(v: Verdict) {
    v.Applied? || v.CollisionResolved?
  }

  /** Everything that has arrived after `n` rounds. */
  function Arrived(queue: seq<Event>, arrivals: seq<seq<Event>>, n: nat): seq<Event>
    requires n <= |arrivals|
  {
    if n == 0 then queue else Arrived(queue, arrivals, n - 1) + arrivals[n - 1]
  }

  lemma {:induction false} ArrivedGrows(queue: seq<Event>, arrivals: seq<seq<Event>>, n: nat, m: nat)
    requires n <= m <= |arrivals|
    ensures Arrived(queue, arrivals, n) <= Arrived(queue, arrivals, m)
    decreases m
  {
    if n < m { ArrivedGrows(queue, arrivals, n, m - 1); }
  }

  /** Drains a scope while other holders of the lane go on reserving: `arrivals` are the commands that join the queue
      before each claim. `seen` is all that had arrived at the end. Draining a whole scope settles the
      longest prefix that can be settled, and reports an empty scope only when nothing is left; draining
      through a report settles nothing but that report. */
  method DrainScopeThrough(queue: seq<Event>, arrivals: seq<seq<Event>>, stopAfter: Option<Event>, verdict: Event -> Verdict)
    returns (status: DrainStatus, settled: nat, seen: seq<Event>)
    ensures exists n :: 0 <= n <= |arrivals| && seen == Arrived(queue, arrivals, n)
    ensures settled <= |seen| && forall i | 0 <= i < settled :: Settles(verdict(seen[i]))
    ensures stopAfter.None? ==> (status.DrainEmpty? <==> settled == |seen|)
    ensures stopAfter.None? && settled < |seen| ==>
              !Settles(verdict(seen[settled])) && (status.DrainBlocked? <==> verdict(seen[settled]).Waits?)
    ensures stopAfter.Some? ==> forall i | 0 <= i < settled :: seen[i] == stopAfter.value
    ensures stopAfter.Some? && seen != [] && seen[0] != stopAfter.value ==> status.DrainError? && settled == 0
    ensures stopAfter.Some? && seen != [] && seen[0] == stopAfter.value && verdict(seen[0]).Applied? ==>
              status.DrainEmpty? && settled == 1
    ensures stopAfter.Some? && seen != [] && seen[0] == stopAfter.value && !Settles(verdict(seen[0])) ==>
              settled == 0 && (status.DrainBlocked? <==> verdict(seen[0]).Waits?) && !status.DrainEmpty?
    ensures stopAfter.Some? && |seen| == 1 && seen[0] == stopAfter.value && verdict(seen[0]).CollisionResolved? ==>
              status.DrainEmpty? && settled == 1
    ensures stopAfter.Some? && |seen| > 1 && seen[0] == stopAfter.value && verdict(seen[0]).CollisionResolved? ==>
              seen[1] != stopAfter.value ==> status.DrainError? && settled == 1
    ensures seen == [] ==> status.DrainEmpty?
  {
    ghost var all := Arrived(queue, arrivals, |arrivals|);
    ArrivedGrows(queue, arrivals, 0, |arrivals|);
    var n := 0;
    settled, seen := 0, queue;
    while true
      invariant n <= |arrivals| && seen == Arrived(queue, arrivals, n)
      invariant settled <= |seen| <= |all|
      invariant forall i | 0 <= i < settled :: Settles(verdict(seen[i]))
      invariant stopAfter.Some? ==>
                  forall i | 0 <= i < settled :: seen[i] == stopAfter.value && verdict(seen[i]).CollisionResolved?
      decreases |all| - settled
    {
      if n < |arrivals| {
        ArrivedGrows(queue, arrivals, n + 1, |arrivals|);
        seen := seen + arrivals[n];
        n := n + 1;
      }
      if settled == |seen| { return DrainEmpty, settled, seen; }
      var head := seen[settled];
      if stopAfter.Some? && head != stopAfter.value { return DrainError, settled, seen; }
      match verdict(head)
      case Waits => return DrainBlocked, settled, seen;
      case Fails => return DrainError, settled, seen;
      case CollisionResolved => settled := settled + 1;
      case Applied =>
        settled := settled + 1;
        if stopAfter == Some(head) { return DrainEmpty, settled, seen; }
    }
  }

  /** One outbox record; `sound` says that it and its request pass every validation. */
  datatype Record = Record(scope: nat, sequence: nat, isReport: bool, sound: bool)

  datatype Pending = Found(index: nat) | Nothing | Corrupt

  predicate Precedes(records: seq<Record>, j: nat, i: nat)
    requires i < |records| && j < |records|
  {
    records[j].scope == records[i].scope && records[j].sequence < records[i].sequence
  }

  /** The record is a sound report at the head of its scope. */
  predicate HeadReport(records: seq<Record>, i: nat)
    requires i < |records|
  {
    records[i].isReport && records[i].sound && forall j | 0 <= j < |records| :: !Precedes(records, j, i)
  }

  method HasPredecessor(records: seq<Record>, i: nat) returns (found: bool)
    requires i < |records|
    ensures found <==> exists j :: 0 <= j < |records| && Precedes(records, j, i)
  {
    for j := 0 to |records|
      invariant forall k | 0 <= k < j :: !Precedes(records, k, i)
    {
      if Precedes(records, j, i) { return true; }
    }
    return false;
  }

  /** Finds a report exactly when there is one, it is the only one, it is sound, and nothing precedes
      it in its scope; anything else with a report in it is refused. */
  method FindPendingVersionReport(records: seq<Record>) returns (r: Pending)
    ensures r.Nothing? <==> forall i | 0 <= i < |records| :: !records[i].isReport
    ensures r.Found? ==> r.index < |records| && HeadReport(records, r.index)
    ensures r.Found? ==> forall i | 0 <= i < |records| && records[i].isReport :: i == r.index
    ensures r.Corrupt? ==>
              exists i :: 0 <= i < |records| && records[i].isReport &&
                (!HeadReport(records, i) || exists j :: 0 <= j < |records| && j != i && records[j].isReport)
  {
    r := Nothing;
    for i := 0 to |records|
      invariant !r.Corrupt?
      invariant r.Nothing? <==> forall k | 0 <= k < i :: !records[k].isReport
      invariant r.Found? ==> r.index < i && HeadReport(records, r.index)
      invariant r.Found? ==> forall k | 0 <= k < i && records[k].isReport :: k == r.index
    {
      if records[i].isReport {
        var earlier := HasPredecessor(records, i);
        if earlier || !records[i].sound || r.Found? { return Corrupt; }
        r := Found(i);
      }
    }
  }
}
