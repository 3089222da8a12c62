/** The lane of internal/agent/boot_origin.go: a weighted semaphore that ordinary reservations and
    the drain worker take with weight one and exclusive operations with its whole capacity, and the
    startup version report that bars ordinary work until it is resolved. */
module BootOriginLane {
  import opened Wrappers

  const CAPACITY: nat := 0x10_0000

  type Task = nat

  type Event = nat

  type Scope = nat

  /** Where a goroutine stands on the lane. */
  datatype Place =
    | Idle
    // weight one
    | Checking
    | Reserving
    | WorkerChecking
    | WorkerReport(report: Event)
    | WorkerDraining
    // the whole capacity
    | ExclusiveChecking
    | ExclusiveReport(report: Event)
    | ExclusiveDraining
    | Drained
    | Operating
    | Installing
    | Completing(report: Event)

  predicate HoldsShared(p: Place) {
    p.Checking? || p.Reserving? || p.WorkerChecking? || p.WorkerReport? || p.WorkerDraining?
  }

  predicate HoldsExclusive(p: Place) {
    p.ExclusiveChecking? || p.ExclusiveReport? || p.ExclusiveDraining? || p.Drained? || p.Operating? || p.Installing? || p.Completing?
  }

  function Weight(p: Place): nat {
    if HoldsShared(p) then 1 else if HoldsExclusive(p) then CAPACITY else 0
  }

  /** `used` is the semaphore's counter; `queues` the durable boot-scope queues, of which
      `current` belongs to this boot; `installed` remembers every report ever installed and `reports` every
      event of the report kind ever queued. */
  datatype State = State(
    used: nat,
    tasks: map<Task, Place>,
    report: Option<Event>,
    queues: map<Scope, seq<Event>>,
    current: Scope,
    resolved: set<Event>,
    installed: set<Event>,
    reports: set<Event>)

  function At(m: map<Scope, seq<Event>>, k: Scope): seq<Event> {
    if k in m then m[k] else []
  }

  function PlaceOf(s: State, t: Task): Place {
    if t in s.tasks then s.tasks[t] else Idle
  }

  /** `CommitsElsewhere` settles the head of a queue without the lane: pairing does, and so does any commit that
      arrives after its apply call has failed. */
  datatype Step =
    | Acquire(t: Task, into: Place)
    | ReadPriority(t: Task)
    | Reserve(t: Task, e: Event)
    | Settle(t: Task, k: Scope)
    | CommitsElsewhere(k: Scope)
    | ObserveEmpty(t: Task)
    | StartOperation(t: Task)
    | Install(t: Task, e: Event, queue: bool)
    | QueueOnly(t: Task, e: Event)
    | Complete(t: Task)
    | Leave(t: Task)

  predicate Entry(p: Place) {
    p.Checking? || p.WorkerChecking? || p.ExclusiveChecking? || p.Installing? || p.Completing?
  }

  /** Draining a scope: any scope for the worker, this boot's for an exclusive operation, and only
      the head that is the report itself while a report has priority. */
  predicate MaySettle(s: State, p: Place, k: Scope) {
    && At(s.queues, k) != []
    && match p
       case WorkerDraining => true
       case ExclusiveDraining => k == s.current
       case WorkerReport(e) => At(s.queues, k)[0] == e
       case ExclusiveReport(e) => At(s.queues, k)[0] == e
       case _ => false
  }

  /** No version report of this device waits in any queue. */
  ghost predicate NoPendingReport(s: State) {
    forall k, e | e in At(s.queues, k) :: e !in s.reports
  }

  /** The event is the only pending report and stands at the head of its queue. */
  ghost predicate SolePendingReport(s: State, e: Event) {
    && e in s.reports && (exists k :: At(s.queues, k) != [] && At(s.queues, k)[0] == e)
    && (forall k, f | f in At(s.queues, k) && f in s.reports :: f == e)
  }

  ghost predicate Enabled(s: State, step: Step) {
    match step
    case Acquire(t, into) => PlaceOf(s, t).Idle? && Entry(into) && s.used + Weight(into) <= CAPACITY
    case ReadPriority(t) =>
      PlaceOf(s, t).Checking? || PlaceOf(s, t).WorkerChecking? || PlaceOf(s, t).ExclusiveChecking?
    case Reserve(t, e) => (PlaceOf(s, t).Reserving? || PlaceOf(s, t).Operating?) && e !in s.reports
    case Settle(t, k) => MaySettle(s, PlaceOf(s, t), k)
    case CommitsElsewhere(k) => At(s.queues, k) != []
    case ObserveEmpty(t) => PlaceOf(s, t).ExclusiveDraining? && At(s.queues, s.current) == []
    case StartOperation(t) => PlaceOf(s, t).Drained?
    case Install(t, e, queue) =>
      && PlaceOf(s, t).Installing? && (s.report.None? || s.report == Some(e) || s.report.value in s.resolved)
      && if queue then NoPendingReport(s) && e !in s.reports else SolePendingReport(s, e)
    case QueueOnly(t, e) => PlaceOf(s, t).Installing? && NoPendingReport(s) && e !in s.reports
    case Complete(t) =>
      PlaceOf(s, t).Completing? && s.report == Some(PlaceOf(s, t).report) && PlaceOf(s, t).report in s.resolved
    case Leave(t) => !PlaceOf(s, t).Idle? && s.used >= Weight(PlaceOf(s, t))
  }

  function Go(s: State, t: Task, p: Place): State {
    s.(tasks := s.tasks[t := p])
  }

  function Release(s: State, t: Task): State {
    Go(s, t, Idle).(used := if s.used >= Weight(PlaceOf(s, t)) then s.used - Weight(PlaceOf(s, t)) else 0)
  }

  function Push(s: State, e: Event): State {
    s.(queues := s.queues[s.current := At(s.queues, s.current) + [e]])
  }

  function Pop(s: State, k: Scope): State
    requires At(s.queues, k) != []
  {
    s.(queues := s.queues[k := At(s.queues, k)[1..]], resolved := s.resolved + {At(s.queues, k)[0]})
  }

  /** What a task does after reading the installed report under its hold on the lane. */
  function AfterReading(s: State, t: Task): State {
    match PlaceOf(s, t)
    case Checking => if s.report.None? then Go(s, t, Reserving) else Release(s, t)
    case WorkerChecking =>
      if s.report.None? then Go(s, t, WorkerDraining)
      else if s.report.value in s.resolved then Release(s, t) else Go(s, t, WorkerReport(s.report.value))
    case _ =>
      if s.report.None? then Go(s, t, ExclusiveDraining)
      else if s.report.value in s.resolved then Release(s, t) else Go(s, t, ExclusiveReport(s.report.value))
  }

  ghost function Apply(s: State, step: Step): State
    requires Enabled(s, step)
  {
    match step
    case Acquire(t, into) => Go(s, t, into).(used := s.used + Weight(into))
    case ReadPriority(t) => AfterReading(s, t)
    case Reserve(t, e) => Push(s, e)
    case Settle(t, k) =>
      var u := Pop(s, k);
      if PlaceOf(s, t).WorkerReport? || PlaceOf(s, t).ExclusiveReport? then Release(u, t) else u
    case CommitsElsewhere(k) => Pop(s, k)
    case ObserveEmpty(t) => Go(s, t, Drained)
    case StartOperation(t) => Go(s, t, Operating)
    case Install(t, e, queue) =>
      var u := if queue then Push(s, e) else s;
      Release(u, t).(report := Some(e), installed := s.installed + {e}, reports := s.reports + {e})
    case QueueOnly(t, e) => Release(Push(s, e), t).(reports := s.reports + {e})
    case Complete(t) => Release(s, t).(report := None)
    case Leave(t) => Release(s, t)
  }

  ghost predicate Run(s: State, steps: seq<Step>, t: State)
    decreases |steps|
  {
    if steps == [] then s == t
    else Enabled(s, steps[0]) && Run(Apply(s, steps[0]), steps[1..], t)
  }

  predicate Start(s: State) {
    s.used == 0 && s.tasks == map[] && s.report.None? && s.installed == {}
  }

  // ---- the semaphore ----

  ghost function Sharers(tasks: map<Task, Place>): set<Task> {
    set t | t in tasks && HoldsShared(tasks[t])
  }

  ghost function Owners(tasks: map<Task, Place>): set<Task> {
    set t | t in tasks && HoldsExclusive(tasks[t])
  }

  /** The counter is the sum of the weights held and never exceeds the capacity. */
  ghost predicate Weighed(used: nat, tasks: map<Task, Place>) {
    used == |Sharers(tasks)| + CAPACITY * |Owners(tasks)| && used <= CAPACITY
  }

  lemma WeighedMove(used: nat, tasks: map<Task, Place>, t: Task, p: Place, v: nat)
    requires Weighed(used, tasks) && v <= CAPACITY
    requires v + Weight(if t in tasks then tasks[t] else Idle) == used + Weight(p)
    ensures Weighed(v, tasks[t := p])
  {
    SharersMove(tasks, t, p);
    OwnersMove(tasks, t, p);
    hide Sharers, Owners;
  }

  lemma SharersMove(tasks: map<Task, Place>, t: Task, p: Place)
    ensures |Sharers(tasks[t := p])| ==
            |Sharers(tasks)| + (if HoldsShared(p) then 1 else 0) - (if t in tasks && HoldsShared(tasks[t]) then 1 else 0)
  {
    hide HoldsShared;
    var shared := Sharers(tasks);
    assert Sharers(tasks[t := p]) == if HoldsShared(p) then shared + {t} else shared - {t};
    assert t in shared <==> t in tasks && HoldsShared(tasks[t]);
  }

  lemma OwnersMove(tasks: map<Task, Place>, t: Task, p: Place)
    ensures |Owners(tasks[t := p])| ==
            |Owners(tasks)| + (if HoldsExclusive(p) then 1 else 0) - (if t in tasks && HoldsExclusive(tasks[t]) then 1 else 0)
  {
    hide HoldsExclusive;
    var owned := Owners(tasks);
    assert Owners(tasks[t := p]) == if HoldsExclusive(p) then owned + {t} else owned - {t};
    assert t in owned <==> t in tasks && HoldsExclusive(tasks[t]);
  }

  lemma HeldWeight(used: nat, tasks: map<Task, Place>, t: Task)
    requires Weighed(used, tasks) && t in tasks
    ensures Weight(tasks[t]) <= used
  {
    if HoldsShared(tasks[t]) { assert t in Sharers(tasks); }
    if HoldsExclusive(tasks[t]) { assert t in Owners(tasks); }
  }

  /** The arithmetic of the semaphore excludes everyone else from an exclusive holder. */
  lemma ExclusiveAlone(used: nat, tasks: map<Task, Place>, t: Task, u: Task)
    requires Weighed(used, tasks) && t in tasks && u in tasks && HoldsExclusive(tasks[t]) && u != t
    ensures tasks[u].Idle?
  {
    var shared, owned := Sharers(tasks), Owners(tasks);
    assert t in owned;
    AtLeast(owned, t, u);
    assert u in shared ==> |shared| >= 1;
    assert HoldsShared(tasks[u]) ==> u in shared;
    assert HoldsExclusive(tasks[u]) ==> u in owned;
  }

  lemma AtLeast(s: set<Task>, t: Task, u: Task)
    requires t in s && t != u
    ensures |s| >= 1 && (u in s ==> |s| >= 2)
  {
    assert |s - {t}| == |s| - 1;
    assert u in s ==> u in s - {t};
  }

  // ---- the invariant ----

  /** Places that were entered only because no report was installed, or because of this one. */
  ghost predicate Faithful(p: Place, report: Option<Event>) {
    match p
    case Reserving => report.None?
    case WorkerDraining => report.None?
    case ExclusiveDraining => report.None?
    case Drained => report.None?
    case Operating => report.None?
    case WorkerReport(e) => report == Some(e)
    case ExclusiveReport(e) => report == Some(e)
    case _ => true
  }

  ghost predicate AllFaithful(tasks: map<Task, Place>, report: Option<Event>) {
    forall t | t in tasks :: Faithful(tasks[t], report)
  }

  /** A report once installed is either still installed or resolved. */
  ghost predicate Barred(report: Option<Event>, installed: set<Event>, resolved: set<Event>) {
    && (report.Some? ==> report.value in installed)
    && (forall e | e in installed :: report == Some(e) || e in resolved)
  }

  /** Between seeing this boot's queue empty and starting its operation, a task finds it still empty. */
  ghost predicate StillEmpty(tasks: map<Task, Place>, queue: seq<Event>) {
    forall t | t in tasks && tasks[t].Drained? :: queue == []
  }

  ghost predicate Inv(s: State) {
    && Weighed(s.used, s.tasks) && AllFaithful(s.tasks, s.report) && Barred(s.report, s.installed, s.resolved)
    && StillEmpty(s.tasks, At(s.queues, s.current))
  }

  lemma StartInv(s: State)
    requires Start(s)
    ensures Inv(s)
  {
    assert Sharers(s.tasks) == {} && Owners(s.tasks) == {};
  }

  lemma GoKeeps(s: State, t: Task, p: Place)
    requires Inv(s) && Weight(p) == Weight(PlaceOf(s, t)) && Faithful(p, s.report)
    requires p.Drained? ==> At(s.queues, s.current) == []
    ensures Inv(Go(s, t, p))
  {
    WeighedMove(s.used, s.tasks, t, p, s.used);
    hide Weighed, Barred;
  }

  lemma ReleaseKeeps(s: State, t: Task)
    requires Inv(s)
    ensures Inv(Release(s, t))
    ensures s.used >= Weight(PlaceOf(s, t))
  {
    if t in s.tasks { HeldWeight(s.used, s.tasks, t); }
    WeighedMove(s.used, s.tasks, t, Idle, s.used - Weight(PlaceOf(s, t)));
    hide Weighed, Barred;
  }

  lemma AcquireKeeps(s: State, t: Task, into: Place)
    requires Inv(s) && Enabled(s, Acquire(t, into))
    ensures Inv(Apply(s, Acquire(t, into)))
  {
    WeighedMove(s.used, s.tasks, t, into, s.used + Weight(into));
    hide Weighed, Barred;
  }

  /** Only the holder of the lane can add to this boot's queue, so it is not waiting to start. */
  lemma PushKeeps(s: State, t: Task, e: Event)
    requires Inv(s) && t in s.tasks && !s.tasks[t].Idle? && !s.tasks[t].Drained?
    ensures Inv(Push(s, e))
  {
    forall u | u in s.tasks ensures !s.tasks[u].Drained? {
      if s.tasks[u].Drained? { ExclusiveAlone(s.used, s.tasks, u, t); }
    }
    hide Weighed, AllFaithful, Barred;
  }

  lemma PopKeeps(s: State, k: Scope)
    requires Inv(s) && At(s.queues, k) != []
    ensures Inv(Pop(s, k))
  {
    hide Weighed, AllFaithful;
  }

  /** Installing and clearing happen only under the whole lane, when every other task is idle. */
  lemma ReportChanges(s: State, t: Task, u: State)
    requires Inv(s) && HoldsExclusive(PlaceOf(s, t))
    requires u == Release(s, t).(report := u.report, installed := u.installed, reports := u.reports) && Barred(u.report, u.installed, u.resolved)
    ensures Inv(u)
  {
    ReleaseKeeps(s, t);
    forall v | v in u.tasks ensures Faithful(u.tasks[v], u.report) {
      if v != t { ExclusiveAlone(s.used, s.tasks, t, v); }
    }
    hide Weighed, Barred;
  }

  lemma StepKeeps(s: State, step: Step)
    requires Inv(s) && Enabled(s, step)
    ensures Inv(Apply(s, step))
  {
    hide Weighed, AllFaithful, Barred, StillEmpty;
    match step
    case Acquire(t, into) => AcquireKeeps(s, t, into);
    case ReadPriority(t) => ReadKeeps(s, t);
    case Reserve(t, e) => PushKeeps(s, t, e);
    case Settle(t, k) =>
      PopKeeps(s, k);
      ReleaseKeeps(Pop(s, k), t);
    case CommitsElsewhere(k) => PopKeeps(s, k);
    case ObserveEmpty(t) =>
      FaithfulAt(s, t);
      GoKeeps(s, t, Drained);
    case StartOperation(t) =>
      FaithfulAt(s, t);
      GoKeeps(s, t, Operating);
    case Install(t, e, queue) => InstallKeeps(s, t, e, queue);
    case QueueOnly(t, e) =>
      PushKeeps(s, t, e);
      ReleaseKeeps(Push(s, e), t);
      RelabelKeeps(Release(Push(s, e), t), s.reports + {e});
    case Complete(t) => CompleteKeeps(s, t);
    case Leave(t) => ReleaseKeeps(s, t);
  }

  lemma RelabelKeeps(s: State, reports: set<Event>)
    requires Inv(s)
    ensures Inv(s.(reports := reports))
  {
  }

  lemma FaithfulAt(s: State, t: Task)
    requires Inv(s)
    ensures Faithful(PlaceOf(s, t), s.report)
  {
  }

  lemma ReadKeeps(s: State, t: Task)
    requires Inv(s) && Enabled(s, ReadPriority(t))
    ensures Inv(Apply(s, ReadPriority(t)))
  {
    hide Weighed, AllFaithful, Barred;
    ReleaseKeeps(s, t);
    var u := AfterReading(s, t);
    if u != Release(s, t) {
      GoKeeps(s, t, u.tasks[t]);
    }
  }

  lemma InstallKeeps(s: State, t: Task, e: Event, queue: bool)
    requires Inv(s) && Enabled(s, Install(t, e, queue))
    ensures Inv(Apply(s, Install(t, e, queue)))
  {
    var u := if queue then Push(s, e) else s;
    if queue { PushKeeps(s, t, e); }
    var v := Apply(s, Install(t, e, queue));
    assert Barred(v.report, v.installed, v.resolved);
    hide Weighed, AllFaithful, Barred;
    ReportChanges(u, t, v);
  }

  lemma CompleteKeeps(s: State, t: Task)
    requires Inv(s) && Enabled(s, Complete(t))
    ensures Inv(Apply(s, Complete(t)))
  {
    var v := Apply(s, Complete(t));
    assert Barred(v.report, v.installed, v.resolved);
    hide Weighed, AllFaithful, Barred;
    ReportChanges(s, t, v);
  }

  lemma {:induction false} RunKeeps(s: State, steps: seq<Step>, t: State)
    requires Inv(s) && Run(s, steps, t)
    ensures Inv(t)
    decreases |steps|
  {
    hide Inv, Enabled, Apply;
    if steps != [] {
      StepKeeps(s, steps[0]);
      RunKeeps(Apply(s, steps[0]), steps[1..], t);
    }
  }

  // ---- what the lane guarantees ----

  /** In every run: no boot-scope reservation is made while a version report is installed. */
  lemma NoReservationPastAReport(s: State, steps: seq<Step>, t: State, w: Task, e: Event)
    requires Start(s) && Run(s, steps, t) && Enabled(t, Reserve(w, e))
    ensures t.report.None?
  {
    StartInv(s);
    RunKeeps(s, steps, t);
    FaithfulAt(t, w);
    hide Run, Inv;
  }

  /** While a report is installed the lane forwards nothing but that report. */
  lemma OnlyTheReportIsForwarded(s: State, steps: seq<Step>, t: State, w: Task, k: Scope)
    requires Start(s) && Run(s, steps, t) && Enabled(t, Settle(w, k)) && t.report.Some?
    ensures At(t.queues, k)[0] == t.report.value
  {
    StartInv(s);
    RunKeeps(s, steps, t);
    FaithfulAt(t, w);
    hide Run, Inv;
  }

  /** An exclusive or ordered operation starts with no report and with this boot's queue still as empty as
      its task saw it, and every other task is off the lane. */
  lemma OperationStartsClean(s: State, steps: seq<Step>, t: State, w: Task)
    requires Start(s) && Run(s, steps, t) && Enabled(t, StartOperation(w))
    ensures t.report.None? && At(t.queues, t.current) == []
    ensures forall u | u in t.tasks && u != w :: t.tasks[u].Idle?
  {
    StartInv(s);
    RunKeeps(s, steps, t);
    FaithfulAt(t, w);
    forall u | u in t.tasks && u != w ensures t.tasks[u].Idle? { ExclusiveAlone(t.used, t.tasks, w, u); }
    hide Run, Inv;
  }

  /** The events an operation reserves in a run. */
  function Reserved(steps: seq<Step>, w: Task): seq<Event> {
    if steps == [] then []
    else (if steps[0].Reserve? && steps[0].t == w then [steps[0].e] else []) + Reserved(steps[1..], w)
  }

  /** How many commands of a scope commit without the lane in a run. */
  function Elsewhere(steps: seq<Step>, k: Scope): nat {
    if steps == [] then 0 else (if steps[0].CommitsElsewhere? && steps[0].k == k then 1 else 0) + Elsewhere(steps[1..], k)
  }

  /** A step taken while `w` operates is its own reservation or end, or a commit elsewhere; nobody else
      is on the lane. */
  lemma StepDuringOperation(s: State, step: Step, w: Task)
    requires Inv(s) && PlaceOf(s, w).Operating? && Enabled(s, step) && !step.CommitsElsewhere?
    ensures (step.Reserve? && step.t == w) || (step.Leave? && step.t == w)
  {
    var t := step.t;
    assert Weight(PlaceOf(s, w)) == CAPACITY;
    HeldWeight(s.used, s.tasks, w);
    if t != w && t in s.tasks { ExclusiveAlone(s.used, s.tasks, w, t); }
    hide Weighed, AllFaithful, Barred;
  }

  lemma DropPushed(q: seq<Event>, e: Event, more: seq<Event>, n: nat)
    requires n <= |q + [e] + more|
    ensures (q + [e] + more)[n..] == (q + ([e] + more))[n..]
  {
    assert q + [e] + more == q + ([e] + more);
  }

  lemma DropPopped(q: seq<Event>, more: seq<Event>, n: nat)
    requires q != [] && n <= |q[1..] + more|
    ensures (q[1..] + more)[n..] == (q + more)[n + 1..]
  {
    assert (q + more)[1..] == q[1..] + more;
  }

  /** What one step does to this boot's queue while `w` operates. */
  lemma QueueDuringOperation(s: State, step: Step, w: Task)
    requires Inv(s) && PlaceOf(s, w).Operating? && Enabled(s, step) && !(step.Leave? && step.t == w)
    ensures (step.Reserve? && step.t == w) || step.CommitsElsewhere?
    ensures var t := Apply(s, step);
      && PlaceOf(t, w).Operating? && t.current == s.current
      && var q, r := At(s.queues, s.current), At(t.queues, s.current);
      if step.Reserve? then r == q + [step.e]
      else if step.k == s.current then q != [] && r == q[1..] else r == q
  {
    if !step.CommitsElsewhere? { StepDuringOperation(s, step, w); }
    hide Inv;
  }

  /** From an operation's start until it leaves the lane, this boot's queue is what it was followed by
      exactly what the operation reserves, less what commits elsewhere at its head; no report is installed. */
  lemma {:induction false} OperationRunsAlone(s: State, steps: seq<Step>, t: State, w: Task)
    requires Inv(s) && PlaceOf(s, w).Operating? && Run(s, steps, t)
    requires forall i | 0 <= i < |steps| :: !(steps[i].Leave? && steps[i].t == w)
    ensures t.report.None? && t.current == s.current && PlaceOf(t, w).Operating?
    ensures Elsewhere(steps, s.current) <= |At(s.queues, s.current) + Reserved(steps, w)|
    ensures At(t.queues, s.current) == (At(s.queues, s.current) + Reserved(steps, w))[Elsewhere(steps, s.current)..]
    decreases |steps|
  {
    FaithfulAt(s, w);
    hide Inv, Enabled, Apply, At;
    var q := At(s.queues, s.current);
    if steps == [] {
      assert q + Reserved(steps, w) == q;
    } else {
      var step := steps[0];
      QueueDuringOperation(s, step, w);
      StepKeeps(s, step);
      OperationRunsAlone(Apply(s, step), steps[1..], t, w);
      var more, n := Reserved(steps[1..], w), Elsewhere(steps[1..], s.current);
      if step.CommitsElsewhere? {
        assert Reserved(steps, w) == more;
        if step.k == s.current { DropPopped(q, more, n); }
      } else {
        assert Reserved(steps, w) == [step.e] + more;
        DropPushed(q, step.e, more, n);
      }
    }
  }

  /** The barrier is released only for a resolved report: whatever was installed in a run is still
      installed or has been resolved. */
  lemma ReleasedOnlyWhenResolved(s: State, steps: seq<Step>, t: State, e: Event)
    requires Start(s) && Run(s, steps, t) && e in t.installed
    ensures t.report == Some(e) || e in t.resolved
  {
    StartInv(s);
    RunKeeps(s, steps, t);
    hide Run;
  }

  // ---- where an installed report stands ----

  /** While an installed report is unresolved and waits in queue `k`, a step neither adds to that queue nor replaces the
      report; what leaves the queue leaves at its head, and the lane takes nothing but the report. */
  lemma StepAroundReport(s: State, step: Step, e: Event, k: Scope)
    requires Inv(s) && Enabled(s, step) && s.report == Some(e) && e in s.reports && e in At(s.queues, k)
    requires e !in Apply(s, step).resolved
    ensures var t := Apply(s, step);
      && t.report == Some(e) && e in t.reports && e !in s.resolved
      && if step.CommitsElsewhere? && step.k == k then At(s.queues, k) != [] && At(t.queues, k) == At(s.queues, k)[1..]
         else At(t.queues, k) == At(s.queues, k)
  {
    assert !NoPendingReport(s);
    match step {
      case Acquire(t, _) =>
      case ReadPriority(t) =>
      case Reserve(t, _) => FaithfulAt(s, t);
      case Settle(t, j) => FaithfulAt(s, t);
      case CommitsElsewhere(_) =>
      case ObserveEmpty(_) =>
      case StartOperation(_) =>
      case Install(_, _, _) =>
      case QueueOnly(_, _) =>
      case Complete(_) =>
      case Leave(_) =>
    }
    hide Weighed, AllFaithful, Barred, StillEmpty;
  }

  lemma InDropped(q: seq<Event>, e: Event, r: seq<Event>, n: nat)
    requires n <= |q|
    ensures e in (q + [e] + r)[n..]
  {
    assert (q + [e] + r)[n..][|q| - n] == e;
  }

  /** An installed report keeps its place: until it is resolved, the queue it waits in is what it was, less what commits
      elsewhere at its head. In particular nothing is ever queued behind a report this boot reserved. */
  lemma {:induction false} ReportKeepsItsPlace(s: State, steps: seq<Step>, t: State, e: Event, k: Scope, q: seq<Event>, r: seq<Event>)
    requires Inv(s) && Run(s, steps, t) && s.report == Some(e) && e in s.reports
    requires At(s.queues, k) == q + [e] + r && e !in t.resolved
    ensures t.report == Some(e) && Elsewhere(steps, k) <= |q| && At(t.queues, k) == (q + [e] + r)[Elsewhere(steps, k)..]
    decreases |steps|
  {
    hide Inv, Enabled, Apply;
    if steps != [] {
      var step, u := steps[0], Apply(s, steps[0]);
      RunResolves(u, steps[1..], t);
      assert e in At(s.queues, k) by { InDropped(q, e, r, 0); }
      StepAroundReport(s, step, e, k);
      StepKeeps(s, step);
      if step.CommitsElsewhere? && step.k == k {
        assert q == [] ==> At(s.queues, k)[0] == e;
        HeadElsewhere(s, k);
        if q != [] {
          assert (q + [e] + r)[1..] == q[1..] + [e] + r;
          ReportKeepsItsPlace(u, steps[1..], t, e, k, q[1..], r);
          assert (q[1..] + [e] + r)[Elsewhere(steps[1..], k)..] == (q + [e] + r)[1 + Elsewhere(steps[1..], k)..];
        }
      } else {
        ReportKeepsItsPlace(u, steps[1..], t, e, k, q, r);
      }
    }
  }

  lemma HeadElsewhere(s: State, k: Scope)
    requires Enabled(s, CommitsElsewhere(k))
    ensures At(s.queues, k) != [] && At(s.queues, k)[0] in Apply(s, CommitsElsewhere(k)).resolved
  {
  }

  lemma StepResolves(s: State, step: Step)
    requires Enabled(s, step)
    ensures s.resolved <= Apply(s, step).resolved
  {
  }

  lemma {:induction false} RunResolves(s: State, steps: seq<Step>, t: State)
    requires Run(s, steps, t)
    ensures s.resolved <= t.resolved
    decreases |steps|
  {
    hide Enabled, Apply;
    if steps != [] {
      StepResolves(s, steps[0]);
      RunResolves(Apply(s, steps[0]), steps[1..], t);
    }
  }

  /** A task that drains the report can settle it in its queue exactly when everything that stood before it has committed
      elsewhere. */
  lemma ReportSettlesExactly(s: State, steps: seq<Step>, t: State, e: Event, k: Scope, q: seq<Event>, r: seq<Event>, w: Task)
    requires Inv(s) && Run(s, steps, t) && s.report == Some(e) && e in s.reports
    requires At(s.queues, k) == q + [e] + r && e !in q && e !in t.resolved
    requires PlaceOf(t, w) == WorkerReport(e) || PlaceOf(t, w) == ExclusiveReport(e)
    ensures Enabled(t, Settle(w, k)) <==> Elsewhere(steps, k) == |q|
  {
    ReportKeepsItsPlace(s, steps, t, e, k, q, r);
    var n := Elsewhere(steps, k);
    assert (q + [e] + r)[n..][0] == if n < |q| then q[n] else e;
    hide Inv, Run;
  }

  /** A report reserved behind commands of this boot is never forwarded by the lane, unless commits
      elsewhere clear its way first; reserved into an empty queue it always can be. */
  lemma ReservedReportSettlesExactly(s: State, v: Task, e: Event, steps: seq<Step>, t: State, w: Task)
    requires Inv(s) && Enabled(s, Install(v, e, true)) && e !in At(s.queues, s.current)
    requires Run(Apply(s, Install(v, e, true)), steps, t) && e !in t.resolved && Elsewhere(steps, s.current) == 0
    requires PlaceOf(t, w) == WorkerReport(e) || PlaceOf(t, w) == ExclusiveReport(e)
    ensures Enabled(t, Settle(w, s.current)) <==> At(s.queues, s.current) == []
    ensures At(t.queues, s.current) == At(s.queues, s.current) + [e]
  {
    var u := Apply(s, Install(v, e, true));
    var q := At(s.queues, s.current);
    StepKeeps(s, Install(v, e, true));
    assert At(u.queues, s.current) == q + [e] + [];
    ReportKeepsItsPlace(u, steps, t, e, s.current, q, []);
    ReportSettlesExactly(u, steps, t, e, s.current, q, [], w);
    hide Inv, Run;
    assert (q + [e] + [])[0..] == q + [e];
  }

  /** One command reserved under a shared hold. */
  lemma OneReserved(c: Event) returns (s: State, t: State)
    ensures Start(s) && Run(s, [Acquire(1, Checking), ReadPriority(1), Reserve(1, c), Leave(1)], t)
    ensures t == s.(tasks := map[1 := Idle], queues := map[0 := [c]]) && t.reports == {} && t.resolved == {} && t.current == 0
  {
    s := State(0, map[], None, map[], 0, {}, {}, {});
    var s1 := s.(used := 1, tasks := map[1 := Checking]);
    assert s1 == Apply(s, Acquire(1, Checking));
    var s2 := s1.(tasks := map[1 := Reserving]);
    assert s2 == Apply(s1, ReadPriority(1));
    var s3 := s2.(queues := map[0 := [c]]);
    assert s3 == Apply(s2, Reserve(1, c)) by { assert [] + [c] == [c]; }
    t := s.(tasks := map[1 := Idle], queues := map[0 := [c]]);
    assert t == Apply(s3, Leave(1));
    hide Apply, Enabled;
    assert Run(t, [], t);
    RunOne(s3, Leave(1), [], t);
    RunOne(s2, Reserve(1, c), [Leave(1)], t);
    RunOne(s1, ReadPriority(1), [Reserve(1, c), Leave(1)], t);
    RunOne(s, Acquire(1, Checking), [ReadPriority(1), Reserve(1, c), Leave(1)], t);
    assert [Acquire(1, Checking)] + [ReadPriority(1), Reserve(1, c), Leave(1)] == [Acquire(1, Checking), ReadPriority(1), Reserve(1, c), Leave(1)];
  }

  lemma ReportReserved(s: State, c: Event, e: Event) returns (t: State)
    requires s.used == 0 && s.tasks == map[1 := Idle] && s.queues == map[0 := [c]] && s.current == 0 && s.reports == {} && s.report.None?
    ensures Run(s, [Acquire(2, Installing), Install(2, e, true)], t)
    ensures t.report == Some(e) && At(t.queues, t.current) == [c, e] && t.resolved == s.resolved
  {
    var s1 := Apply(s, Acquire(2, Installing));
    assert NoPendingReport(s1);
    t := Apply(s1, Install(2, e, true));
    assert At(t.queues, 0) == [c] + [e];
    hide Apply, Enabled;
    assert Run(t, [], t);
    RunOne(s1, Install(2, e, true), [], t);
    RunOne(s, Acquire(2, Installing), [Install(2, e, true)], t);
    assert [Acquire(2, Installing)] + [Install(2, e, true)] == [Acquire(2, Installing), Install(2, e, true)];
  }

  /** Such a report is reserved in ordinary runs: a command is reserved and not yet forwarded when a report is. */
  lemma ReportBehindACommand(c: Event, e: Event) returns (s: State, steps: seq<Step>, t: State)
    ensures Start(s) && Run(s, steps, t) && t.report == Some(e) && e !in t.resolved && At(t.queues, t.current) == [c, e]
  {
    var u;
    s, u := OneReserved(c);
    t := ReportReserved(u, c, e);
    hide Start;
    var first, second := [Acquire(1, Checking), ReadPriority(1), Reserve(1, c), Leave(1)], [Acquire(2, Installing), Install(2, e, true)];
    RunsJoin(s, first, u, second, t);
    steps := first + second;
  }

  lemma {:induction false} RunsJoin(s: State, a: seq<Step>, t: State, b: seq<Step>, u: State)
    requires Run(s, a, t) && Run(t, b, u)
    ensures Run(s, a + b, u)
    decreases |a|
  {
    hide Enabled, Apply;
    if a == [] {
      assert a + b == b;
    } else {
      RunsJoin(Apply(s, a[0]), a[1..], t, b, u);
      assert (a + b)[1..] == a[1..] + b;
    }
  }

  lemma RunOne(s: State, step: Step, rest: seq<Step>, t: State)
    requires Enabled(s, step) && Run(Apply(s, step), rest, t)
    ensures Run(s, [step] + rest, t)
  {
    hide Enabled, Apply;
    assert ([step] + rest)[1..] == rest;
  }

  /** The semaphore's counter never exceeds its capacity and never goes below zero. */
  lemma LaneNeverOverflows(s: State, steps: seq<Step>, t: State, w: Task)
    requires Start(s) && Run(s, steps, t)
    ensures t.used <= CAPACITY && (Weight(PlaceOf(t, w)) > 0 ==> t.used >= Weight(PlaceOf(t, w)))
    ensures |Owners(t.tasks)| <= 1 && (Owners(t.tasks) != {} ==> Sharers(t.tasks) == {})
  {
    StartInv(s);
    RunKeeps(s, steps, t);
    if w in t.tasks { HeldWeight(t.used, t.tasks, w); }
    hide Run;
  }
}
