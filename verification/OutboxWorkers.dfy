/** The wake and retire protocol of internal/agent/worker.go. One worker goroutine drains the durable
    queue of one origin scope; wakes are coalesced in a one-place channel. */
module OutboxWorkers {
  import opened Wrappers

  type Scope = nat

  type Command = nat

  type WorkerId = nat

  /** Where a worker's goroutine stands. `Seen` has observed an empty queue and is about to
      consume a wake or retire; `Leaving` has decided to exit. */
  datatype Place = Waiting | Draining(held: Option<Command>) | Seen | Leaving | Gone

  datatype Worker = Worker(scope: Scope, token: bool, place: Place)

  /** `agents` is the service's map of workers; `all` holds every goroutine ever started; `submitted` the commands
      that some apply call has handed to consensus, whatever that call returned. `settled` lists what has left a queue, and
      `dropped` what of it was abandoned for a collision instead of committed. */
  datatype State = State(
    agents: map<Scope, WorkerId>,
    all: map<WorkerId, Worker>,
    queue: map<Scope, seq<Command>>,
    woken: set<(Scope, Command)>,
    accepted: map<Scope, seq<Command>>,
    settled: map<Scope, seq<Command>>,
    submitted: set<(Scope, Command)>,
    dropped: set<(Scope, Command)>,
    pairing: set<Command>,
    closed: bool,
    fatal: bool)

  function At<T>(m: map<Scope, seq<T>>, k: Scope): seq<T> {
    if k in m then m[k] else []
  }

  function Pairs(k: Scope, cs: seq<Command>): set<(Scope, Command)> {
    set c | c in cs :: (k, c)
  }

  predicate Active(w: Worker) {
    w.place.Waiting? || w.place.Draining? || w.place.Seen?
  }

  // ---- critical sections under the service lock ----

  /** wakeScope: start a worker when none is mapped, and leave a token with the mapped one. */
  function Wake(agents: map<Scope, WorkerId>, all: map<WorkerId, Worker>, closed: bool, k: Scope, added: WorkerId)
    : (map<Scope, WorkerId>, map<WorkerId, Worker>)
    requires k in agents ==> agents[k] in all
  {
    if closed then (agents, all)
    else if k in agents then (agents, all[agents[k] := all[agents[k]].(token := true)])
    else (agents[k := added], all[added := Worker(k, true, Waiting)])
  }

  /** consumeWakeOrRetire: keep going on a token, otherwise leave the map under the same lock. */
  function ConsumeOrRetire(agents: map<Scope, WorkerId>, all: map<WorkerId, Worker>, id: WorkerId)
    : (map<Scope, WorkerId>, map<WorkerId, Worker>)
    requires id in all
  {
    var w := all[id];
    if !(w.scope in agents && agents[w.scope] == id) then (agents, all[id := w.(place := Leaving)])
    else if w.token then (agents, all[id := w.(token := false, place := Draining(None))])
    else (agents - {w.scope}, all[id := w.(place := Leaving)])
  }

  /** remove: only the mapped worker takes its own entry away. */
  function Remove(agents: map<Scope, WorkerId>, all: map<WorkerId, Worker>, id: WorkerId)
    : (map<Scope, WorkerId>, map<WorkerId, Worker>)
    requires id in all
  {
    var w := all[id];
    (if w.scope in agents && agents[w.scope] == id then agents - {w.scope} else agents, all[id := w.(place := Gone)])
  }

  // ---- steps ----

  datatype Step =
    | Enqueue(k: Scope, c: Command)
    | WakeScope(k: Scope, added: WorkerId)
    | Receive(id: WorkerId)
    | Cancelled(id: WorkerId)
    | Claim(id: WorkerId)
    | Submit(id: WorkerId)
    | Commit(k: Scope, c: Command)
    | Resolved(id: WorkerId)
    | Abandon(id: WorkerId)
    | Retry(id: WorkerId)
    | PairingSettles(k: Scope)
    | ObserveEmpty(id: WorkerId)
    | DrainFails(id: WorkerId)
    | Decide(id: WorkerId)
    | Exit(id: WorkerId)
    | Close

  predicate Holds(w: Worker) {
    w.place.Draining? && w.place.held.Some?
  }

  /** A submitted command may commit at any later time, also when its apply call has failed and nobody holds it. */
  predicate Enabled(s: State, step: Step) {
    match step
    case Enqueue(k, c) => c !in At(s.accepted, k)
    case WakeScope(k, added) => added !in s.all && (k in s.agents ==> s.agents[k] in s.all)
    case Receive(id) => id in s.all && s.all[id].place.Waiting? && s.all[id].token
    case Cancelled(id) => id in s.all && (s.closed || s.fatal) && (s.all[id].place.Waiting? || s.all[id].place.Draining?)
    case Claim(id) => id in s.all && s.all[id].place == Draining(None) && At(s.queue, s.all[id].scope) != []
    case Submit(id) => id in s.all && Holds(s.all[id])
    case Commit(k, c) => (k, c) in s.submitted && c in At(s.queue, k)
    case Resolved(id) => id in s.all && Holds(s.all[id]) && s.all[id].place.held.value !in At(s.queue, s.all[id].scope)
    case Abandon(id) => id in s.all && Holds(s.all[id]) && s.all[id].place.held.value in At(s.queue, s.all[id].scope)
    case Retry(id) => id in s.all && s.all[id].place.Draining?
    case PairingSettles(k) => At(s.queue, k) != [] && At(s.queue, k)[0] in s.pairing
    case ObserveEmpty(id) => id in s.all && s.all[id].place == Draining(None) && At(s.queue, s.all[id].scope) == []
    case DrainFails(id) => id in s.all && s.all[id].place.Draining?
    case Decide(id) => id in s.all && s.all[id].place.Seen?
    case Exit(id) => id in s.all && s.all[id].place.Leaving?
    case Close => true
  }

  function Move(s: State, id: WorkerId, place: Place): State
    requires id in s.all
  {
    s.(all := s.all[id := s.all[id].(place := place)])
  }

  function Without(q: seq<Command>, c: Command): seq<Command> {
    if q == [] then [] else if q[0] == c then q[1..] else [q[0]] + Without(q[1..], c)
  }

  /** Takes a command out of its queue, wherever it stands, and remembers it. */
  function Settle(s: State, k: Scope, c: Command): State {
    s.(queue := s.queue[k := Without(At(s.queue, k), c)], settled := s.settled[k := At(s.settled, k) + [c]])
  }

  /** A collision that was not resolved in time takes the command out of its queue and fails the service; one
      that finds the command committed is the step `Resolved`. */
  function Dropped(s: State, id: WorkerId): State
    requires id in s.all && Holds(s.all[id])
  {
    var k, c := s.all[id].scope, s.all[id].place.held.value;
    Settle(Move(s, id, Leaving).(fatal := true), k, c).(dropped := s.dropped + {(k, c)})
  }

  function Apply(s: State, step: Step): State
    requires Enabled(s, step)
  {
    match step
    case Enqueue(k, c) =>
      s.(queue := s.queue[k := At(s.queue, k) + [c]], accepted := s.accepted[k := At(s.accepted, k) + [c]])
    case WakeScope(k, added) =>
      var (agents, all) := Wake(s.agents, s.all, s.closed, k, added);
      s.(agents := agents, all := all, woken := s.woken + Pairs(k, At(s.queue, k)))
    case Receive(id) => s.(all := s.all[id := s.all[id].(token := false, place := Draining(None))])
    case Cancelled(id) => Move(s, id, Leaving)
    case Claim(id) =>
      var c := At(s.queue, s.all[id].scope)[0];
      if c in s.pairing then s else Move(s, id, Draining(Some(c)))
    case Submit(id) => s.(submitted := s.submitted + {(s.all[id].scope, s.all[id].place.held.value)})
    case Commit(k, c) => Settle(s, k, c)
    case Resolved(id) => Move(s, id, Draining(None))
    case Abandon(id) => Dropped(s, id)
    case Retry(id) => Move(s, id, Draining(None))
    case PairingSettles(k) => Settle(s, k, At(s.queue, k)[0])
    case ObserveEmpty(id) => Move(s, id, Seen)
    case DrainFails(id) => Move(s, id, Leaving).(fatal := true)
    case Decide(id) =>
      var (agents, all) := ConsumeOrRetire(s.agents, s.all, id);
      s.(agents := agents, all := all)
    case Exit(id) =>
      var (agents, all) := Remove(s.agents, s.all, id);
      s.(agents := agents, all := all)
    case Close => s.(closed := true)
  }

  predicate Run(s: State, steps: seq<Step>, t: State)
    decreases |steps|
  {
    if steps == [] then s == t
    else Enabled(s, steps[0]) && Run(Apply(s, steps[0]), steps[1..], t)
  }

  predicate Start(s: State) {
    && s.agents == map[] && s.all == map[] && s.settled == map[] && s.woken == {} && s.submitted == {} && s.dropped == {}
    && s.queue == s.accepted && !s.closed && !s.fatal
    && (forall k | k in s.accepted :: forall i, j | 0 <= i < j < |s.accepted[k]| :: s.accepted[k][i] != s.accepted[k][j])
  }

  // ---- invariants ----

  /** Map entries point at workers of their scope, and every worker that may still drain is mapped. */
  ghost predicate Registered(agents: map<Scope, WorkerId>, all: map<WorkerId, Worker>) {
    && (forall k | k in agents :: agents[k] in all && all[agents[k]].scope == k)
    && (forall id | id in all && Active(all[id]) :: all[id].scope in agents && agents[all[id].scope] == id)
    && (forall id | id in all && all[id].place.Waiting? :: all[id].token)
  }

  /** While the service is healthy no mapped worker has decided to leave. */
  ghost predicate Staffed(agents: map<Scope, WorkerId>, all: map<WorkerId, Worker>) {
    forall k | k in agents :: agents[k] in all && Active(all[agents[k]])
  }

  /** A woken command still queued has a mapped worker that holds a token or is draining. */
  ghost predicate NoLostWake(s: State) {
    forall k, c | c in At(s.queue, k) && (k, c) in s.woken ::
      && k in s.agents && s.agents[k] in s.all
      && (s.all[s.agents[k]].token || s.all[s.agents[k]].place.Draining?)
  }

  /** A command that is held or has been submitted is the head of its queue or settled. */
  ghost predicate HeadOrSettled(s: State, k: Scope, c: Command) {
    c in At(s.settled, k) || (At(s.queue, k) != [] && At(s.queue, k)[0] == c)
  }

  ghost predicate OnlyHeads(s: State) {
    && (forall id | id in s.all && Holds(s.all[id]) :: HeadOrSettled(s, s.all[id].scope, s.all[id].place.held.value))
    && (forall k, c | (k, c) in s.submitted :: HeadOrSettled(s, k, c))
  }

  /** No scope accepts a command twice. */
  ghost predicate Distinct(accepted: map<Scope, seq<Command>>) {
    forall k, i, j | 0 <= i < j < |At(accepted, k)| :: At(accepted, k)[i] != At(accepted, k)[j]
  }

  /** Every queue is settled in order, each command once. */
  ghost predicate InOrder(accepted: map<Scope, seq<Command>>, settled: map<Scope, seq<Command>>, queue: map<Scope, seq<Command>>) {
    forall k {:trigger At(accepted, k)} :: At(accepted, k) == At(settled, k) + At(queue, k)
  }

  ghost predicate Inv(s: State) {
    && Registered(s.agents, s.all)
    && OnlyHeads(s)
    && Distinct(s.accepted)
    && InOrder(s.accepted, s.settled, s.queue)
    && (!s.closed && !s.fatal ==> Staffed(s.agents, s.all) && NoLostWake(s))
  }

  lemma StartInv(s: State)
    requires Start(s)
    ensures Inv(s)
  {
    forall k ensures At(s.accepted, k) == At(s.settled, k) + At(s.queue, k) {}
  }

  // ---- queues ----

  lemma {:induction false} EnqueueOrder(s: State, k: Scope, c: Command)
    requires InOrder(s.accepted, s.settled, s.queue)
    ensures InOrder(s.accepted[k := At(s.accepted, k) + [c]], s.settled, s.queue[k := At(s.queue, k) + [c]])
  {
    var a, q := s.accepted[k := At(s.accepted, k) + [c]], s.queue[k := At(s.queue, k) + [c]];
    forall j ensures At(a, j) == At(s.settled, j) + At(q, j) {
      assert At(s.accepted, j) == At(s.settled, j) + At(s.queue, j);
    }
  }

  lemma SettleOrder(s: State, k: Scope, c: Command)
    requires InOrder(s.accepted, s.settled, s.queue) && At(s.queue, k) != [] && At(s.queue, k)[0] == c
    ensures var t := Settle(s, k, c); InOrder(t.accepted, t.settled, t.queue)
  {
    var t := Settle(s, k, c);
    var q, d := At(s.queue, k), At(s.settled, k);
    SettledAt(s, k, c);
    hide Settle, Without, At;
    forall j ensures At(t.accepted, j) == At(t.settled, j) + At(t.queue, j) {
      assert At(s.accepted, j) == At(s.settled, j) + At(s.queue, j);
      if j == k { assert d + ([c] + q[1..]) == (d + [c]) + q[1..] && q == [c] + q[1..]; }
    }
  }

  lemma SettledAt(s: State, k: Scope, c: Command)
    requires At(s.queue, k) != [] && At(s.queue, k)[0] == c
    ensures var t := Settle(s, k, c);
      && t.accepted == s.accepted && At(t.queue, k) == At(s.queue, k)[1..] && At(t.settled, k) == At(s.settled, k) + [c]
      && forall j | j != k :: At(t.queue, j) == At(s.queue, j) && At(t.settled, j) == At(s.settled, j)
  {
  }

  /** A settled command is in its queue no more. */
  lemma SettledIsGone(s: State, k: Scope, c: Command)
    requires InOrder(s.accepted, s.settled, s.queue) && Distinct(s.accepted) && c in At(s.settled, k)
    ensures c !in At(s.queue, k)
  {
    var a, d, q := At(s.accepted, k), At(s.settled, k), At(s.queue, k);
    assert a == d + q;
    var i :| 0 <= i < |d| && d[i] == c;
    assert a[i] == c;
    forall j | 0 <= j < |q| ensures q[j] != c { assert a[|d| + j] == q[j]; }
  }

  lemma EnqueueDistinct(accepted: map<Scope, seq<Command>>, k: Scope, c: Command)
    requires Distinct(accepted) && c !in At(accepted, k)
    ensures Distinct(accepted[k := At(accepted, k) + [c]])
  {
    var a := accepted[k := At(accepted, k) + [c]];
    forall m, i, j | 0 <= i < j < |At(a, m)| ensures At(a, m)[i] != At(a, m)[j] {
      if m != k { assert At(a, m) == At(accepted, m); }
    }
  }

  lemma EnqueueKeeps(s: State, k: Scope, c: Command)
    requires Inv(s) && Enabled(s, Enqueue(k, c)) && WokenAccepted(s)
    ensures Inv(Apply(s, Enqueue(k, c)))
  {
    hide InOrder, Registered, Staffed, Distinct;
    EnqueueOrder(s, k, c);
    EnqueueDistinct(s.accepted, k, c);
    var t := Apply(s, Enqueue(k, c));
    assert (k, c) !in s.woken;
    assert forall j | j != k :: At(t.queue, j) == At(s.queue, j);
    assert At(t.queue, k) == At(s.queue, k) + [c];
    assert NoLostWake(s) ==> NoLostWake(t);
  }

  /** Only accepted commands have been woken. */
  ghost predicate WokenAccepted(s: State) {
    forall k, c | (k, c) in s.woken :: c in At(s.accepted, k)
  }

  lemma WokenKeeps(s: State, step: Step)
    requires Enabled(s, step) && WokenAccepted(s) && InOrder(s.accepted, s.settled, s.queue)
    ensures WokenAccepted(Apply(s, step))
  {
    var t := Apply(s, step);
    match step
    case Enqueue(k, c) =>
      forall j, d | (j, d) in t.woken ensures d in At(t.accepted, j) {}
    case WakeScope(k, _) =>
      forall j, d | (j, d) in t.woken ensures d in At(t.accepted, j) {
        if (j, d) !in s.woken { assert At(s.accepted, j) == At(s.settled, j) + At(s.queue, j); }
      }
    case _ =>
      assert t.woken == s.woken && t.accepted == s.accepted;
  }

  // ---- one worker changes ----

  /** A worker that stays active, or leaves only when the service is unhealthy, moves. */
  lemma MoveRegistered(agents: map<Scope, WorkerId>, all: map<WorkerId, Worker>, id: WorkerId, w: Worker)
    requires Registered(agents, all) && id in all && w.scope == all[id].scope
    requires Active(w) ==> Active(all[id])
    requires w.place.Waiting? ==> w.token
    ensures Registered(agents, all[id := w])
    ensures Staffed(agents, all) && Active(w) ==> Staffed(agents, all[id := w])
  {
  }

  lemma MoveWake(s: State, t: State, id: WorkerId, w: Worker)
    requires t == s.(all := s.all[id := w]) && id in s.all && w.scope == s.all[id].scope && NoLostWake(s)
    requires w.token || w.place.Draining? || (forall c | c in At(s.queue, w.scope) :: (w.scope, c) !in s.woken)
    requires Registered(s.agents, s.all)
    ensures NoLostWake(t)
  {
  }

  lemma MoveHead(s: State, t: State, id: WorkerId, w: Worker)
    requires t == s.(all := s.all[id := w], fatal := t.fatal) && OnlyHeads(s)
    requires Holds(w) ==> HeadOrSettled(s, w.scope, w.place.held.value)
    ensures OnlyHeads(t)
  {
    assert forall k, c :: HeadOrSettled(t, k, c) <==> HeadOrSettled(s, k, c);
    hide HeadOrSettled;
  }

  lemma ReceiveKeeps(s: State, id: WorkerId, w: Worker, t: State)
    requires Inv(s) && id in s.all && w.scope == s.all[id].scope && t == s.(all := s.all[id := w])
    requires Active(w) && Active(s.all[id]) && (w.place.Waiting? ==> w.token)
    requires w.token || w.place.Draining? || (forall c | c in At(s.queue, w.scope) :: (w.scope, c) !in s.woken)
    requires Holds(w) ==> HeadOrSettled(s, w.scope, w.place.held.value)
    ensures Inv(t)
  {
    hide InOrder, Registered, Staffed, NoLostWake, OnlyHeads, Active, HeadOrSettled, Distinct;
    MoveRegistered(s.agents, s.all, id, w);
    MoveHead(s, t, id, w);
    if !s.closed && !s.fatal { MoveWake(s, t, id, w); }
  }

  lemma LeaveKeeps(s: State, id: WorkerId, t: State)
    requires Inv(s) && id in s.all && t == s.(all := s.all[id := s.all[id].(place := Leaving)], fatal := t.fatal)
    requires t.closed || t.fatal
    ensures Inv(t)
  {
    hide InOrder, Registered, Staffed, NoLostWake, OnlyHeads, Distinct;
    var w := s.all[id].(place := Leaving);
    MoveRegistered(s.agents, s.all, id, w);
    MoveHead(s, t, id, w);
  }

  /** Steps that touch neither queues nor what is held or submitted. */
  lemma HeadsFrame(s: State, t: State)
    requires OnlyHeads(s) && t.queue == s.queue && t.settled == s.settled && t.submitted == s.submitted
    requires forall id | id in t.all && Holds(t.all[id]) ::
               id in s.all && t.all[id].scope == s.all[id].scope && t.all[id].place == s.all[id].place
    ensures OnlyHeads(t)
  {
    assert forall k, c :: HeadOrSettled(t, k, c) <==> HeadOrSettled(s, k, c);
    hide HeadOrSettled;
  }

  // ---- waking ----

  lemma WakeRegistered(agents: map<Scope, WorkerId>, all: map<WorkerId, Worker>, k: Scope, added: WorkerId)
    requires Registered(agents, all) && added !in all
    ensures var (a, w) := Wake(agents, all, false, k, added);
      && Registered(a, w) && (Staffed(agents, all) ==> Staffed(a, w))
      && k in a && a[k] in w && w[a[k]].token
      && (forall j | j in agents && j != k :: j in a && a[j] == agents[j] && w[a[j]] == all[a[j]])
  {
  }

  lemma WakeKeeps(s: State, k: Scope, added: WorkerId)
    requires Inv(s) && Enabled(s, WakeScope(k, added))
    ensures Inv(Apply(s, WakeScope(k, added)))
  {
    var t := Apply(s, WakeScope(k, added));
    HeadsFrame(s, t);
    if !s.closed {
      WakeRegistered(s.agents, s.all, k, added);
      hide InOrder, Registered, Staffed, OnlyHeads, Distinct, Wake;
      if !s.fatal {
        forall j, c | c in At(t.queue, j) && (j, c) in t.woken
          ensures j in t.agents && t.agents[j] in t.all && (t.all[t.agents[j]].token || t.all[t.agents[j]].place.Draining?)
        {
          if j != k { assert (j, c) in s.woken; }
        }
      }
    }
    hide InOrder, Registered, Staffed, OnlyHeads, Distinct, NoLostWake;
  }

  // ---- deciding and leaving ----

  lemma RetireRegistered(agents: map<Scope, WorkerId>, all: map<WorkerId, Worker>, id: WorkerId)
    requires Registered(agents, all) && id in all && Active(all[id]) && !all[id].token
    ensures var (a, w) := ConsumeOrRetire(agents, all, id);
      && a == agents - {all[id].scope} && w == all[id := all[id].(place := Leaving)]
      && Registered(a, w) && (Staffed(agents, all) ==> Staffed(a, w))
  {
  }

  lemma DecideKeeps(s: State, id: WorkerId)
    requires Inv(s) && Enabled(s, Decide(id))
    ensures Inv(Apply(s, Decide(id)))
  {
    var w := s.all[id];
    var t := Apply(s, Decide(id));
    assert w.scope in s.agents && s.agents[w.scope] == id;
    if w.token {
      hide Inv;
      ReceiveKeeps(s, id, w.(token := false, place := Draining(None)), t);
    } else {
      RetireRegistered(s.agents, s.all, id);
      hide InOrder, Registered, Staffed, Distinct, ConsumeOrRetire;
      HeadsFrame(s, t);
      hide OnlyHeads;
      if !s.closed && !s.fatal {
        forall j, c | c in At(t.queue, j) && (j, c) in t.woken
          ensures j in t.agents && t.agents[j] in t.all && (t.all[t.agents[j]].token || t.all[t.agents[j]].place.Draining?)
        {
          assert j != w.scope;
        }
      }
    }
  }

  lemma RemoveRegistered(agents: map<Scope, WorkerId>, all: map<WorkerId, Worker>, id: WorkerId)
    requires Registered(agents, all) && id in all && all[id].place.Leaving?
    ensures var (a, w) := Remove(agents, all, id);
      && Registered(a, w) && w == all[id := all[id].(place := Gone)]
      && (Staffed(agents, all) ==> a == agents && Staffed(a, w))
  {
  }

  lemma ExitKeeps(s: State, id: WorkerId)
    requires Inv(s) && Enabled(s, Exit(id))
    ensures Inv(Apply(s, Exit(id)))
  {
    var t := Apply(s, Exit(id));
    RemoveRegistered(s.agents, s.all, id);
    hide InOrder, Registered, Distinct, Remove;
    HeadsFrame(s, t);
    hide OnlyHeads;
  }

  // ---- settling ----

  /** Settling a head leaves every held or submitted command a head or settled. */
  lemma SettleHeads(s: State, k: Scope, c: Command)
    requires OnlyHeads(s) && At(s.queue, k) != [] && At(s.queue, k)[0] == c
    ensures OnlyHeads(Settle(s, k, c))
  {
    var t := Settle(s, k, c);
    forall j, d | HeadOrSettled(s, j, d) ensures HeadOrSettled(t, j, d) {
      if j != k { assert At(t.queue, j) == At(s.queue, j) && At(t.settled, j) == At(s.settled, j); }
    }
    hide HeadOrSettled;
  }

  lemma SettleWakes(s: State, k: Scope, c: Command)
    requires NoLostWake(s) && At(s.queue, k) != [] && At(s.queue, k)[0] == c
    ensures NoLostWake(Settle(s, k, c))
  {
    var t := Settle(s, k, c);
    assert At(t.queue, k) == At(s.queue, k)[1..];
    assert forall j | j != k :: At(t.queue, j) == At(s.queue, j);
  }

  lemma SettleHeadKeeps(s: State, k: Scope, c: Command)
    requires Inv(s) && At(s.queue, k) != [] && At(s.queue, k)[0] == c
    ensures Inv(Settle(s, k, c))
  {
    SettleOrder(s, k, c);
    SettleHeads(s, k, c);
    if !s.closed && !s.fatal { SettleWakes(s, k, c); }
    hide InOrder, Registered, Staffed, NoLostWake, OnlyHeads, Distinct;
  }

  /** Whatever commits, commits at the head of its queue. */
  lemma CommitKeeps(s: State, k: Scope, c: Command)
    requires Inv(s) && Enabled(s, Commit(k, c))
    ensures Inv(Apply(s, Commit(k, c)))
  {
    assert HeadOrSettled(s, k, c);
    if c in At(s.settled, k) { SettledIsGone(s, k, c); }
    hide Inv;
    SettleHeadKeeps(s, k, c);
  }

  lemma AbandonKeeps(s: State, id: WorkerId)
    requires Inv(s) && Enabled(s, Abandon(id))
    ensures Inv(Apply(s, Abandon(id))) && Apply(s, Abandon(id)).fatal
  {
    var w := s.all[id];
    var c := w.place.held.value;
    assert HeadOrSettled(s, w.scope, c);
    if c in At(s.settled, w.scope) { SettledIsGone(s, w.scope, c); }
    var u := Move(s, id, Leaving).(fatal := true);
    LeaveKeeps(s, id, u);
    hide Inv;
    SettleHeadKeeps(u, w.scope, c);
    DroppedKeeps(Settle(u, w.scope, c), s.dropped + {(w.scope, c)});
  }

  lemma DroppedKeeps(s: State, dropped: set<(Scope, Command)>)
    requires Inv(s)
    ensures Inv(s.(dropped := dropped))
  {
    var t := s.(dropped := dropped);
    assert forall k, c :: HeadOrSettled(t, k, c) <==> HeadOrSettled(s, k, c);
    assert OnlyHeads(t);
    hide InOrder, Registered, Staffed, OnlyHeads, Distinct;
    assert NoLostWake(s) ==> NoLostWake(t);
  }

  lemma StepDrops(s: State, step: Step)
    requires Enabled(s, step) && (s.dropped != {} ==> s.fatal)
    ensures Apply(s, step).dropped != {} ==> Apply(s, step).fatal
  {
    hide Wake, ConsumeOrRetire, Remove, Without;
  }

  lemma {:induction false} RunDrops(s: State, steps: seq<Step>, t: State)
    requires Run(s, steps, t) && (s.dropped != {} ==> s.fatal)
    ensures t.dropped != {} ==> t.fatal
    decreases |steps|
  {
    hide Enabled, Apply;
    if steps != [] {
      StepDrops(s, steps[0]);
      RunDrops(Apply(s, steps[0]), steps[1..], t);
    }
  }

  lemma SubmitKeeps(s: State, id: WorkerId)
    requires Inv(s) && Enabled(s, Submit(id))
    ensures Inv(Apply(s, Submit(id)))
  {
    var t := Apply(s, Submit(id));
    assert forall k, c :: HeadOrSettled(t, k, c) <==> HeadOrSettled(s, k, c);
    assert OnlyHeads(t);
    hide InOrder, Registered, Staffed, OnlyHeads, Distinct;
    assert NoLostWake(s) ==> NoLostWake(t);
  }

  lemma StepKeeps(s: State, step: Step)
    requires Inv(s) && WokenAccepted(s) && Enabled(s, step)
    ensures Inv(Apply(s, step)) && WokenAccepted(Apply(s, step))
  {
    WokenKeeps(s, step);
    hide InOrder, Registered, Staffed, NoLostWake, OnlyHeads, WokenAccepted;
    match step
    case Enqueue(k, c) => EnqueueKeeps(s, k, c);
    case WakeScope(k, added) => WakeKeeps(s, k, added);
    case Receive(id) => ReceiveKeeps(s, id, s.all[id].(token := false, place := Draining(None)), Apply(s, step));
    case Cancelled(id) => LeaveKeeps(s, id, Apply(s, step));
    case Claim(id) =>
      if At(s.queue, s.all[id].scope)[0] !in s.pairing {
        ReceiveKeeps(s, id, s.all[id].(place := Draining(Some(At(s.queue, s.all[id].scope)[0]))), Apply(s, step));
      }
    case Submit(id) => SubmitKeeps(s, id);
    case Commit(k, c) => CommitKeeps(s, k, c);
    case Resolved(id) => ReceiveKeeps(s, id, s.all[id].(place := Draining(None)), Apply(s, step));
    case Abandon(id) => AbandonKeeps(s, id);
    case Retry(id) => ReceiveKeeps(s, id, s.all[id].(place := Draining(None)), Apply(s, step));
    case PairingSettles(k) => SettleHeadKeeps(s, k, At(s.queue, k)[0]);
    case ObserveEmpty(id) => ReceiveKeeps(s, id, s.all[id].(place := Seen), Apply(s, step));
    case DrainFails(id) => LeaveKeeps(s, id, Apply(s, step));
    case Decide(id) => DecideKeeps(s, id);
    case Exit(id) => ExitKeeps(s, id);
    case Close => ClosedKeeps(s);
  }

  lemma ClosedKeeps(s: State)
    requires Inv(s)
    ensures Inv(s.(closed := true))
  {
  }

  lemma {:induction false} RunKeeps(s: State, steps: seq<Step>, t: State)
    requires Inv(s) && WokenAccepted(s) && Run(s, steps, t)
    ensures Inv(t) && WokenAccepted(t)
    decreases |steps|
  {
    hide Inv, WokenAccepted, Enabled, Apply;
    if steps != [] {
      StepKeeps(s, steps[0]);
      RunKeeps(Apply(s, steps[0]), steps[1..], t);
    }
  }

  /** In every run at most one worker of a scope may drain it, and each scope's commands leave the
      queue once, in the order they were accepted; unless the service has failed, each of them committed. */
  lemma OneDrainerPerScope(s: State, steps: seq<Step>, t: State)
    requires Start(s) && Run(s, steps, t)
    ensures forall a, b | a in t.all && b in t.all && Active(t.all[a]) && Active(t.all[b]) && t.all[a].scope == t.all[b].scope :: a == b
    ensures forall k :: At(t.settled, k) <= At(t.accepted, k) && At(t.accepted, k) == At(t.settled, k) + At(t.queue, k)
    ensures !t.fatal ==> t.dropped == {}
  {
    StartInv(s);
    RunKeeps(s, steps, t);
    RunDrops(s, steps, t);
    hide Run, Start, NoLostWake, OnlyHeads, Staffed, Distinct;
    assert InOrder(t.accepted, t.settled, t.queue);
  }

  /** While the service is neither closed nor failed, a queued command whose wake was published has
      a mapped, active worker that holds a token or has not yet seen the queue empty. */
  lemma NoWakeIsLost(s: State, steps: seq<Step>, t: State, k: Scope, c: Command)
    requires Start(s) && Run(s, steps, t) && !t.closed && !t.fatal
    requires c in At(t.queue, k) && (k, c) in t.woken
    ensures k in t.agents && t.agents[k] in t.all && t.all[t.agents[k]].scope == k
    ensures (t.all[t.agents[k]].token && Active(t.all[t.agents[k]])) || t.all[t.agents[k]].place.Draining?
  {
    StartInv(s);
    RunKeeps(s, steps, t);
    hide Run, Start, OnlyHeads, InOrder;
  }

  // ---- a woken command is never stuck ----

  /** Steps of the workers and of pairing alone: nothing new arrives and nobody wakes again. */
  predicate OnItsOwn(steps: seq<Step>) {
    forall i | 0 <= i < |steps| :: steps[i].Receive? || steps[i].Retry? || steps[i].Decide? || 
      steps[i].Claim? || steps[i].Submit? || steps[i].Commit? || steps[i].Resolved? || steps[i].PairingSettles?
  }

  lemma RunOne(s: State, step: Step, rest: seq<Step>, t: State)
    requires Enabled(s, step) && Run(Apply(s, step), rest, t) && OnItsOwn([step]) && OnItsOwn(rest)
    ensures Run(s, [step] + rest, t) && OnItsOwn([step] + rest)
  {
    hide Enabled, Apply;
    assert ([step] + rest)[1..] == rest;
    assert [step][0] == step;
  }

  lemma {:induction false} RunsJoin(s: State, a: seq<Step>, t: State, b: seq<Step>, u: State)
    requires Run(s, a, t) && Run(t, b, u) && OnItsOwn(a) && OnItsOwn(b)
    ensures Run(s, a + b, u) && OnItsOwn(a + b)
    decreases |a|
  {
    hide Enabled, Apply;
    if a == [] {
      assert a + b == b;
    } else {
      assert [a[0]] + a[1..] == a;
      RunsJoin(Apply(s, a[0]), a[1..], t, b, u);
      RunOne(s, a[0], a[1..] + b, u);
      assert a + b == [a[0]] + (a[1..] + b);
    }
  }

  lemma {:induction false} DrainsTo(s: State, id: WorkerId, i: nat) returns (steps: seq<Step>, t: State)
    requires Inv(s) && WokenAccepted(s) && id in s.all && s.all[id].place == Draining(None) && i < |At(s.queue, s.all[id].scope)|
    ensures Run(s, steps, t) && OnItsOwn(steps) && At(s.queue, s.all[id].scope)[i] in At(t.settled, s.all[id].scope)
    decreases i
  {
    var k := s.all[id].scope;
    var u, first := HeadSettles(s, id);
    var q := At(s.queue, k);
    hide Inv, WokenAccepted, Enabled, Apply;
    if i > 0 {
      assert At(u.queue, k)[i - 1] == q[i];
      var rest;
      rest, t := DrainsTo(u, id, i - 1);
      RunsJoin(s, first, u, rest, t);
      steps := first + rest;
    } else {
      assert q[0] in At(u.settled, k);
      steps, t := first, u;
    }
  }

  lemma StepRuns(s: State, step: Step)
    requires Enabled(s, step) && OnItsOwn([step])
    ensures Run(s, [step], Apply(s, step))
  {
    assert Run(Apply(s, step), [], Apply(s, step));
    assert [step][1..] == [];
    hide Enabled, Apply;
  }

  /** A worker at a command: claim it, submit it, see it commit, and return. */
  lemma HeadPath(s: State, id: WorkerId)
    requires id in s.all && s.all[id].place == Draining(None)
    requires var q := At(s.queue, s.all[id].scope); q != [] && q[0] !in s.pairing && q[0] !in q[1..]
    ensures var k := s.all[id].scope;
      var c := At(s.queue, k)[0];
      && Enabled(s, Claim(id))
      && var s1 := Apply(s, Claim(id));
      && Enabled(s1, Submit(id))
      && var s2 := Apply(s1, Submit(id));
      && Enabled(s2, Commit(k, c))
      && var s3 := Apply(s2, Commit(k, c));
      && Enabled(s3, Resolved(id))
      && var t := Apply(s3, Resolved(id));
      && t.all == s.all && At(t.queue, k) == At(s.queue, k)[1..] && At(t.settled, k) == At(s.settled, k) + [c]
  {
  }

  lemma HeadCommits(s: State, id: WorkerId) returns (t: State, steps: seq<Step>)
    requires Inv(s) && WokenAccepted(s) && id in s.all && s.all[id].place == Draining(None)
    requires At(s.queue, s.all[id].scope) != [] && At(s.queue, s.all[id].scope)[0] !in s.pairing
    ensures Inv(t) && WokenAccepted(t) && t.all == s.all && Run(s, steps, t) && OnItsOwn(steps)
    ensures var k := s.all[id].scope;
      At(t.queue, k) == At(s.queue, k)[1..] && At(t.settled, k) == At(s.settled, k) + [At(s.queue, k)[0]]
  {
    var k := s.all[id].scope;
    var c := At(s.queue, k)[0];
    HeadIsOnce(s, k);
    HeadPath(s, id);
    hide Inv, WokenAccepted, Enabled, Apply, Run;
    var s1 := Apply(s, Claim(id));
    var s2 := Apply(s1, Submit(id));
    var s3 := Apply(s2, Commit(k, c));
    t := Apply(s3, Resolved(id));
    StepKeeps(s, Claim(id));
    StepKeeps(s1, Submit(id));
    StepKeeps(s2, Commit(k, c));
    StepKeeps(s3, Resolved(id));
    StepRuns(s, Claim(id));
    StepRuns(s1, Submit(id));
    StepRuns(s2, Commit(k, c));
    StepRuns(s3, Resolved(id));
    RunsJoin(s, [Claim(id)], s1, [Submit(id)], s2);
    RunsJoin(s, [Claim(id)] + [Submit(id)], s2, [Commit(k, c)], s3);
    RunsJoin(s, [Claim(id)] + [Submit(id)] + [Commit(k, c)], s3, [Resolved(id)], t);
    steps := [Claim(id)] + [Submit(id)] + [Commit(k, c)] + [Resolved(id)];
  }

  lemma HeadIsOnce(s: State, k: Scope)
    requires InOrder(s.accepted, s.settled, s.queue) && Distinct(s.accepted) && At(s.queue, k) != []
    ensures At(s.queue, k)[0] !in At(s.queue, k)[1..]
  {
    var a, d, q := At(s.accepted, k), At(s.settled, k), At(s.queue, k);
    assert a == d + q;
    forall j | 0 <= j < |q| - 1 ensures q[1..][j] != q[0] { assert a[|d|] == q[0] && a[|d| + j + 1] == q[1..][j]; }
  }

  /** The head of the queue of a draining worker can be settled. */
  lemma HeadSettles(s: State, id: WorkerId) returns (t: State, steps: seq<Step>)
    requires Inv(s) && WokenAccepted(s) && id in s.all && s.all[id].place == Draining(None) && At(s.queue, s.all[id].scope) != []
    ensures Inv(t) && WokenAccepted(t) && t.all == s.all && Run(s, steps, t) && OnItsOwn(steps)
    ensures var k := s.all[id].scope;
      At(t.queue, k) == At(s.queue, k)[1..] && At(t.settled, k) == At(s.settled, k) + [At(s.queue, k)[0]]
  {
    var k := s.all[id].scope;
    if At(s.queue, k)[0] in s.pairing {
      hide Inv, WokenAccepted;
      steps := [PairingSettles(k)];
      StepKeeps(s, steps[0]);
      StepRuns(s, steps[0]);
      t := Apply(s, steps[0]);
    } else {
      t, steps := HeadCommits(s, id);
    }
  }

  lemma TurnsToDraining(s: State, id: WorkerId) returns (step: Step, t: State)
    requires Inv(s) && WokenAccepted(s) && id in s.all && Active(s.all[id]) && (s.all[id].token || s.all[id].place.Draining?)
    ensures Enabled(s, step) && t == Apply(s, step) && Inv(t) && WokenAccepted(t) && OnItsOwn([step])
    ensures id in t.all && t.all[id].scope == s.all[id].scope && t.all[id].place == Draining(None) && t.queue == s.queue
  {
    var w := s.all[id];
    step := if w.place.Waiting? then Receive(id) else if w.place.Seen? then Decide(id) else Retry(id);
    assert w.scope in s.agents && s.agents[w.scope] == id;
    hide Inv, WokenAccepted;
    StepKeeps(s, step);
    t := Apply(s, step);
  }

  /** From every healthy state the service itself can settle a command whose wake was published:
      no further wake is needed. */
  lemma WokenCommandCanSettle(s: State, k: Scope, c: Command) returns (steps: seq<Step>, t: State)
    requires Inv(s) && WokenAccepted(s) && !s.closed && !s.fatal && c in At(s.queue, k) && (k, c) in s.woken
    ensures Run(s, steps, t) && OnItsOwn(steps) && c in At(t.settled, k)
  {
    var id := s.agents[k];
    var i :| 0 <= i < |At(s.queue, k)| && At(s.queue, k)[i] == c;
    var step, u := TurnsToDraining(s, id);
    hide Inv, WokenAccepted, Enabled, Apply;
    var rest;
    rest, t := DrainsTo(u, id, i);
    RunOne(s, step, rest, t);
    steps := [step] + rest;
  }

  /** The service's locked operations. */
  class Service {
    var agents: map<Scope, WorkerId>
    var all: map<WorkerId, Worker>
    var closed: bool

    constructor ()
      ensures agents == map[] && all == map[] && !closed && Registered(agents, all)
    {
      agents, all, closed := map[], map[], false;
    }

    method WakeScope(k: Scope, added: WorkerId)
      requires Registered(agents, all) && added !in all
      modifies this
      ensures (agents, all) == Wake(old(agents), old(all), closed, k, added) && closed == old(closed)
      ensures Registered(agents, all)
      ensures !closed ==> k in agents && all[agents[k]].token && (k in old(agents) ==> agents == old(agents))
    {
      if closed { return; }
      if k !in agents {
        all := all[added := Worker(k, true, Waiting)];
        agents := agents[k := added];
      } else {
        all := all[agents[k] := all[agents[k]].(token := true)];
      }
    }

    /** True exactly when a token was there; false leaves the worker unmapped. */
    method ConsumeWakeOrRetire(id: WorkerId) returns (again: bool)
      requires Registered(agents, all) && id in all && all[id].place.Seen?
      modifies this
      ensures (agents, all) == ConsumeOrRetire(old(agents), old(all), id) && closed == old(closed)
      ensures Registered(agents, all)
      ensures again <==> old(all)[id].token
      ensures !again ==> all[id].scope !in agents
    {
      var w := all[id];
      if w.scope !in agents || agents[w.scope] != id {
        assert false;
      }
      if w.token {
        all := all[id := w.(token := false, place := Draining(None))];
        return true;
      }
      agents := agents - {w.scope};
      all := all[id := w.(place := Leaving)];
      return false;
    }

    method RemoveWorker(id: WorkerId)
      requires Registered(agents, all) && id in all && all[id].place.Leaving?
      modifies this
      ensures (agents, all) == Remove(old(agents), old(all), id) && closed == old(closed)
      ensures Registered(agents, all)
      ensures forall k | k in old(agents) && old(agents)[k] != id :: k in agents && agents[k] == old(agents)[k]
    {
      var w := all[id];
      all := all[id := w.(place := Gone)];
      if w.scope in agents && agents[w.scope] == id { agents := agents - {w.scope}; }
    }
  }
}
