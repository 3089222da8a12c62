/** The snapshot repository of cmd/codecommd/snapshot_repository.go as atomic steps: each function
    below is one critical section under the repository's lock. Artifacts are objects, since one
    artifact ID can be carried by several objects over time. */
module SnapshotModel {
  import opened Bytes
  import opened Wrappers

  const RETENTION: nat := 2

  type Object = nat

  /** A signed root; `body` stands for everything the comparison of artifacts ignores. */
  datatype Root = Root(resultIndex: nat, chainIndex: nat, id: Bytes, body: nat)

  datatype Artifact = Artifact(root: Root, transfers: nat, handoffUntil: nat, timer: bool, cleanup: bool)

  /** The repository's own fields; `objects` is the heap of artifact objects. */
  datatype Core = Core(
    objects: map<Object, Artifact>,
    published: map<Bytes, Object>,
    retired: map<Bytes, Object>,
    latest: Option<Object>,
    closed: bool)

  predicate Newer(a: Root, b: Root) {
    if a.resultIndex != b.resultIndex then a.resultIndex > b.resultIndex
    else if a.chainIndex != b.chainIndex then a.chainIndex > b.chainIndex
    else Less(b.id, a.id)
  }

  predicate IsPublished(c: Core, o: Object) {
    o in c.objects && c.objects[o].root.id in c.published && c.published[c.objects[o].root.id] == o
  }

  predicate IsRetired(c: Core, o: Object) {
    o in c.objects && c.objects[o].root.id in c.retired && c.retired[c.objects[o].root.id] == o
  }

  /** Both maps hold live objects under their own IDs, never the same object, and the latest
      artifact is published. */
  ghost predicate Shape(c: Core) {
    && (forall id | id in c.published :: c.published[id] in c.objects && c.objects[c.published[id]].root.id == id)
    && (forall id | id in c.retired :: c.retired[id] in c.objects && c.objects[c.retired[id]].root.id == id)
    && (forall o :: !(IsPublished(c, o) && IsRetired(c, o)))
    && (c.latest.Some? ==> IsPublished(c, c.latest.value))
  }

  // ---- retiring ----

  ghost predicate NewerPublished(c: Core, id: Bytes, other: Bytes)
    requires Shape(c) && id in c.published
  {
    other in c.published && Newer(c.objects[c.published[other]].root, c.objects[c.published[id]].root)
  }

  /** Outside the two newest published artifacts. */
  ghost predicate BeyondRetention(c: Core, id: Bytes)
    requires Shape(c) && id in c.published
  {
    exists a, b :: a != b && NewerPublished(c, id, a) && NewerPublished(c, id, b)
  }

  ghost predicate Victim(c: Core, now: nat, id: Bytes)
    requires Shape(c)
  {
    id in c.published && BeyondRetention(c, id) && c.objects[c.published[id]].handoffUntil <= now
  }

  ghost function Victims(c: Core, now: nat): set<Bytes>
    requires Shape(c)
  {
    set id | id in c.published && Victim(c, now, id)
  }

  /** The maps after the victims move. */
  ghost function Moved(c: Core, now: nat): (r: Core)
    requires Shape(c)
  {
    var v := Victims(c, now);
    c.(published := map id | id in c.published && id !in v :: c.published[id],
       retired := map id | id in c.retired.Keys + v :: if id in v then c.published[id] else c.retired[id],
       objects := map o | o in c.objects ::
                  if IsPublished(c, o) && c.objects[o].root.id in v
                  then c.objects[o].(handoffUntil := 0, timer := false) else c.objects[o])
  }

  /** Retired objects that nobody reads and nobody is cleaning. */
  ghost function Claims(c: Core): set<Object> {
    set o | o in c.objects && IsRetired(c, o) && c.objects[o].transfers == 0 && !c.objects[o].cleanup
  }

  ghost function Claimed(c: Core, os: set<Object>): Core {
    c.(objects := map o | o in c.objects :: if o in os then c.objects[o].(cleanup := true) else c.objects[o])
  }

  ghost function Retire(c: Core, now: nat): (Core, set<Object>)
    requires Shape(c)
  {
    if c.closed then (c, {})
    else
      var m := Moved(c, now);
      (Claimed(m, Claims(m)), Claims(m))
  }

  // ---- the other critical sections ----

  function Put(c: Core, o: Object, a: Artifact): Core {
    c.(objects := c.objects[o := a])
  }

  function Latest(c: Core, now: nat, lifetime: nat): (Core, Option<Root>)
    requires c.latest.Some? ==> c.latest.value in c.objects
  {
    if c.closed || c.latest.None? then (c, None)
    else
      var a := c.objects[c.latest.value];
      (if lifetime == 0 then c else Put(c, c.latest.value, a.(handoffUntil := now + lifetime, timer := true)), Some(a.root))
  }

  function Expire(c: Core, now: nat, o: Object): Core
    requires o in c.objects
  {
    var a := c.objects[o];
    if c.closed || a.handoffUntil > now then c else Put(c, o, a.(handoffUntil := 0, timer := false))
  }

  function Open(c: Core, root: Root): (r: (Core, Option<Object>))
    requires forall id | id in c.published :: c.published[id] in c.objects
  {
    if c.closed || root.id !in c.published then (c, None)
    else
      var o := c.published[root.id];
      var a := c.objects[o];
      if a.root != root then (c, None) else (Put(c, o, a.(transfers := a.transfers + 1)), Some(o))
  }

  /** Releasing a transfer; the flag says that the caller must now schedule a cleanup. */
  function Release(c: Core, o: Object): (Core, bool)
    requires o in c.objects
  {
    var a := c.objects[o];
    if a.transfers == 0 then (c, false)
    else
      var b := a.(transfers := a.transfers - 1);
      if !IsRetired(c, o) || b.transfers != 0 || b.cleanup then (Put(c, o, b), false)
      else (Put(c, o, b.(cleanup := true)), true)
  }

  /** finishRetiredCleanup; it ignores an object that the retired map no longer holds. */
  function Finish(c: Core, o: Object, removed: bool): Core
    requires o in c.objects
  {
    if !IsRetired(c, o) then c
    else
      var d := Put(c, o, c.objects[o].(cleanup := false));
      if removed then d.(retired := c.retired - {c.objects[o].root.id}) else d
  }

  function Register(c: Core, root: Root, added: Object): (Core, bool)
    requires c.latest.Some? ==> c.latest.value in c.objects
    requires forall id | id in c.published :: c.published[id] in c.objects
  {
    if root.id in c.published && c.objects[c.published[root.id]].root != root then (c, false)
    else
      var d := if root.id in c.published then c
               else Put(c, added, Artifact(root, 0, 0, false, false)).(published := c.published[root.id := added]);
      if c.latest.None? || Newer(root, c.objects[c.latest.value].root)
      then (d.(latest := Some(d.published[root.id])), true) else (d, true)
  }

  predicate HasCapacity(c: Core, id: Bytes) {
    !c.closed && (id in c.published || (|c.published| <= RETENTION && |c.retired| == 0))
  }

  function BeginClose(c: Core): Core {
    c.(closed := true,
       objects := map o | o in c.objects ::
                  if IsPublished(c, o) then c.objects[o].(handoffUntil := 0, timer := false) else c.objects[o])
  }

  // ---- the whole system: repository, clients, cleanup goroutines and the publisher ----

  datatype Grant = Grant(target: Object, root: Root, until: nat)

  datatype System = System(
    core: Core,
    now: nat,
    lifetime: nat,
    handles: map<nat, Object>,
    claimed: multiset<Object>,
    running: multiset<Object>,
    removing: multiset<Object>,
    publishing: Option<Bytes>,
    registered: set<Root>,
    grants: set<Grant>)

  /** Every cleanup that owns an object: chosen under the lock, waiting, or removing files. */
  ghost function Tasks(s: System): multiset<Object> {
    s.claimed + s.running + s.removing
  }

  datatype Step =
    | Tick(to: nat)
    | LatestSnapshot
    | ExpireHandoff(o: Object)
    | Prune
    | ScheduleCleanup(o: Object)
    | CancelCleanup(o: Object)
    | StartRemoval(o: Object)
    | FinishRemoval(o: Object, removed: bool)
    | OpenTransfer(root: Root, handle: nat)
    | CloseTransfer(handle: nat)
    | BeginPublish(id: Bytes)
    | AbortPublish
    | RegisterArtifact(root: Root, added: Object)
    | Close

  /** `removing` holds at most one object: the cleanup gate has capacity one. */
  ghost predicate Enabled(s: System, step: Step) {
    Shape(s.core) &&
    match step
    case Tick(to) => to >= s.now
    case LatestSnapshot => true
    case ExpireHandoff(o) => o in s.core.objects
    case Prune => true
    case ScheduleCleanup(o) => o in s.claimed && o in s.core.objects
    case CancelCleanup(o) => o in s.running && o in s.core.objects
    case StartRemoval(o) => o in s.running && s.removing == multiset{}
    case FinishRemoval(o, removed) => o in s.removing && o in s.core.objects
    case OpenTransfer(root, handle) => handle !in s.handles
    case CloseTransfer(handle) => handle in s.handles && s.handles[handle] in s.core.objects
    case BeginPublish(id) => s.publishing.None? && id != [] && HasCapacity(s.core, id)
    case AbortPublish => s.publishing.Some?
    case RegisterArtifact(root, added) => s.publishing == Some(root.id) && added !in s.core.objects
    case Close => true
  }

  ghost function Apply(s: System, step: Step): System
    requires Enabled(s, step)
  {
    match step
    case Tick(to) => s.(now := to)
    case LatestSnapshot =>
      var (c, root) := Latest(s.core, s.now, s.lifetime);
      s.(core := c, grants := if root.Some? then s.grants + {Grant(s.core.latest.value, root.value, s.now + s.lifetime)} else s.grants)
    case ExpireHandoff(o) => s.(core := Expire(s.core, s.now, o))
    case Prune =>
      var (c, os) := Retire(s.core, s.now);
      s.(core := c, claimed := s.claimed + multiset(os))
    case ScheduleCleanup(o) =>
      if s.core.closed then s.(core := Finish(s.core, o, false), claimed := s.claimed - multiset{o})
      else s.(claimed := s.claimed - multiset{o}, running := s.running + multiset{o})
    case CancelCleanup(o) => s.(core := Finish(s.core, o, false), running := s.running - multiset{o})
    case StartRemoval(o) => s.(running := s.running - multiset{o}, removing := s.removing + multiset{o})
    case FinishRemoval(o, removed) => s.(core := Finish(s.core, o, removed), removing := s.removing - multiset{o})
    case OpenTransfer(root, handle) =>
      var (c, o) := Open(s.core, root);
      if o.Some? then s.(core := c, handles := s.handles[handle := o.value]) else s
    case CloseTransfer(handle) =>
      var o := s.handles[handle];
      var (c, schedule) := Release(s.core, o);
      s.(core := c, handles := s.handles - {handle}, claimed := if schedule then s.claimed + multiset{o} else s.claimed)
    case BeginPublish(id) => s.(publishing := Some(id))
    case AbortPublish => s.(publishing := None)
    case RegisterArtifact(root, added) =>
      var (c, ok) := Register(s.core, root, added);
      s.(core := c, publishing := None, registered := if ok then s.registered + {root} else s.registered)
    case Close => s.(core := BeginClose(s.core))
  }

  /** `t` is where the steps lead from `s`. */
  ghost predicate Run(s: System, steps: seq<Step>, t: System)
    decreases |steps|
  {
    if steps == [] then s == t
    else Enabled(s, steps[0]) && Run(Apply(s, steps[0]), steps[1..], t)
  }
}
