/** What every interleaving of the snapshot repository keeps. */
module SnapshotSafety {
  import opened Bytes
  import opened Wrappers
  import opened Mapping
  import opened SnapshotModel

  ghost function Holders(handles: map<nat, Object>, o: Object): set<nat> {
    set h | h in handles && handles[h] == o
  }

  /** Every object's counter is the number of its unclosed transfers. */
  ghost predicate Counting(objects: map<Object, Artifact>, handles: map<nat, Object>) {
    && (forall h | h in handles :: handles[h] in objects)
    && (forall o | o in objects :: objects[o].transfers == |Holders(handles, o)|)
  }

  /** At most one cleanup owns an object, and only an object that is unpublished and unread. A
      retired object marked as being cleaned really has an owner. */
  ghost predicate Owned(c: Core, tasks: multiset<Object>) {
    && (forall o | o in tasks ::
          tasks[o] == 1 && o in c.objects && c.objects[o].cleanup && c.objects[o].transfers == 0)
    && (forall o | o in c.objects && c.objects[o].cleanup :: !IsPublished(c, o))
    && (forall o | o in c.objects && IsRetired(c, o) && c.objects[o].cleanup :: o in tasks)
  }

  /** The latest artifact is the newest ever registered. */
  ghost predicate LatestNewest(c: Core, registered: set<Root>) {
    && (forall id | id in c.published :: c.published[id] in c.objects && c.objects[c.published[id]].root in registered)
    && (c.latest.None? ==> registered == {})
    && (c.latest.Some? ==>
          && c.latest.value in c.objects
          && c.objects[c.latest.value].root in registered
          && forall r | r in registered :: !Newer(r, c.objects[c.latest.value].root))
  }

  /** Only a published object has a pending handoff, a pending handoff has a timer, and it ends
      within one lifetime. */
  ghost predicate Handoffs(c: Core, horizon: nat) {
    forall o | o in c.objects ::
      && (c.objects[o].handoffUntil == 0 <==> !c.objects[o].timer)
      && (c.objects[o].handoffUntil > 0 ==> IsPublished(c, o) && !c.closed)
      && c.objects[o].handoffUntil <= horizon
  }

  /** A granted handoff is honoured until it ends or the repository closes. */
  ghost predicate Honoured(c: Core, now: nat, grants: set<Grant>) {
    forall g | g in grants ::
      && g.target in c.objects && c.objects[g.target].root == g.root
      && (c.closed || g.until <= now || c.objects[g.target].handoffUntil >= g.until)
  }

  ghost function Ids(c: Core, publishing: Option<Bytes>): set<Bytes> {
    c.published.Keys + c.retired.Keys + if publishing.Some? then {publishing.value} else {}
  }

  /** Published, retired and in-flight artifact IDs together never exceed retention plus one. */
  ghost predicate Bounded(c: Core, publishing: Option<Bytes>) {
    |Ids(c, publishing)| <= RETENTION + 1
  }

  ghost predicate Inv(s: System) {
    && Shape(s.core)
    && Counting(s.core.objects, s.handles)
    && Owned(s.core, Tasks(s))
    && LatestNewest(s.core, s.registered)
    && Handoffs(s.core, s.now + s.lifetime)
    && Honoured(s.core, s.now, s.grants)
    && Bounded(s.core, s.publishing)
  }

  // ---- order ----

  lemma NewerStrict(a: Root, b: Root)
    ensures !(Newer(a, b) && Newer(b, a)) && !Newer(a, a)
    ensures Newer(a, b) || Newer(b, a) || a.id == b.id
  {
    LessTrichotomy(a.id, b.id);
    LessTrichotomy(a.id, a.id);
  }

  lemma NewerTransitive(a: Root, b: Root, c: Root)
    requires Newer(a, b) && Newer(b, c)
    ensures Newer(a, c)
  {
    if a.resultIndex == b.resultIndex == c.resultIndex && a.chainIndex == b.chainIndex == c.chainIndex {
      LessTransitive(c.id, b.id, a.id);
    }
  }

  lemma NewerNegated(a: Root, b: Root, c: Root)
    requires Newer(a, b) && !Newer(c, b)
    ensures !Newer(c, a)
  {
    if Newer(c, a) { NewerTransitive(c, a, b); }
  }

  // ---- what depends only on the maps and the roots ----

  ghost predicate SameRoots(c: Core, d: Core) {
    && d.published == c.published && d.retired == c.retired && d.latest == c.latest
    && d.objects.Keys == c.objects.Keys
    && forall o | o in c.objects :: d.objects[o].root == c.objects[o].root
  }

  ghost predicate SamePlaces(c: Core, d: Core) {
    && (forall o | o in c.objects :: IsPublished(d, o) <==> IsPublished(c, o))
    && (forall o | o in c.objects :: IsRetired(d, o) <==> IsRetired(c, o))
  }

  lemma SameRootsShape(c: Core, d: Core)
    requires SameRoots(c, d)
    ensures SamePlaces(c, d) && (Shape(c) ==> Shape(d))
  {
    forall o ensures (IsPublished(d, o) <==> IsPublished(c, o)) && (IsRetired(d, o) <==> IsRetired(c, o)) {
    }
  }

  lemma SameRootsLatest(c: Core, d: Core, registered: set<Root>)
    requires SameRoots(c, d) && LatestNewest(c, registered)
    ensures LatestNewest(d, registered)
  {
    hide Newer;
  }

  lemma SameRootsBounded(c: Core, d: Core, publishing: Option<Bytes>)
    requires SameRoots(c, d) && Bounded(c, publishing)
    ensures Bounded(d, publishing)
  {
    assert Ids(d, publishing) == Ids(c, publishing);
  }

  lemma SameRootsKeeps(s: System, t: System)
    requires SameRoots(s.core, t.core) && t.registered == s.registered && t.publishing == s.publishing
    requires Shape(s.core) && LatestNewest(s.core, s.registered) && Bounded(s.core, s.publishing)
    ensures Shape(t.core) && LatestNewest(t.core, t.registered) && Bounded(t.core, t.publishing) && SamePlaces(s.core, t.core)
  {
    SameRootsShape(s.core, t.core);
    SameRootsLatest(s.core, t.core, s.registered);
    SameRootsBounded(s.core, t.core, s.publishing);
    hide *;
  }

  // ---- what depends only on counters and cleanup marks ----

  ghost predicate SameMarks(a: map<Object, Artifact>, b: map<Object, Artifact>) {
    && b.Keys == a.Keys
    && forall o | o in a :: b[o].cleanup == a[o].cleanup && b[o].transfers == a[o].transfers
  }

  lemma SameMarksKeeps(c: Core, d: Core, tasks: multiset<Object>, handles: map<nat, Object>)
    requires SameMarks(c.objects, d.objects) && SamePlaces(c, d)
    ensures Owned(c, tasks) ==> Owned(d, tasks)
    ensures Counting(c.objects, handles) ==> Counting(d.objects, handles)
  {
    hide IsPublished, IsRetired;
  }

  // ---- clocks and handoffs ----

  lemma TickKeeps(s: System, to: nat)
    requires Inv(s) && to >= s.now
    ensures Inv(s.(now := to))
  {
    hide IsPublished, Shape, Owned, Counting, LatestNewest, Bounded;
  }

  lemma PutRoot(c: Core, o: Object, a: Artifact)
    requires o in c.objects && a.root == c.objects[o].root
    ensures SameRoots(c, Put(c, o, a))
    ensures a.transfers == c.objects[o].transfers && a.cleanup == c.objects[o].cleanup ==> SameMarks(c.objects, Put(c, o, a).objects)
  {
  }

  /** Rewriting one object's handoff keeps everything that is not about handoffs. */
  lemma HandoffFrame(s: System, t: System, o: Object, a: Artifact)
    requires Inv(s) && o in s.core.objects
    requires a == s.core.objects[o].(handoffUntil := a.handoffUntil, timer := a.timer)
    requires t == s.(core := Put(s.core, o, a), grants := t.grants)
    ensures Handoffs(t.core, t.now + t.lifetime) && Honoured(t.core, t.now, t.grants) ==> Inv(t)
    ensures SamePlaces(s.core, t.core)
  {
    PutRoot(s.core, o, a);
    hide Put, SameRoots, SameMarks, Shape, Owned, Counting, LatestNewest, Bounded, Handoffs, Honoured;
    SameRootsKeeps(s, t);
    SameMarksKeeps(s.core, t.core, Tasks(s), s.handles);
  }

  lemma LatestPublished(c: Core)
    requires Shape(c) && c.latest.Some?
    ensures c.latest.value in c.objects && IsPublished(c, c.latest.value)
  {
  }

  /** A new handoff ends no earlier than any handoff granted before it on the same object. */
  lemma ReserveHandoffs(c: Core, o: Object, now: nat, lifetime: nat, grants: set<Grant>)
    requires Handoffs(c, now + lifetime) && Honoured(c, now, grants) && o in c.objects && IsPublished(c, o) && !c.closed && lifetime > 0
    requires SamePlaces(c, Put(c, o, c.objects[o].(handoffUntil := now + lifetime, timer := true)))
    ensures var d := Put(c, o, c.objects[o].(handoffUntil := now + lifetime, timer := true));
      && Handoffs(d, now + lifetime)
      && Honoured(d, now, grants + {Grant(o, c.objects[o].root, now + lifetime)})
  {
    hide IsPublished, IsRetired;
  }

  lemma LatestKeeps(s: System)
    requires Inv(s)
    ensures Inv(Apply(s, LatestSnapshot))
  {
    hide Owned, Counting, LatestNewest, Bounded, IsPublished, IsRetired, Handoffs;
    var t := Apply(s, LatestSnapshot);
    if !s.core.closed && s.core.latest.Some? {
      LatestPublished(s.core);
      hide Shape;
      var o := s.core.latest.value;
      if s.lifetime > 0 {
        hide Honoured;
        HandoffFrame(s, t, o, s.core.objects[o].(handoffUntil := s.now + s.lifetime, timer := true));
        ReserveHandoffs(s.core, o, s.now, s.lifetime, s.grants);
      }
    }
  }

  lemma ExpireKeeps(s: System, o: Object)
    requires Inv(s) && o in s.core.objects
    ensures Inv(Apply(s, ExpireHandoff(o)))
    ensures s.core.objects[o].handoffUntil > s.now ==> s.core.objects[o].timer
  {
    hide Shape, Owned, Counting, LatestNewest, Bounded, IsPublished;
    var t := Apply(s, ExpireHandoff(o));
    if !s.core.closed && s.core.objects[o].handoffUntil <= s.now {
      HandoffFrame(s, t, o, t.core.objects[o]);
    }
  }

  // ---- transfers ----

  lemma PublishedAt(c: Core, id: Bytes)
    requires Shape(c) && id in c.published
    ensures c.published[id] in c.objects && c.objects[c.published[id]].root.id == id && IsPublished(c, c.published[id])
  {
  }

  lemma TransferFrame(s: System, t: System, o: Object, a: Artifact)
    requires Inv(s) && o in s.core.objects
    requires a == s.core.objects[o].(transfers := a.transfers, cleanup := a.cleanup)
    requires t == s.(core := Put(s.core, o, a), handles := t.handles, claimed := t.claimed)
    ensures Owned(t.core, Tasks(t)) && Counting(t.core.objects, t.handles) ==> Inv(t)
    ensures SamePlaces(s.core, t.core)
  {
    PutRoot(s.core, o, a);
    hide Put, SameRoots, SameMarks, Shape, Owned, Counting, LatestNewest, Bounded, IsPublished, IsRetired, Handoffs, Honoured;
    SameRootsKeeps(s, t);
    TransferHandoffs(s.core, o, a, s.now, s.now + s.lifetime, s.grants);
  }

  lemma TransferHandoffs(c: Core, o: Object, a: Artifact, now: nat, horizon: nat, grants: set<Grant>)
    requires Handoffs(c, horizon) && Honoured(c, now, grants) && SamePlaces(c, Put(c, o, a))
    requires o in c.objects && a == c.objects[o].(transfers := a.transfers, cleanup := a.cleanup)
    ensures Handoffs(Put(c, o, a), horizon) && Honoured(Put(c, o, a), now, grants)
  {
    hide IsPublished, IsRetired;
  }

  lemma HoldersMore(handles: map<nat, Object>, h: nat, o: Object, p: Object)
    requires h !in handles
    ensures |Holders(handles[h := o], p)| == |Holders(handles, p)| + if p == o then 1 else 0
  {
    assert Holders(handles[h := o], p) == Holders(handles, p) + if p == o then {h} else {};
  }

  lemma HoldersFewer(handles: map<nat, Object>, h: nat, p: Object)
    requires h in handles
    ensures |Holders(handles - {h}, p)| == |Holders(handles, p)| - if p == handles[h] then 1 else 0
  {
    assert Holders(handles - {h}, p) == Holders(handles, p) - if p == handles[h] then {h} else {};
    assert p == handles[h] ==> h in Holders(handles, p);
  }

  lemma CountingMore(objects: map<Object, Artifact>, handles: map<nat, Object>, o: Object, h: nat)
    requires Counting(objects, handles) && o in objects && h !in handles
    ensures Counting(objects[o := objects[o].(transfers := objects[o].transfers + 1)], handles[h := o])
  {
    hide Holders;
    forall p | p in objects ensures |Holders(handles[h := o], p)| == |Holders(handles, p)| + if p == o then 1 else 0 {
      HoldersMore(handles, h, o, p);
    }
  }

  lemma HolderCounted(objects: map<Object, Artifact>, handles: map<nat, Object>, h: nat)
    requires Counting(objects, handles) && h in handles
    ensures handles[h] in objects && objects[handles[h]].transfers > 0
  {
    assert h in Holders(handles, handles[h]);
  }

  lemma CountingFewer(objects: map<Object, Artifact>, handles: map<nat, Object>, h: nat, a: Artifact)
    requires Counting(objects, handles) && h in handles && a.transfers == objects[handles[h]].transfers - 1
    ensures Counting(objects[handles[h] := a], handles - {h})
  {
    hide Holders;
    forall p | p in objects ensures |Holders(handles - {h}, p)| == |Holders(handles, p)| - if p == handles[h] then 1 else 0 {
      HoldersFewer(handles, h, p);
    }
  }

  lemma OpenKeeps(s: System, root: Root, handle: nat)
    requires Inv(s) && Enabled(s, OpenTransfer(root, handle))
    ensures Inv(Apply(s, OpenTransfer(root, handle)))
  {
    hide Counting, LatestNewest, Bounded, IsPublished, IsRetired, Handoffs, Honoured, Owned;
    var t := Apply(s, OpenTransfer(root, handle));
    if Open(s.core, root).1.Some? {
      var o := s.core.published[root.id];
      PublishedAt(s.core, root.id);
      hide Shape;
      TransferFrame(s, t, o, t.core.objects[o]);
      CountingMore(s.core.objects, s.handles, o, handle);
      OpenOwned(s.core, o, t.core, Tasks(s));
    }
  }

  lemma OpenOwned(c: Core, o: Object, d: Core, tasks: multiset<Object>)
    requires Owned(c, tasks) && o in c.objects && IsPublished(c, o) && SamePlaces(c, d)
    requires d.objects == c.objects[o := c.objects[o].(transfers := c.objects[o].transfers + 1)]
    ensures Owned(d, tasks)
  {
    hide IsPublished, IsRetired;
  }

  lemma ReleasePlaces(c: Core, o: Object)
    requires Shape(c) && o in c.objects
    ensures SamePlaces(c, Release(c, o).0) && Release(c, o).0.objects.Keys == c.objects.Keys
    ensures IsRetired(c, o) ==> !IsPublished(c, o)
  {
    var d := Release(c, o).0;
    PutRoot(c, o, d.objects[o]);
    SameRootsShape(c, d);
    hide SameRoots;
  }

  lemma ReleaseOwned(c: Core, o: Object, tasks: multiset<Object>)
    requires Shape(c) && Owned(c, tasks) && o in c.objects && c.objects[o].transfers > 0
    ensures var (d, schedule) := Release(c, o);
      Owned(d, if schedule then tasks + multiset{o} else tasks)
  {
    ReleasePlaces(c, o);
    assert o !in tasks;
    var (d, schedule) := Release(c, o);
    MarkOwned(c, o, d, schedule, tasks);
    hide *;
  }

  lemma MarkOwned(c: Core, o: Object, d: Core, schedule: bool, tasks: multiset<Object>)
    requires Owned(c, tasks) && o in c.objects && o !in tasks && SamePlaces(c, d) && d.objects.Keys == c.objects.Keys
    requires forall p | p in c.objects && p != o :: d.objects[p] == c.objects[p]
    requires if schedule then d.objects[o].cleanup && d.objects[o].transfers == 0 && !IsPublished(c, o)
             else d.objects[o].cleanup == c.objects[o].cleanup
    ensures Owned(d, if schedule then tasks + multiset{o} else tasks)
  {
    hide IsPublished, IsRetired;
  }

  lemma CloseTransferKeeps(s: System, handle: nat)
    requires Inv(s) && handle in s.handles
    ensures Enabled(s, CloseTransfer(handle)) && Inv(Apply(s, CloseTransfer(handle)))
  {
    hide Shape, LatestNewest, Bounded, IsPublished, IsRetired, Handoffs, Honoured, Owned;
    var t := Apply(s, CloseTransfer(handle));
    var o := s.handles[handle];
    HolderCounted(s.core.objects, s.handles, handle);
    CountingFewer(s.core.objects, s.handles, handle, t.core.objects[o]);
    hide Counting;
    TransferFrame(s, t, o, t.core.objects[o]);
    ReleaseOwned(s.core, o, Tasks(s));
    assert Tasks(t) == if Release(s.core, o).1 then Tasks(s) + multiset{o} else Tasks(s);
  }

  // ---- cleanup ----

  /** Finishing a cleanup can only take its own object out of the retired map. */
  lemma FinishPlaces(c: Core, o: Object, removed: bool)
    requires Shape(c) && IsRetired(c, o)
    ensures var d := Finish(c, o, removed);
      && Shape(d)
      && (forall p :: IsPublished(d, p) <==> IsPublished(c, p))
      && (forall p :: IsRetired(d, p) <==> IsRetired(c, p) && !(removed && p == o))
  {
    var d := Finish(c, o, removed);
    forall p ensures IsPublished(d, p) <==> IsPublished(c, p) {}
    forall p ensures IsRetired(d, p) <==> IsRetired(c, p) && !(removed && p == o) {}
  }

  lemma FinishOwned(c: Core, o: Object, removed: bool, tasks: multiset<Object>)
    requires Owned(c, tasks) && Shape(c) && o in tasks && o in c.objects
    ensures Owned(Finish(c, o, removed), tasks - multiset{o})
  {
    if IsRetired(c, o) { FinishPlaces(c, o, removed); }
    hide IsPublished, Shape, IsRetired;
  }

  lemma FinishHandoffs(c: Core, o: Object, removed: bool, horizon: nat)
    requires Shape(c) && o in c.objects && Handoffs(c, horizon)
    ensures Handoffs(Finish(c, o, removed), horizon)
  {
    if IsRetired(c, o) { FinishPlaces(c, o, removed); }
    hide IsPublished, Shape, IsRetired;
  }

  lemma FinishLatest(c: Core, o: Object, removed: bool, registered: set<Root>)
    requires o in c.objects && LatestNewest(c, registered)
    ensures LatestNewest(Finish(c, o, removed), registered)
  {
    hide Newer, IsRetired;
  }

  lemma FinishBounded(c: Core, o: Object, removed: bool, publishing: Option<Bytes>)
    requires o in c.objects && Bounded(c, publishing)
    ensures Bounded(Finish(c, o, removed), publishing)
  {
    hide IsRetired;
    var d := Finish(c, o, removed);
    SubsetSize(Ids(d, publishing), Ids(c, publishing));
  }

  lemma FinishCounts(c: Core, o: Object, removed: bool, handles: map<nat, Object>, now: nat, grants: set<Grant>)
    requires o in c.objects && Counting(c.objects, handles) && Honoured(c, now, grants)
    ensures Counting(Finish(c, o, removed).objects, handles) && Honoured(Finish(c, o, removed), now, grants)
  {
    hide IsRetired;
  }

  lemma FinishKeeps(s: System, o: Object, removed: bool, t: System)
    requires Inv(s) && o in Tasks(s) && o in s.core.objects
    requires t == s.(core := Finish(s.core, o, removed), claimed := t.claimed, running := t.running, removing := t.removing)
    requires Tasks(t) == Tasks(s) - multiset{o}
    ensures Inv(t)
  {
    if IsRetired(s.core, o) { FinishPlaces(s.core, o, removed); }
    FinishOwned(s.core, o, removed, Tasks(s));
    FinishHandoffs(s.core, o, removed, s.now + s.lifetime);
    FinishLatest(s.core, o, removed, s.registered);
    FinishBounded(s.core, o, removed, s.publishing);
    FinishCounts(s.core, o, removed, s.handles, s.now, s.grants);
    hide Shape, IsPublished, IsRetired, LatestNewest, Bounded, Counting, Honoured, Handoffs, Owned, Tasks;
  }

  lemma MoveTask(a: multiset<Object>, b: multiset<Object>, c: multiset<Object>, o: Object)
    requires o in a
    ensures o in a + b + c
    ensures a - multiset{o} + b + c == a + b + c - multiset{o}
    ensures a - multiset{o} + (b + multiset{o}) + c == a + b + c
  {
  }

  lemma SameSum(a: multiset<Object>, b: multiset<Object>, c: multiset<Object>)
    ensures a + b + c == b + a + c == b + c + a == c + a + b == a + c + b
  {
  }

  /** A cleanup changes hands between the stages; the sum of the stages does not change. */
  ghost predicate HandedOn(s: System, t: System) {
    t == s.(claimed := t.claimed, running := t.running, removing := t.removing) && Tasks(t) == Tasks(s)
  }

  /** A cleanup of `o` ends, and the repository records it. */
  ghost predicate Ended(s: System, o: Object, removed: bool, t: System) {
    && o in Tasks(s) && o in s.core.objects
    && t == s.(core := Finish(s.core, o, removed), claimed := t.claimed, running := t.running, removing := t.removing)
    && Tasks(t) == Tasks(s) - multiset{o}
  }

  lemma ScheduleMoves(s: System, o: Object)
    requires Enabled(s, ScheduleCleanup(o))
    ensures var t := Apply(s, ScheduleCleanup(o)); if s.core.closed then Ended(s, o, false, t) else HandedOn(s, t)
  {
    hide Shape, Finish;
    MoveTask(s.claimed, s.running, s.removing, o);
  }

  lemma CancelMoves(s: System, o: Object)
    requires Enabled(s, CancelCleanup(o))
    ensures Ended(s, o, false, Apply(s, CancelCleanup(o)))
  {
    hide Shape, Finish;
    MoveTask(s.running, s.claimed, s.removing, o);
    SameSum(s.claimed, s.running, s.removing);
    SameSum(s.claimed, s.running - multiset{o}, s.removing);
  }

  lemma StartMoves(s: System, o: Object)
    requires Enabled(s, StartRemoval(o))
    ensures HandedOn(s, Apply(s, StartRemoval(o)))
  {
    hide Shape;
    MoveTask(s.running, s.removing, s.claimed, o);
    SameSum(s.claimed, s.running, s.removing);
    SameSum(s.claimed, s.running - multiset{o}, s.removing + multiset{o});
  }

  lemma RemovalMoves(s: System, o: Object, removed: bool)
    requires Enabled(s, FinishRemoval(o, removed))
    ensures Ended(s, o, removed, Apply(s, FinishRemoval(o, removed)))
  {
    hide Shape, Finish;
    MoveTask(s.removing, s.claimed, s.running, o);
    SameSum(s.claimed, s.running, s.removing);
    SameSum(s.claimed, s.running, s.removing - multiset{o});
  }

  lemma HandedOnKeeps(s: System, t: System)
    requires Inv(s) && HandedOn(s, t)
    ensures Inv(t)
  {
    hide Shape, Tasks, Owned, Bounded, LatestNewest, Handoffs, Honoured, Counting;
  }

  lemma EndedKeeps(s: System, o: Object, removed: bool, t: System)
    requires Inv(s) && Ended(s, o, removed, t)
    ensures Inv(t)
  {
    hide Inv, Tasks, Finish;
    FinishKeeps(s, o, removed, t);
  }

  lemma CleanupStepKeeps(s: System, step: Step)
    requires Inv(s) && Enabled(s, step)
    requires step.ScheduleCleanup? || step.CancelCleanup? || step.StartRemoval? || step.FinishRemoval?
    ensures Inv(Apply(s, step))
  {
    hide Inv, Enabled, Apply, HandedOn, Ended;
    var t := Apply(s, step);
    match step
    case ScheduleCleanup(o) =>
      ScheduleMoves(s, o);
      if s.core.closed { EndedKeeps(s, o, false, t); } else { HandedOnKeeps(s, t); }
    case CancelCleanup(o) =>
      CancelMoves(s, o);
      EndedKeeps(s, o, false, t);
    case StartRemoval(o) =>
      StartMoves(s, o);
      HandedOnKeeps(s, t);
    case FinishRemoval(o, removed) =>
      RemovalMoves(s, o, removed);
      EndedKeeps(s, o, removed, t);
  }

  // ---- retiring ----

  /** The latest artifact is never a victim. */
  lemma LatestNeverRetired(c: Core, now: nat, registered: set<Root>)
    requires Shape(c) && LatestNewest(c, registered) && c.latest.Some?
    ensures !Victim(c, now, c.objects[c.latest.value].root.id)
  {
    var id := c.objects[c.latest.value].root.id;
    assert forall a :: !NewerPublished(c, id, a);
  }

  lemma MovedPublished(c: Core, now: nat, o: Object)
    requires Shape(c)
    ensures IsPublished(Moved(c, now), o) <==> IsPublished(c, o) && !Victim(c, now, c.objects[o].root.id)
  {
    hide BeyondRetention;
  }

  lemma MovedRetired(c: Core, now: nat, o: Object)
    requires Shape(c) && IsRetired(Moved(c, now), o)
    ensures IsRetired(c, o) || (IsPublished(c, o) && Victim(c, now, c.objects[o].root.id))
  {
    hide BeyondRetention;
  }

  lemma MovedObjects(c: Core, now: nat)
    requires Shape(c)
    ensures var m := Moved(c, now);
      && m.objects.Keys == c.objects.Keys && m.latest == c.latest && m.closed == c.closed
      && (forall o | o in c.objects :: m.objects[o] == c.objects[o] ||
            (c.objects[o].handoffUntil <= now && m.objects[o] == c.objects[o].(handoffUntil := 0, timer := false)))
      && (forall o | o in c.objects && IsPublished(c, o) && Victim(c, now, c.objects[o].root.id) :: m.objects[o].handoffUntil == 0)
  {
    hide BeyondRetention, NewerPublished;
  }

  lemma MovedMaps(c: Core, now: nat)
    requires Shape(c)
    ensures var m := Moved(c, now);
      && m.published.Keys + m.retired.Keys == c.published.Keys + c.retired.Keys
      && (forall id | id in m.published :: id in c.published && m.published[id] == c.published[id])
      && (forall id | id in m.retired :: m.retired[id] in c.objects && c.objects[m.retired[id]].root.id == id)
  {
    hide BeyondRetention, NewerPublished;
  }

  lemma MovedDisjoint(c: Core, now: nat, o: Object)
    requires Shape(c)
    ensures !(IsPublished(Moved(c, now), o) && IsRetired(Moved(c, now), o))
  {
    MovedPublished(c, now, o);
    if IsRetired(Moved(c, now), o) { MovedRetired(c, now, o); }
    hide Moved, Victim;
  }

  lemma MovedShape(c: Core, now: nat)
    requires Shape(c)
    requires c.latest.Some? ==> !Victim(c, now, c.objects[c.latest.value].root.id)
    ensures Shape(Moved(c, now))
  {
    hide Moved, Victim, IsPublished, IsRetired;
    var m := Moved(c, now);
    MovedObjects(c, now);
    MovedMaps(c, now);
    assert forall o | o in c.objects :: m.objects[o].root == c.objects[o].root;
    assert forall id | id in m.published :: m.published[id] in m.objects && m.objects[m.published[id]].root.id == id;
    if c.latest.Some? { MovedPublished(c, now, c.latest.value); }
    forall o ensures !(IsPublished(m, o) && IsRetired(m, o)) { MovedDisjoint(c, now, o); }
  }

  lemma ClaimedObjects(c: Core, os: set<Object>)
    ensures SameRoots(c, Claimed(c, os)) && Claimed(c, os).closed == c.closed
    ensures forall o | o in c.objects :: Claimed(c, os).objects[o] == if o in os then c.objects[o].(cleanup := true) else c.objects[o]
  {
  }

  /** A prune claims exactly the idle retired objects, once each. */
  lemma PruneOwned(c: Core, m: Core, tasks: multiset<Object>)
    requires Owned(c, tasks) && Shape(m) && SameMarks(c.objects, m.objects)
    requires forall o | o in m.objects && IsPublished(m, o) :: IsPublished(c, o)
    requires forall o | o in m.objects && IsRetired(m, o) :: IsRetired(c, o) || IsPublished(c, o)
    ensures Owned(Claimed(m, Claims(m)), tasks + multiset(Claims(m)))
  {
    var os := Claims(m);
    ClaimedObjects(m, os);
    SameRootsShape(m, Claimed(m, os));
    assert forall o | o in os :: !IsPublished(m, o);
    hide Claimed, Shape, IsPublished, IsRetired;
  }

  lemma MovedBounded(c: Core, now: nat, publishing: Option<Bytes>)
    requires Shape(c) && Bounded(c, publishing)
    ensures Bounded(Moved(c, now), publishing)
  {
    var m := Moved(c, now);
    MovedMaps(c, now);
    hide *;
    SameIds(c, m, publishing);
  }

  lemma SameIds(c: Core, m: Core, publishing: Option<Bytes>)
    requires m.published.Keys + m.retired.Keys == c.published.Keys + c.retired.Keys && Bounded(c, publishing)
    ensures Bounded(m, publishing)
  {
    assert Ids(m, publishing) == Ids(c, publishing);
  }

  lemma MovedLatest(c: Core, now: nat, registered: set<Root>)
    requires Shape(c) && LatestNewest(c, registered)
    ensures LatestNewest(Moved(c, now), registered)
  {
    MovedObjects(c, now);
    MovedMaps(c, now);
    hide Moved, Victim, Shape, Newer, IsPublished, IsRetired;
  }

  lemma MovedHandoffs(c: Core, now: nat, horizon: nat, grants: set<Grant>)
    requires Shape(c) && Handoffs(c, horizon) && Honoured(c, now, grants)
    ensures Handoffs(Moved(c, now), horizon) && Honoured(Moved(c, now), now, grants)
  {
    var m := Moved(c, now);
    MovedObjects(c, now);
    forall o | o in m.objects ensures IsPublished(m, o) <==> IsPublished(c, o) && !Victim(c, now, c.objects[o].root.id) {
      MovedPublished(c, now, o);
    }
    hide Moved, Shape, Victim, IsPublished;
  }

  lemma ClaimedHandoffs(c: Core, os: set<Object>, now: nat, horizon: nat, grants: set<Grant>)
    requires Handoffs(c, horizon) && Honoured(c, now, grants)
    ensures Handoffs(Claimed(c, os), horizon) && Honoured(Claimed(c, os), now, grants)
  {
    ClaimedObjects(c, os);
    SameRootsShape(c, Claimed(c, os));
    hide Claimed, Shape, IsPublished;
  }

  lemma MovedOwners(c: Core, now: nat)
    requires Shape(c)
    ensures var m := Moved(c, now);
      && SameMarks(c.objects, m.objects)
      && (forall o | o in m.objects && IsPublished(m, o) :: IsPublished(c, o))
      && (forall o | o in m.objects && IsRetired(m, o) :: IsRetired(c, o) || IsPublished(c, o))
  {
    var m := Moved(c, now);
    MovedObjects(c, now);
    forall o | o in m.objects ensures IsPublished(m, o) ==> IsPublished(c, o) { MovedPublished(c, now, o); }
    forall o | o in m.objects && IsRetired(m, o) ensures IsRetired(c, o) || IsPublished(c, o) { MovedRetired(c, now, o); }
    hide Moved, Shape, Victim, IsPublished, IsRetired;
  }

  lemma RetireCounts(c: Core, now: nat, handles: map<nat, Object>)
    requires Shape(c) && Counting(c.objects, handles)
    ensures Counting(Retire(c, now).0.objects, handles)
  {
    if !c.closed {
      MovedObjects(c, now);
      ClaimedObjects(Moved(c, now), Claims(Moved(c, now)));
      hide Moved, Shape, Victim, IsPublished, IsRetired, Claims, Claimed;
    }
  }

  lemma PruneKeeps(s: System)
    requires Inv(s)
    ensures Inv(Apply(s, Prune))
  {
    hide Moved, Claimed, Claims, Victim, Shape, IsPublished, IsRetired, LatestNewest, Bounded, Counting, Honoured, Handoffs, Owned;
    if s.core.closed {
      assert Tasks(Apply(s, Prune)) == Tasks(s);
    } else {
      var c := s.core;
      var m := Moved(c, s.now);
      var os := Claims(m);
      if c.latest.Some? { LatestInHeap(c, s.registered); LatestNeverRetired(c, s.now, s.registered); }
      MovedShape(c, s.now);
      MovedLatest(c, s.now, s.registered);
      MovedBounded(c, s.now, s.publishing);
      MovedHandoffs(c, s.now, s.now + s.lifetime, s.grants);
      MovedOwners(c, s.now);
      PruneOwned(c, m, Tasks(s));
      ClaimedHandoffs(m, os, s.now, s.now + s.lifetime, s.grants);
      RetireCounts(c, s.now, s.handles);
      ClaimedObjects(m, os);
      hide SameRoots;
      SameRootsKeeps(s.(core := m), Apply(s, Prune));
      assert Tasks(Apply(s, Prune)) == Tasks(s) + multiset(os);
    }
  }

  lemma LatestInHeap(c: Core, registered: set<Root>)
    requires LatestNewest(c, registered) && c.latest.Some?
    ensures c.latest.value in c.objects
  {
  }

  // ---- publishing ----

  lemma BeginPublishKeeps(s: System, id: Bytes)
    requires Inv(s) && Enabled(s, BeginPublish(id))
    ensures Inv(Apply(s, BeginPublish(id)))
  {
    hide Shape, IsPublished, IsRetired, LatestNewest, Counting, Honoured, Handoffs, Owned, Bounded;
    BoundedBegin(s.core, id);
  }

  lemma BoundedBegin(c: Core, id: Bytes)
    requires HasCapacity(c, id) && Bounded(c, None)
    ensures Bounded(c, Some(id))
  {
    if id in c.published {
      assert Ids(c, Some(id)) == Ids(c, None);
    } else {
      assert c.retired == map[];
      assert Ids(c, Some(id)) == c.published.Keys + {id};
      assert |c.published.Keys| == |c.published|;
    }
  }

  lemma BoundedAbort(c: Core, publishing: Option<Bytes>)
    requires Bounded(c, publishing)
    ensures Bounded(c, None)
  {
    SubsetSize(Ids(c, None), Ids(c, publishing));
  }

  lemma AbortKeeps(s: System)
    requires Inv(s)
    ensures Inv(s.(publishing := None))
  {
    hide Shape, IsPublished, IsRetired, LatestNewest, Counting, Honoured, Handoffs, Owned, Bounded;
    BoundedAbort(s.core, s.publishing);
  }

  ghost function Add(c: Core, root: Root, added: Object): Core {
    Put(c, added, Artifact(root, 0, 0, false, false)).(published := c.published[root.id := added])
  }

  lemma AddPlaces(c: Core, root: Root, added: Object)
    requires Shape(c) && added !in c.objects && root.id !in c.published
    ensures var d := Add(c, root, added);
      && Shape(d)
      && (forall o :: IsPublished(d, o) <==> IsPublished(c, o) || o == added)
      && (forall o :: IsRetired(d, o) <==> IsRetired(c, o))
  {
    var d := Add(c, root, added);
    forall o ensures IsPublished(d, o) <==> IsPublished(c, o) || o == added {}
    forall o ensures IsRetired(d, o) <==> IsRetired(c, o) {}
  }

  lemma AddObjects(c: Core, root: Root, added: Object)
    requires added !in c.objects
    ensures var d := Add(c, root, added);
      && d.objects.Keys == c.objects.Keys + {added} && d.closed == c.closed
      && (forall o | o in c.objects :: d.objects[o] == c.objects[o])
      && d.objects[added] == Artifact(root, 0, 0, false, false)
      && !IsRetired(c, added)
  {
  }

  lemma AddOwned(c: Core, root: Root, added: Object, tasks: multiset<Object>)
    requires Shape(c) && added !in c.objects && root.id !in c.published && Owned(c, tasks)
    ensures Owned(Add(c, root, added), tasks)
  {
    AddPlaces(c, root, added);
    AddObjects(c, root, added);
    hide Shape, IsPublished, IsRetired, Add;
  }

  lemma AddHandoffs(c: Core, root: Root, added: Object, horizon: nat)
    requires Shape(c) && added !in c.objects && root.id !in c.published && Handoffs(c, horizon)
    ensures Handoffs(Add(c, root, added), horizon)
  {
    AddPlaces(c, root, added);
    AddObjects(c, root, added);
    hide Shape, IsPublished, IsRetired, Add;
  }

  lemma AddCounts(c: Core, root: Root, added: Object, handles: map<nat, Object>, now: nat, grants: set<Grant>)
    requires added !in c.objects && Counting(c.objects, handles) && Honoured(c, now, grants)
    ensures Counting(Add(c, root, added).objects, handles) && Honoured(Add(c, root, added), now, grants)
  {
    assert Holders(handles, added) == {};
  }

  lemma AddBounded(c: Core, root: Root, added: Object)
    requires Bounded(c, Some(root.id))
    ensures Bounded(Add(c, root, added), None)
  {
    SubsetSize(Ids(Add(c, root, added), None), Ids(c, Some(root.id)));
  }

  /** Registering picks the newer of the old latest and the new artifact. */
  lemma RegisterLatest(c: Core, root: Root, added: Object, registered: set<Root>)
    requires Shape(c) && LatestNewest(c, registered) && added !in c.objects && Register(c, root, added).1
    ensures var d := Register(c, root, added).0;
      LatestNewest(d, registered + {root}) && d.latest.Some? && IsPublished(d, d.latest.value)
  {
    NewerStrict(root, root);
    if c.latest.Some? {
      var newest := c.objects[c.latest.value].root;
      forall r | r in registered && Newer(root, newest) ensures !Newer(r, root) { NewerNegated(root, newest, r); }
    }
    hide Newer;
  }

  /** The parts of the invariant in which `latest` plays no role. */
  ghost predicate Rest(s: System) {
    && Shape(s.core)
    && Counting(s.core.objects, s.handles)
    && Owned(s.core, Tasks(s))
    && Handoffs(s.core, s.now + s.lifetime)
    && Honoured(s.core, s.now, s.grants)
    && Bounded(s.core, s.publishing)
  }

  lemma AddKeeps(s: System, root: Root, added: Object)
    requires Inv(s) && added !in s.core.objects && s.publishing == Some(root.id) && root.id !in s.core.published
    ensures Rest(s.(core := Add(s.core, root, added), publishing := None))
  {
    hide Shape, IsPublished, IsRetired, LatestNewest, Counting, Honoured, Handoffs, Owned, Bounded, Add;
    AddPlaces(s.core, root, added);
    AddOwned(s.core, root, added, Tasks(s));
    AddHandoffs(s.core, root, added, s.now + s.lifetime);
    AddCounts(s.core, root, added, s.handles, s.now, s.grants);
    AddBounded(s.core, root, added);
  }

  lemma RelabelPlaces(c: Core, o: Object)
    requires Shape(c) && IsPublished(c, o)
    ensures Shape(c.(latest := Some(o)))
    ensures forall p :: (IsPublished(c.(latest := Some(o)), p) <==> IsPublished(c, p)) && (IsRetired(c.(latest := Some(o)), p) <==> IsRetired(c, p))
  {
    var d := c.(latest := Some(o));
    forall p ensures (IsPublished(d, p) <==> IsPublished(c, p)) && (IsRetired(d, p) <==> IsRetired(c, p)) {}
  }

  lemma RelabelOwned(c: Core, o: Object, tasks: multiset<Object>, horizon: nat)
    requires Shape(c) && IsPublished(c, o) && Owned(c, tasks) && Handoffs(c, horizon)
    ensures Owned(c.(latest := Some(o)), tasks) && Handoffs(c.(latest := Some(o)), horizon)
  {
    RelabelPlaces(c, o);
    hide Shape, IsPublished, IsRetired;
  }

  lemma RelabelOthers(c: Core, o: Object, now: nat, grants: set<Grant>, publishing: Option<Bytes>)
    requires Honoured(c, now, grants) && Bounded(c, publishing)
    ensures Honoured(c.(latest := Some(o)), now, grants) && Bounded(c.(latest := Some(o)), publishing)
  {
    assert Ids(c.(latest := Some(o)), publishing) == Ids(c, publishing);
  }

  /** Moving `latest` to a published artifact disturbs nothing else. */
  lemma Relabel(c: Core, o: Object, s: System)
    requires Rest(s) && s.core == c && IsPublished(c, o)
    ensures Rest(s.(core := c.(latest := Some(o))))
  {
    RelabelPlaces(c, o);
    RelabelOwned(c, o, Tasks(s), s.now + s.lifetime);
    RelabelOthers(c, o, s.now, s.grants, s.publishing);
    hide Shape, IsPublished, IsRetired, Counting, Honoured, Handoffs, Owned, Bounded;
  }

  lemma SamePublished(c: Core, d: Core, o: Object)
    requires d == c.(latest := d.latest) && IsPublished(d, o)
    ensures IsPublished(c, o)
  {
  }

  lemma RegisterKeeps(s: System, root: Root, added: Object)
    requires Inv(s) && Enabled(s, RegisterArtifact(root, added))
    ensures Inv(Apply(s, RegisterArtifact(root, added)))
  {
    hide IsPublished, IsRetired, LatestNewest, Counting, Honoured, Handoffs, Owned, Bounded, Newer;
    var t := Apply(s, RegisterArtifact(root, added));
    AbortKeeps(s);
    assert Shape(s.core) && (s.core.latest.Some? ==> s.core.latest.value in s.core.objects) by { ShapeHeap(s.core); }
    if Register(s.core, root, added).1 {
      RegisterLatest(s.core, root, added, s.registered);
      var base := if root.id in s.core.published then s.core else Add(s.core, root, added);
      if root.id !in s.core.published { AddKeeps(s, root, added); }
      var u := s.(core := base, publishing := None);
      assert t.core == base.(latest := t.core.latest);
      hide Register, Shape;
      SamePublished(base, t.core, t.core.latest.value);
      Relabel(base, t.core.latest.value, u);
      assert Tasks(t) == Tasks(u);
    }
  }

  lemma ShapeHeap(c: Core)
    requires Shape(c)
    ensures c.latest.Some? ==> c.latest.value in c.objects
  {
  }

  lemma CloseObjects(c: Core, horizon: nat, now: nat, grants: set<Grant>)
    requires Handoffs(c, horizon) && Honoured(c, now, grants)
    ensures SameRoots(c, BeginClose(c)) && SameMarks(c.objects, BeginClose(c).objects)
    ensures Handoffs(BeginClose(c), horizon) && Honoured(BeginClose(c), now, grants)
  {
    hide IsPublished;
  }

  lemma CloseKeeps(s: System)
    requires Inv(s) && Enabled(s, Close)
    ensures Inv(Apply(s, Close))
  {
    hide BeginClose, IsPublished, IsRetired, LatestNewest, Counting, Honoured, Handoffs, Owned, Bounded, Shape, SameRoots, SameMarks;
    CloseObjects(s.core, s.now + s.lifetime, s.now, s.grants);
    SameRootsKeeps(s, Apply(s, Close));
    SameMarksKeeps(s.core, BeginClose(s.core), Tasks(s), s.handles);
  }

  lemma StepKeeps(s: System, step: Step)
    requires Inv(s) && Enabled(s, step)
    ensures Inv(Apply(s, step)) && Apply(s, step).lifetime == s.lifetime
  {
    hide Inv;
    match step
    case Tick(to) => TickKeeps(s, to);
    case LatestSnapshot => LatestKeeps(s);
    case ExpireHandoff(o) => ExpireKeeps(s, o);
    case Prune => PruneKeeps(s);
    case ScheduleCleanup(o) => CleanupStepKeeps(s, step);
    case CancelCleanup(o) => CleanupStepKeeps(s, step);
    case StartRemoval(o) => CleanupStepKeeps(s, step);
    case FinishRemoval(o, removed) => CleanupStepKeeps(s, step);
    case OpenTransfer(root, handle) => OpenKeeps(s, root, handle);
    case CloseTransfer(handle) => CloseTransferKeeps(s, handle);
    case BeginPublish(id) => BeginPublishKeeps(s, id);
    case AbortPublish => AbortKeeps(s);
    case RegisterArtifact(root, added) => RegisterKeeps(s, root, added);
    case Close => CloseKeeps(s);
  }

  lemma {:induction false} RunKeeps(s: System, steps: seq<Step>, t: System)
    requires Inv(s) && Run(s, steps, t)
    ensures Inv(t)
    decreases |steps|
  {
    hide Inv, Enabled, Apply;
    if steps != [] {
      StepKeeps(s, steps[0]);
      RunKeeps(Apply(s, steps[0]), steps[1..], t);
    }
  }
}
