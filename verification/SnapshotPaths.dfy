/** Safety of artifact directories. A directory is named by an artifact ID, so two objects with one
    ID share it. Republishing an ID that is still published but no longer among the two newest can
    put two objects on one directory; exactly then can a cleanup remove files under an open transfer. */
module SnapshotPaths {
  import opened Bytes
  import opened Wrappers
  import opened Mapping
  import opened SnapshotModel
  import opened SnapshotSafety
  import opened SnapshotTheorems

  /** No cleanup owns the directory of an open transfer. */
  ghost predicate PathSafe(s: System) {
    forall o, h | o in Tasks(s) && h in s.handles ::
      && o in s.core.objects && s.handles[h] in s.core.objects
      && s.core.objects[o].root.id != s.core.objects[s.handles[h]].root.id
  }

  /** Checkable before a publish: the ID is unpublished or among the two newest. */
  ghost predicate Careful(s: System, step: Step)
    requires Shape(s.core)
  {
    step.BeginPublish? && step.id in s.core.published ==> !BeyondRetention(s.core, step.id)
  }

  ghost predicate CarefulRun(s: System, steps: seq<Step>, t: System)
    decreases |steps|
  {
    if steps == [] then s == t
    else Enabled(s, steps[0]) && Careful(s, steps[0]) && CarefulRun(Apply(s, steps[0]), steps[1..], t)
  }

  ghost predicate Placed(c: Core, o: Object) {
    IsPublished(c, o) || IsRetired(c, o)
  }

  /** Every object in use is still in one of the maps. */
  ghost predicate InUsePlaced(c: Core, tasks: multiset<Object>, handles: map<nat, Object>) {
    && (forall o | o in tasks :: Placed(c, o))
    && (forall h | h in handles :: Placed(c, handles[h]))
  }

  ghost predicate OnePerId(c: Core) {
    c.published.Keys !! c.retired.Keys
  }

  /** An ID in flight is either unused or published and safe from retirement. */
  ghost predicate InFlight(c: Core, publishing: Option<Bytes>)
    requires Shape(c)
  {
    publishing.Some? ==>
      if publishing.value in c.published then !BeyondRetention(c, publishing.value) else publishing.value !in c.retired
  }

  ghost predicate PathInv(s: System) {
    Shape(s.core) && InUsePlaced(s.core, Tasks(s), s.handles) && OnePerId(s.core) && InFlight(s.core, s.publishing)
  }

  lemma SamePath(c: Core, o: Object, p: Object)
    requires OnePerId(c) && IsRetired(c, o) && Placed(c, p) && c.objects[o].root.id == c.objects[p].root.id
    ensures o == p
  {
  }

  lemma TaskRetired(s: System, o: Object)
    requires Inv(s) && PathInv(s) && o in Tasks(s)
    ensures o in s.core.objects && IsRetired(s.core, o) && s.core.objects[o].transfers == 0
  {
    hide Shape, Counting, LatestNewest, Handoffs, Honoured, Bounded, InFlight, IsPublished, IsRetired, Tasks;
    assert Placed(s.core, o);
  }

  lemma HolderPlaced(s: System, h: nat)
    requires Inv(s) && PathInv(s) && h in s.handles
    ensures s.handles[h] in s.core.objects && Placed(s.core, s.handles[h]) && s.core.objects[s.handles[h]].transfers > 0
  {
    hide Shape, LatestNewest, Handoffs, Honoured, Bounded, InFlight, IsPublished, IsRetired, Tasks, Owned;
    HolderCounted(s.core.objects, s.handles, h);
  }

  lemma PathInvSafe(s: System)
    requires Inv(s) && PathInv(s)
    ensures PathSafe(s)
  {
    hide Shape, Counting, LatestNewest, Handoffs, Honoured, Bounded, InFlight, InUsePlaced, IsRetired, IsPublished, Tasks, Owned, Inv, Placed;
    forall o, h | o in Tasks(s) && h in s.handles
      ensures o in s.core.objects && s.handles[h] in s.core.objects
      ensures s.core.objects[o].root.id != s.core.objects[s.handles[h]].root.id
    {
      TaskRetired(s, o);
      HolderPlaced(s, h);
      if s.core.objects[o].root.id == s.core.objects[s.handles[h]].root.id {
        SamePath(s.core, o, s.handles[h]);
      }
    }
  }

  // ---- careful steps keep the path invariant ----

  ghost predicate StillPlaced(c: Core, d: Core) {
    forall o | Placed(c, o) :: Placed(d, o)
  }

  lemma SameRootsPaths(c: Core, d: Core, publishing: Option<Bytes>)
    requires SameRoots(c, d) && Shape(c) && InFlight(c, publishing) && OnePerId(c)
    ensures Shape(d) && StillPlaced(c, d) && InFlight(d, publishing) && OnePerId(d)
  {
    SameRootsShape(c, d);
    if publishing.Some? && publishing.value in c.published { SameRootsBeyond(c, d, publishing.value); }
    forall o | Placed(c, o) ensures Placed(d, o) { assert o in c.objects; }
    hide BeyondRetention, IsPublished, IsRetired, Shape;
  }

  lemma SameRootsBeyond(c: Core, d: Core, id: Bytes)
    requires SameRoots(c, d) && Shape(c) && Shape(d) && id in c.published
    ensures BeyondRetention(c, id) <==> BeyondRetention(d, id)
  {
    hide Newer, IsPublished, IsRetired;
    forall a ensures NewerPublished(c, id, a) <==> NewerPublished(d, id, a) {}
    hide NewerPublished;
  }

  lemma FinishPaths(c: Core, o: Object, removed: bool, publishing: Option<Bytes>)
    requires o in c.objects && Shape(c) && InFlight(c, publishing) && OnePerId(c)
    ensures var d := Finish(c, o, removed);
      && Shape(d) && InFlight(d, publishing) && OnePerId(d)
      && forall p | Placed(c, p) && p != o :: Placed(d, p)
  {
    var d := Finish(c, o, removed);
    if IsRetired(c, o) {
      FinishPlaces(c, o, removed);
      var e := Put(c, o, c.objects[o].(cleanup := false));
      PutRoot(c, o, e.objects[o]);
      SameRootsShape(c, e);
      if publishing.Some? && publishing.value in c.published {
        SameRootsBeyond(c, e, publishing.value);
        SamePublishedBeyond(e, d, publishing.value);
      }
      hide BeyondRetention, IsPublished, IsRetired, Shape;
    }
  }

  lemma SamePublishedBeyond(c: Core, d: Core, id: Bytes)
    requires Shape(c) && Shape(d) && d.published == c.published && d.objects == c.objects && id in c.published
    ensures BeyondRetention(c, id) <==> BeyondRetention(d, id)
  {
    hide Newer, IsPublished, IsRetired;
    forall a ensures NewerPublished(c, id, a) <==> NewerPublished(d, id, a) {}
    hide NewerPublished;
  }

  lemma MovedBeyond(c: Core, now: nat, id: Bytes)
    requires Shape(c) && Shape(Moved(c, now)) && id in c.published && !BeyondRetention(c, id)
    ensures id in Moved(c, now).published && !BeyondRetention(Moved(c, now), id)
  {
    var m := Moved(c, now);
    assert !Victim(c, now, id);
    assert id in m.published;
    MovedObjects(c, now);
    MovedMaps(c, now);
    hide Moved, Newer, IsPublished, IsRetired, Victim;
    forall a | NewerPublished(m, id, a) ensures NewerPublished(c, id, a) {}
    hide NewerPublished;
  }

  /** With one object per ID, retiring overwrites nothing. */
  lemma MovedStillPlaced(c: Core, now: nat, o: Object)
    requires Shape(c) && OnePerId(c) && Placed(c, o)
    ensures Placed(Moved(c, now), o)
  {
    hide BeyondRetention;
  }

  lemma MovedKeys(c: Core, now: nat)
    requires Shape(c) && OnePerId(c)
    ensures OnePerId(Moved(c, now))
    ensures Moved(c, now).retired.Keys <= c.retired.Keys + c.published.Keys
    ensures forall id | id in Moved(c, now).published :: id in c.published
  {
    hide BeyondRetention;
  }

  lemma MovedPaths(c: Core, now: nat, publishing: Option<Bytes>)
    requires Shape(c) && Shape(Moved(c, now)) && InFlight(c, publishing) && OnePerId(c)
    ensures var m := Moved(c, now); StillPlaced(c, m) && InFlight(m, publishing) && OnePerId(m)
  {
    var m := Moved(c, now);
    MovedKeys(c, now);
    if publishing.Some? && publishing.value in c.published { MovedBeyond(c, now, publishing.value); }
    hide BeyondRetention, IsPublished, IsRetired, Shape, Moved;
    forall o | Placed(c, o) ensures Placed(m, o) { MovedStillPlaced(c, now, o); }
  }

  lemma PrunePaths(s: System)
    requires Inv(s) && PathInv(s) && Enabled(s, Prune)
    ensures PathInv(Apply(s, Prune))
  {
    hide Moved, Claimed, Claims, Victim, Shape, IsPublished, IsRetired, LatestNewest, Bounded, Counting, Honoured, Handoffs, Owned, InFlight, OnePerId, StillPlaced, SameRoots, Placed, InUsePlaced;
    if s.core.closed {
      assert Tasks(Apply(s, Prune)) == Tasks(s);
    } else {
      var c := s.core;
      var m := Moved(c, s.now);
      var os := Claims(m);
      if c.latest.Some? { LatestInHeap(c, s.registered); LatestNeverRetired(c, s.now, s.registered); }
      MovedShape(c, s.now);
      MovedPaths(c, s.now, s.publishing);
      ClaimedObjects(m, os);
      SameRootsPaths(m, Claimed(m, os), s.publishing);
      ClaimsPlaced(m, Claimed(m, os));
      assert Tasks(Apply(s, Prune)) == Tasks(s) + multiset(os);
      MoreInUse(c, m, Claimed(m, os), Tasks(s), multiset(os), s.handles);
    }
  }

  lemma ClaimsPlaced(m: Core, d: Core)
    requires StillPlaced(m, d)
    ensures forall o | o in Claims(m) :: Placed(d, o)
  {
    hide IsPublished, IsRetired;
  }

  lemma MoreInUse(c: Core, m: Core, d: Core, tasks: multiset<Object>, more: multiset<Object>, handles: map<nat, Object>)
    requires InUsePlaced(c, tasks, handles) && StillPlaced(c, m) && StillPlaced(m, d)
    requires forall o | o in more :: Placed(d, o)
    ensures InUsePlaced(d, tasks + more, handles)
  {
    hide Placed;
  }

  lemma AddPaths(c: Core, root: Root, added: Object)
    requires Shape(c) && OnePerId(c) && added !in c.objects && root.id !in c.published && root.id !in c.retired
    ensures StillPlaced(c, Add(c, root, added)) && OnePerId(Add(c, root, added)) && Shape(Add(c, root, added))
  {
    AddPlaces(c, root, added);
    hide IsPublished, IsRetired, Shape;
  }

  lemma RelabelPaths(c: Core, d: Core)
    requires d == c.(latest := d.latest) && OnePerId(c)
    ensures StillPlaced(c, d) && OnePerId(d)
  {
    forall o | Placed(c, o) ensures Placed(d, o) {}
  }

  lemma RegisterBase(c: Core, root: Root, added: Object)
    requires Shape(c)
    ensures var d := Register(c, root, added).0;
      d == c || d == (if root.id in c.published then c else Add(c, root, added)).(latest := d.latest)
  {
    hide Newer, IsPublished, IsRetired;
  }

  lemma RegisterCorePaths(c: Core, root: Root, added: Object, tasks: multiset<Object>, handles: map<nat, Object>)
    requires Shape(c) && OnePerId(c) && InFlight(c, Some(root.id)) && InUsePlaced(c, tasks, handles) && added !in c.objects
    ensures OnePerId(Register(c, root, added).0) && InUsePlaced(Register(c, root, added).0, tasks, handles)
  {
    var d := Register(c, root, added).0;
    var base := if root.id in c.published then c else Add(c, root, added);
    RegisterBase(c, root, added);
    hide IsPublished, IsRetired, BeyondRetention, InUsePlaced, StillPlaced, OnePerId, Register, Shape;
    if d != c {
      RelabelPaths(c, c);
      if root.id !in c.published { AddPaths(c, root, added); }
      RelabelPaths(base, d);
      MoreInUse(c, base, d, tasks, multiset{}, handles);
      assert tasks + multiset{} == tasks;
    }
  }

  lemma RegisterPaths(s: System, root: Root, added: Object)
    requires Inv(s) && PathInv(s) && Enabled(s, RegisterArtifact(root, added))
    ensures PathInv(Apply(s, RegisterArtifact(root, added)))
  {
    hide LatestNewest, Bounded, Counting, Honoured, Handoffs, Owned, InFlight, InUsePlaced, OnePerId, Register, Shape;
    RegisterKeeps(s, root, added);
    NothingInFlight(Apply(s, RegisterArtifact(root, added)).core);
    RegisterCorePaths(s.core, root, added, Tasks(s), s.handles);
  }

  lemma BeginPublishPaths(s: System, id: Bytes)
    requires PathInv(s) && Enabled(s, BeginPublish(id)) && Careful(s, BeginPublish(id))
    ensures PathInv(Apply(s, BeginPublish(id)))
  {
    hide Shape, InUsePlaced, BeyondRetention;
  }

  /** Steps that change one object's fields and neither map. */
  lemma RewritePaths(s: System, t: System)
    requires PathInv(s) && SameRoots(s.core, t.core) && t.publishing == s.publishing
    requires forall o | o in Tasks(t) :: o in Tasks(s) || Placed(s.core, o)
    requires forall h | h in t.handles :: (h in s.handles && t.handles[h] == s.handles[h]) || Placed(s.core, t.handles[h])
    ensures PathInv(t)
  {
    SameRootsPaths(s.core, t.core, s.publishing);
    hide Shape, Placed, InFlight, Tasks, SameRoots, OnePerId;
  }

  lemma FinishStepPaths(s: System, o: Object, removed: bool, t: System)
    requires PathInv(s) && o in Tasks(s) && o in s.core.objects && Inv(s)
    requires t == s.(core := Finish(s.core, o, removed), claimed := t.claimed, running := t.running, removing := t.removing)
    requires Tasks(t) == Tasks(s) - multiset{o}
    ensures PathInv(t)
  {
    hide Shape, Placed, InFlight, Tasks, OnePerId, Finish, Counting, LatestNewest, Handoffs, Honoured, Bounded, IsPublished, IsRetired;
    FinishPaths(s.core, o, removed, s.publishing);
    forall h | h in s.handles ensures s.handles[h] != o { HolderCounted(s.core.objects, s.handles, h); }
    assert o !in Tasks(t);
  }

  lemma HandedOnPaths(s: System, t: System)
    requires PathInv(s) && HandedOn(s, t)
    ensures PathInv(t)
  {
    hide Shape, Tasks, InUsePlaced, InFlight, OnePerId;
  }

  lemma EndedPaths(s: System, o: Object, removed: bool, t: System)
    requires Inv(s) && PathInv(s) && Ended(s, o, removed, t)
    ensures PathInv(t)
  {
    hide Inv, PathInv, Tasks, Finish;
    FinishStepPaths(s, o, removed, t);
  }

  lemma CleanupPaths(s: System, step: Step)
    requires Inv(s) && PathInv(s) && Enabled(s, step)
    requires step.ScheduleCleanup? || step.CancelCleanup? || step.StartRemoval? || step.FinishRemoval?
    ensures PathInv(Apply(s, step))
  {
    hide Inv, PathInv, Enabled, Apply, HandedOn, Ended;
    var t := Apply(s, step);
    match step
    case ScheduleCleanup(o) =>
      ScheduleMoves(s, o);
      if s.core.closed { EndedPaths(s, o, false, t); } else { HandedOnPaths(s, t); }
    case CancelCleanup(o) =>
      CancelMoves(s, o);
      EndedPaths(s, o, false, t);
    case StartRemoval(o) =>
      StartMoves(s, o);
      HandedOnPaths(s, t);
    case FinishRemoval(o, removed) =>
      RemovalMoves(s, o, removed);
      EndedPaths(s, o, removed, t);
  }

  lemma OneObjectPaths(s: System, step: Step)
    requires Inv(s) && PathInv(s) && Enabled(s, step) && (step.LatestSnapshot? || step.ExpireHandoff? || step.Tick? || step.AbortPublish?)
    ensures PathInv(Apply(s, step))
  {
    hide Counting, LatestNewest, Handoffs, Honoured, Bounded, Owned, InUsePlaced, InFlight, OnePerId, IsRetired, Placed;
    var t := Apply(s, step);
    if step.AbortPublish? {
      assert Tasks(t) == Tasks(s);
      NothingInFlight(s.core);
    } else {
      assert SameRoots(s.core, t.core);
      hide Shape, IsPublished;
      assert Tasks(t) == Tasks(s);
      RewritePaths(s, t);
    }
  }

  lemma NothingInFlight(c: Core)
    requires Shape(c)
    ensures InFlight(c, None)
  {
  }

  lemma OpenPaths(s: System, root: Root, handle: nat)
    requires Inv(s) && PathInv(s) && Enabled(s, OpenTransfer(root, handle))
    ensures PathInv(Apply(s, OpenTransfer(root, handle)))
  {
    hide Counting, LatestNewest, Handoffs, Honoured, Bounded, Owned, InUsePlaced, InFlight, OnePerId, IsPublished, IsRetired;
    var t := Apply(s, OpenTransfer(root, handle));
    if Open(s.core, root).1.Some? {
      PublishedAt(s.core, root.id);
      hide Shape;
      assert Tasks(t) == Tasks(s);
      RewritePaths(s, t);
    }
  }

  lemma CloseTransferPaths(s: System, handle: nat)
    requires Inv(s) && PathInv(s) && Enabled(s, CloseTransfer(handle))
    ensures PathInv(Apply(s, CloseTransfer(handle)))
  {
    hide Shape, LatestNewest, Handoffs, Honoured, Bounded, Owned, InUsePlaced, InFlight, OnePerId, Counting, Release, Placed, Tasks;
    var t := Apply(s, CloseTransfer(handle));
    var o := s.handles[handle];
    ReleaseScope(s.core, o);
    TaskOfRelease(s, handle);
    RewritePaths(s, t);
  }

  lemma ReleaseScope(c: Core, o: Object)
    requires o in c.objects
    ensures SameRoots(c, Release(c, o).0) && (Release(c, o).1 ==> Placed(c, o))
  {
    hide IsPublished;
  }

  lemma TaskOfRelease(s: System, handle: nat)
    requires Enabled(s, CloseTransfer(handle))
    ensures forall p | p in Tasks(Apply(s, CloseTransfer(handle))) ::
              p in Tasks(s) || (p == s.handles[handle] && Release(s.core, p).1)
  {
    hide Shape, Release;
  }

  lemma ClosePaths(s: System)
    requires Inv(s) && PathInv(s) && Enabled(s, Close)
    ensures PathInv(Apply(s, Close))
  {
    hide Shape, IsPublished, InUsePlaced, InFlight, OnePerId, Counting, LatestNewest, Handoffs, Honoured, Bounded, Owned, BeginClose, SameRoots, SameMarks, Placed;
    CloseObjects(s.core, s.now + s.lifetime, s.now, s.grants);
    RewritePaths(s, Apply(s, Close));
  }

  lemma StepPaths(s: System, step: Step)
    requires Inv(s) && PathInv(s) && Enabled(s, step) && Careful(s, step)
    ensures PathInv(Apply(s, step))
  {
    hide Inv, PathInv;
    match step
    case Tick(to) => OneObjectPaths(s, step);
    case LatestSnapshot => OneObjectPaths(s, step);
    case ExpireHandoff(o) => OneObjectPaths(s, step);
    case Prune => PrunePaths(s);
    case ScheduleCleanup(o) => CleanupPaths(s, step);
    case CancelCleanup(o) => CleanupPaths(s, step);
    case StartRemoval(o) => CleanupPaths(s, step);
    case FinishRemoval(o, removed) => CleanupPaths(s, step);
    case OpenTransfer(root, handle) => OpenPaths(s, root, handle);
    case CloseTransfer(handle) => CloseTransferPaths(s, handle);
    case BeginPublish(id) => BeginPublishPaths(s, id);
    case AbortPublish => OneObjectPaths(s, step);
    case RegisterArtifact(root, added) => RegisterPaths(s, root, added);
    case Close => ClosePaths(s);
  }

  lemma {:induction false} CarefulRunKeeps(s: System, steps: seq<Step>, t: System)
    requires Inv(s) && PathInv(s) && CarefulRun(s, steps, t)
    ensures Inv(t) && PathInv(t)
    decreases |steps|
  {
    hide Inv, PathInv, Enabled, Apply, Careful;
    if steps != [] {
      StepKeeps(s, steps[0]);
      StepPaths(s, steps[0]);
      CarefulRunKeeps(Apply(s, steps[0]), steps[1..], t);
    }
  }

  /** If no publish reuses an ID that is published beyond the two newest, no directory is ever
      removed under an open transfer. */
  lemma CarefulRunsArePathSafe(s: System, steps: seq<Step>, t: System)
    requires Opened(s) && CarefulRun(s, steps, t)
    ensures PathSafe(t)
  {
    hide *;
    OpenedInv(s);
    OpenedPaths(s);
    CarefulRunKeeps(s, steps, t);
    PathInvSafe(t);
  }

  lemma OpenedPaths(s: System)
    requires Opened(s)
    ensures PathInv(s)
  {
    hide LatestNewest, Shape;
    NothingInFlight(s.core);
  }
}
