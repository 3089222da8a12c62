/** The daemon's publisher, the only caller of publish: it asks for capacity for a new artifact before each publish, and
    one publication follows another. Its runs need no condition on artifact IDs. */
module SnapshotPublisher {
  import opened Bytes
  import opened Wrappers
  import opened Mapping
  import opened SnapshotModel
  import opened SnapshotSafety
  import opened SnapshotTheorems
  import opened SnapshotPaths

  /** The system together with the publisher: `admitted` between a granted request for capacity and
      the publish it was made for. */
  datatype Daemon = Daemon(system: System, admitted: bool)

  datatype Act = Admit | GiveUp | Do(step: Step)

  /** requireNewSnapshotPublicationCapacity asks for the empty ID, which no artifact has. */
  ghost predicate CanAct(d: Daemon, act: Act) {
    match act
    case Admit => Shape(d.system.core) && d.system.publishing.None? && !d.admitted && HasCapacity(d.system.core, [])
    case GiveUp => d.admitted
    case Do(step) => Enabled(d.system, step) && (step.BeginPublish? ==> d.admitted)
  }

  ghost function Perform(d: Daemon, act: Act): Daemon
    requires CanAct(d, act)
  {
    match act
    case Admit => d.(admitted := true)
    case GiveUp => d.(admitted := false)
    case Do(step) => Daemon(Apply(d.system, step), d.admitted && !step.BeginPublish?)
  }

  ghost predicate DaemonRun(d: Daemon, acts: seq<Act>, e: Daemon)
    decreases |acts|
  {
    if acts == [] then d == e else CanAct(d, acts[0]) && DaemonRun(Perform(d, acts[0]), acts[1..], e)
  }

  /** The repository's own steps in a run of the daemon. */
  function Steps(acts: seq<Act>): seq<Step> {
    if acts == [] then [] else (if acts[0].Do? then [acts[0].step] else []) + Steps(acts[1..])
  }

  /** While the publisher is admitted at most two artifacts are published, and no artifact has the empty ID. */
  ghost predicate Admitted(d: Daemon) {
    && [] !in d.system.core.published
    && (d.system.publishing.Some? ==> d.system.publishing.value != [])
    && (d.admitted ==> d.system.publishing.None? && |d.system.core.published.Keys| <= RETENTION)
  }

  lemma PruneShrinks(c: Core, now: nat)
    requires Shape(c)
    ensures Retire(c, now).0.published.Keys <= c.published.Keys
  {
    hide Shape, Moved, Claimed, Claims;
    MovedMaps(c, now);
    ClaimedObjects(Moved(c, now), Claims(Moved(c, now)));
  }

  lemma RegisterGrows(c: Core, root: Root, added: Object)
    requires Shape(c)
    ensures Register(c, root, added).0.published.Keys <= c.published.Keys + {root.id}
  {
    hide Newer, IsPublished, IsRetired;
  }

  /** Only registering a publication in flight adds a published ID. */
  lemma PublishedShrinks(s: System, step: Step)
    requires Enabled(s, step)
    ensures Apply(s, step).core.published.Keys <=
            s.core.published.Keys + (if step.RegisterArtifact? then {step.root.id} else {})
  {
    hide Shape, Retire, Register, Latest, Expire, Open, Release, Finish, BeginClose, HasCapacity;
    var c := s.core;
    match step
    case Prune => PruneShrinks(c, s.now);
    case RegisterArtifact(root, added) => RegisterGrows(c, root, added);
    case LatestSnapshot => ClientsPublishNothing(c, s.now, s.lifetime, Root(0, 0, [], 0));
    case OpenTransfer(root, _) => ClientsPublishNothing(c, s.now, s.lifetime, root);
    case ExpireHandoff(o) => ObjectsPublishNothing(c, s.now, o, false);
    case CloseTransfer(h) => ObjectsPublishNothing(c, s.now, s.handles[h], false);
    case ScheduleCleanup(o) => ObjectsPublishNothing(c, s.now, o, false);
    case CancelCleanup(o) => ObjectsPublishNothing(c, s.now, o, false);
    case FinishRemoval(o, removed) => ObjectsPublishNothing(c, s.now, o, removed);
    case Close => ClosePublishesNothing(c);
    case _ =>
  }

  lemma ClientsPublishNothing(c: Core, now: nat, lifetime: nat, root: Root)
    requires Shape(c)
    ensures c.latest.Some? ==> c.latest.value in c.objects
    ensures Latest(c, now, lifetime).0.published == c.published && Open(c, root).0.published == c.published
  {
    hide IsRetired;
  }

  lemma ObjectsPublishNothing(c: Core, now: nat, o: Object, removed: bool)
    requires o in c.objects
    ensures Expire(c, now, o).published == c.published && Release(c, o).0.published == c.published
    ensures Finish(c, o, removed).published == c.published
  {
    hide IsRetired;
  }

  lemma ClosePublishesNothing(c: Core)
    ensures BeginClose(c).published == c.published
  {
  }

  lemma PublishingChanges(s: System, step: Step)
    requires Enabled(s, step)
    ensures step.BeginPublish? ==> Apply(s, step).publishing == Some(step.id)
    ensures !step.BeginPublish? ==> Apply(s, step).publishing == s.publishing || Apply(s, step).publishing.None?
  {
    hide Shape, Retire, Register, Latest, Expire, Open, Release, Finish, BeginClose, HasCapacity;
  }

  lemma ActKeeps(d: Daemon, act: Act)
    requires Admitted(d) && CanAct(d, act)
    ensures Admitted(Perform(d, act))
  {
    match act
    case Admit =>
      assert |d.system.core.published.Keys| == |d.system.core.published|;
    case GiveUp =>
    case Do(step) =>
      PublishedShrinks(d.system, step);
      PublishingChanges(d.system, step);
      var after := Apply(d.system, step);
      assert step.RegisterArtifact? ==> d.system.publishing == Some(step.root.id);
      assert step.BeginPublish? ==> step.id != [];
      hide Enabled, Apply;
      if !step.RegisterArtifact? { SubsetSize(after.core.published.Keys, d.system.core.published.Keys); }
  }

  /** With at most two published artifacts every ID is among the two newest. */
  lemma TwoAreNewest(c: Core, id: Bytes)
    requires Shape(c) && |c.published.Keys| <= RETENTION && id in c.published
    ensures !BeyondRetention(c, id)
  {
    if BeyondRetention(c, id) {
      var a, b :| a != b && NewerPublished(c, id, a) && NewerPublished(c, id, b);
      var r := c.objects[c.published[id]].root;
      NewerStrict(r, r);
      assert |{a, b, id}| == 3;
      SubsetSize({a, b, id}, c.published.Keys);
    }
  }

  /** Every publish the daemon begins meets the condition that publish itself does not check. */
  lemma {:induction false} DaemonRunsAreCareful(d: Daemon, acts: seq<Act>, e: Daemon)
    requires Admitted(d) && DaemonRun(d, acts, e)
    ensures CarefulRun(d.system, Steps(acts), e.system)
    decreases |acts|
  {
    if acts != [] {
      var act := acts[0];
      ActKeeps(d, act);
      DaemonRunsAreCareful(Perform(d, act), acts[1..], e);
      if act.Do? {
        if act.step.BeginPublish? && act.step.id in d.system.core.published { TwoAreNewest(d.system.core, act.step.id); }
        hide Enabled, Apply, Admitted, BeyondRetention;
        assert ([act.step] + Steps(acts[1..]))[1..] == Steps(acts[1..]);
      } else {
        assert [] + Steps(acts[1..]) == Steps(acts[1..]);
      }
    }
  }

  /** In every run of the daemon no directory is removed under an open transfer. */
  lemma DaemonRunsArePathSafe(d: Daemon, acts: seq<Act>, e: Daemon)
    requires Opened(d.system) && !d.admitted && DaemonRun(d, acts, e)
    ensures PathSafe(e.system)
  {
    assert Admitted(d);
    hide Opened, DaemonRun, PathSafe, CarefulRun;
    DaemonRunsAreCareful(d, acts, e);
    CarefulRunsArePathSafe(d.system, Steps(acts), e.system);
  }
}
