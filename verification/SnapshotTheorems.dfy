/** What clients of the snapshot repository may rely on, over every run. */
module SnapshotTheorems {
  import opened Bytes
  import opened Wrappers
  import opened Mapping
  import opened SnapshotModel
  import opened SnapshotSafety

  /** A repository as a successful open leaves it. */
  ghost predicate Opened(s: System) {
    && Shape(s.core) && LatestNewest(s.core, s.registered)
    && |s.core.published| <= RETENTION && s.core.retired == map[] && !s.core.closed && [] !in s.core.published
    && (forall o | o in s.core.objects ::
          var a := s.core.objects[o]; a.transfers == 0 && a.handoffUntil == 0 && !a.timer && !a.cleanup)
    && s.handles == map[] && Tasks(s) == multiset{} && s.publishing.None? && s.grants == {}
  }

  lemma OpenedInv(s: System)
    requires Opened(s)
    ensures Inv(s)
  {
    hide LatestNewest, Shape, IsPublished;
    forall o ensures Holders(s.handles, o) == {} {}
    assert Ids(s.core, s.publishing) == s.core.published.Keys;
    assert |s.core.published.Keys| == |s.core.published|;
    assert Owned(s.core, Tasks(s)) by { NothingRetired(s.core); }
  }

  lemma NothingRetired(c: Core)
    requires c.retired == map[]
    ensures forall o :: !IsRetired(c, o)
  {
  }

  /** In every interleaving an object with an open transfer is owned by no cleanup, every counter
      is exact, and no object has two cleanups. */
  lemma OpenTransfersAreNeverRemoved(s: System, steps: seq<Step>, t: System)
    requires Opened(s) && Run(s, steps, t)
    ensures forall h | h in t.handles :: t.handles[h] in t.core.objects && t.handles[h] !in Tasks(t)
    ensures forall o | o in t.core.objects :: t.core.objects[o].transfers == |Holders(t.handles, o)|
    ensures forall o :: Tasks(t)[o] <= 1
  {
    OpenedInv(s);
    RunKeeps(s, steps, t);
    forall h | h in t.handles ensures t.handles[h] in t.core.objects && t.handles[h] !in Tasks(t) {
      HolderCounted(t.core.objects, t.handles, h);
    }
    hide Shape, LatestNewest, Handoffs, Honoured, Bounded, Tasks;
  }

  /** The latest artifact is the newest ever registered, published, and never retired. */
  lemma LatestIsNewest(s: System, steps: seq<Step>, t: System)
    requires Opened(s) && Run(s, steps, t)
    ensures t.core.latest.None? <==> t.registered == {}
    ensures t.core.latest.Some? ==>
              && IsPublished(t.core, t.core.latest.value) && !IsRetired(t.core, t.core.latest.value)
              && t.core.objects[t.core.latest.value].root in t.registered
              && forall r | r in t.registered :: !Newer(r, t.core.objects[t.core.latest.value].root)
  {
    OpenedInv(s);
    RunKeeps(s, steps, t);
    hide Newer, Owned, Counting, Handoffs, Honoured, Bounded;
  }

  /** However long handoffs, transfers and failed cleanups delay deletion, at most three artifact
      IDs exist. */
  lemma AtMostThreeArtifacts(s: System, steps: seq<Step>, t: System)
    requires Opened(s) && Run(s, steps, t)
    ensures |t.core.published.Keys + t.core.retired.Keys| <= RETENTION + 1
  {
    OpenedInv(s);
    RunKeeps(s, steps, t);
    SubsetSize(t.core.published.Keys + t.core.retired.Keys, Ids(t.core, t.publishing));
    hide Shape, LatestNewest, Owned, Counting, Handoffs, Honoured;
  }

  lemma StepGrants(s: System, step: Step)
    requires Enabled(s, step)
    ensures s.grants <= Apply(s, step).grants && Apply(s, step).now >= s.now
    ensures Apply(s, step).lifetime == s.lifetime
  {
    hide Shape, Retire, Latest, Expire, Open, Release, Finish, Register, BeginClose, HasCapacity;
  }

  lemma {:induction false} RunGrants(s: System, steps: seq<Step>, t: System)
    requires Run(s, steps, t)
    ensures s.grants <= t.grants && s.now <= t.now && s.lifetime == t.lifetime
    decreases |steps|
  {
    hide Enabled, Apply;
    if steps != [] {
      StepGrants(s, steps[0]);
      RunGrants(Apply(s, steps[0]), steps[1..], t);
    }
  }

  lemma HonouredGrant(t: System, g: Grant)
    requires Inv(t) && g in t.grants && t.now < g.until && !t.core.closed
    ensures g.target in t.core.objects && IsPublished(t.core, g.target) && t.core.objects[g.target].root == g.root
  {
    hide Shape, LatestNewest, Owned, Counting, Bounded, IsPublished, Tasks;
  }

  lemma PublishedOpens(c: Core, o: Object)
    requires Shape(c) && IsPublished(c, o) && !c.closed
    ensures Open(c, c.objects[o].root).1 == Some(o)
  {
  }

  lemma GrantMade(a: System, root: Root)
    requires Shape(a.core) && Latest(a.core, a.now, a.lifetime).1 == Some(root)
    ensures a.core.latest.Some?
    ensures Grant(a.core.latest.value, root, a.now + a.lifetime) in Apply(a, LatestSnapshot).grants
  {
    hide Shape;
  }

  /** A root returned by LatestSnapshot can be opened at every later moment before its handoff
      ends, whatever happens in between, unless the repository is closed. */
  lemma HandoffHonoured(s: System, before: seq<Step>, a: System, root: Root, after: seq<Step>, t: System)
    requires Opened(s) && Run(s, before, a) && Shape(a.core)
    requires Latest(a.core, a.now, a.lifetime).1 == Some(root)
    requires Run(Apply(a, LatestSnapshot), after, t)
    requires t.now < a.now + a.lifetime && !t.core.closed
    ensures Shape(t.core) && Open(t.core, root).1 == a.core.latest
  {
    hide Run, Inv, Apply, Opened, Latest, Shape, Open;
    OpenedInv(s);
    RunKeeps(s, before, a);
    GrantMade(a, root);
    StepKeeps(a, LatestSnapshot);
    RunKeeps(Apply(a, LatestSnapshot), after, t);
    RunGrants(Apply(a, LatestSnapshot), after, t);
    StillOpens(t, Grant(a.core.latest.value, root, a.now + a.lifetime));
  }

  lemma StillOpens(t: System, g: Grant)
    requires Inv(t) && g in t.grants && t.now < g.until && !t.core.closed
    ensures Shape(t.core) && Open(t.core, g.root).1 == Some(g.target)
  {
    hide Owned, Counting, Bounded, LatestNewest, Handoffs, Honoured, IsPublished;
    HonouredGrant(t, g);
    PublishedOpens(t.core, g.target);
  }
}
