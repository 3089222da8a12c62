/** The condition on republishing is exact: wherever it fails, some continuation removes a directory
    under an open transfer. */
module SnapshotRace {
  import opened Bytes
  import opened Wrappers
  import opened Mapping
  import opened SnapshotModel
  import opened SnapshotSafety
  import opened SnapshotTheorems
  import opened SnapshotPaths

  lemma ThreeOnly(keys: set<Bytes>, a: Bytes, b: Bytes, id: Bytes)
    requires |keys| <= 3 && {a, b, id} <= keys && a != b && a != id && b != id
    ensures keys == {a, b, id}
  {
    assert |keys - {a, b, id}| == |keys| - |{a, b, id}|;
    assert |{a, b, id}| == 3;
  }

  /** With at most three published artifacts, the two newer than `id` stay published. */
  lemma TwoSurvive(c: Core, now: nat, id: Bytes) returns (a: Bytes, b: Bytes)
    requires Shape(c) && |c.published.Keys| <= 3 && id in c.published && BeyondRetention(c, id)
    ensures a != b && a != id && b != id && NewerPublished(c, id, a) && NewerPublished(c, id, b)
    ensures a in Moved(c, now).published && b in Moved(c, now).published
  {
    a, b :| a != b && NewerPublished(c, id, a) && NewerPublished(c, id, b);
    var r := c.objects[c.published[id]].root;
    NewerStrict(r, r);
    ThreeOnly(c.published.Keys, a, b, id);
    NotBeyond(c, a, b, id);
    NotBeyond(c, b, a, id);
    hide Newer, BeyondRetention, NewerPublished;
  }

  lemma NotBeyond(c: Core, a: Bytes, b: Bytes, id: Bytes)
    requires Shape(c) && id in c.published && a in c.published && c.published.Keys == {a, b, id} && NewerPublished(c, id, a)
    ensures !BeyondRetention(c, a)
  {
    var r, q := c.objects[c.published[a]].root, c.objects[c.published[id]].root;
    NewerStrict(r, r);
    NewerStrict(r, q);
    hide Newer;
    forall x, y | NewerPublished(c, a, x) && NewerPublished(c, a, y) ensures x == y {
      assert x in c.published.Keys && y in c.published.Keys;
    }
  }

  /** A victim with no readers is handed to cleanup by the prune that retires it. */
  lemma VictimClaimed(c: Core, now: nat, id: Bytes)
    requires Shape(c) && !c.closed && Victim(c, now, id)
    requires c.objects[c.published[id]].transfers == 0 && !c.objects[c.published[id]].cleanup
    ensures c.published[id] in Retire(c, now).1
  {
    hide BeyondRetention;
    var m := Moved(c, now);
    var o := c.published[id];
    assert id in Victims(c, now);
    assert m.retired[id] == o && m.objects[o].root.id == id;
    assert IsRetired(m, o);
  }

  lemma RetireObjects(c: Core, now: nat)
    requires Shape(c)
    ensures Retire(c, now).0.objects.Keys == c.objects.Keys && Retire(c, now).0.closed == c.closed
    ensures forall o | o in c.objects :: Retire(c, now).0.objects[o].root == c.objects[o].root
    ensures !c.closed ==> Retire(c, now).0.published == Moved(c, now).published
  {
    if !c.closed {
      var m := Moved(c, now);
      MovedObjects(c, now);
      ClaimedObjects(m, Claims(m));
      hide Moved, Claimed, Claims, Victim, IsPublished, IsRetired, Shape;
    }
  }

  /** After retiring `id` and registering it anew, the new object is again beyond retention. */
  lemma BeyondAgain(c: Core, now: nat, id: Bytes, added: Object)
    requires Shape(c) && !c.closed && |c.published.Keys| <= 3 && Victim(c, now, id) && added !in c.objects
    requires Shape(Retire(c, now).0)
    ensures var d := Retire(c, now).0;
      var root := c.objects[c.published[id]].root;
      && id !in d.published && added !in d.objects && c.published[id] in d.objects && d.objects[c.published[id]].root == root
      && (Shape(Register(d, root, added).0) ==>
            && Register(d, root, added).1
            && var e := Register(d, root, added).0;
            && id in e.published && e.published[id] == added && BeyondRetention(e, id)
            && e.objects == d.objects[added := Artifact(root, 0, 0, false, false)] && !e.closed)
  {
    hide *;
    VictimBeyond(c, now, id);
    RetireObjects(c, now);
    RegisterReady(Retire(c, now).0);
    VictimMoves(c, now, id);
    var a, b := TwoSurvive(c, now, id);
    RegisterFresh(Retire(c, now).0, c.objects[c.published[id]].root, added);
    if Shape(Register(Retire(c, now).0, c.objects[c.published[id]].root, added).0) {
      StillBeyond(c, now, id, added, a, b);
    }
  }

  lemma StillBeyond(c: Core, now: nat, id: Bytes, added: Object, a: Bytes, b: Bytes)
    requires Shape(c) && Shape(Retire(c, now).0) && !c.closed && id in c.published && added !in c.objects
    requires a != b && a != id && b != id && NewerPublished(c, id, a) && NewerPublished(c, id, b)
    requires a in Moved(c, now).published && b in Moved(c, now).published && id !in Moved(c, now).published
    requires c.published[id] in c.objects && c.objects[c.published[id]].root.id == id
    requires Shape(Register(Retire(c, now).0, c.objects[c.published[id]].root, added).0)
    ensures var e := Register(Retire(c, now).0, c.objects[c.published[id]].root, added).0;
      id in e.published && BeyondRetention(e, id)
  {
    hide *;
    var d := Retire(c, now).0;
    RegisterReady(d);
    var root := c.objects[c.published[id]].root;
    var e := Register(d, root, added).0;
    RetireObjects(c, now);
    RegisterFresh(d, root, added);
    NewerIsPublished(c, id, a);
    NewerIsPublished(c, id, b);
    MovedEntry(c, now, a);
    MovedEntry(c, now, b);
    StillNewer(c, d, e, id, added, a);
    StillNewer(c, d, e, id, added, b);
    BeyondWitness(e, id, a, b);
  }

  lemma RegisterReady(d: Core)
    requires Shape(d)
    ensures (d.latest.Some? ==> d.latest.value in d.objects) && forall id | id in d.published :: d.published[id] in d.objects
  {
  }

  lemma MovedEntry(c: Core, now: nat, a: Bytes)
    requires Shape(c) && a in Moved(c, now).published
    ensures a in c.published && Moved(c, now).published[a] == c.published[a]
  {
    hide BeyondRetention;
  }

  lemma NewerIsPublished(c: Core, id: Bytes, a: Bytes)
    requires Shape(c) && id in c.published && NewerPublished(c, id, a)
    ensures a in c.published && c.published[a] in c.objects
  {
  }

  lemma VictimMoves(c: Core, now: nat, id: Bytes)
    requires Shape(c) && Victim(c, now, id)
    ensures id !in Moved(c, now).published
  {
    hide BeyondRetention;
  }

  lemma VictimBeyond(c: Core, now: nat, id: Bytes)
    requires Shape(c) && Victim(c, now, id)
    ensures id in c.published && BeyondRetention(c, id) && c.published[id] in c.objects && c.objects[c.published[id]].root.id == id
  {
    hide BeyondRetention;
  }

  lemma RegisterFresh(d: Core, root: Root, added: Object)
    requires Shape(d) && root.id !in d.published && added !in d.objects
    ensures var (e, ok) := Register(d, root, added);
      && ok && e.published == d.published[root.id := added] && e.closed == d.closed
      && e.objects == d.objects[added := Artifact(root, 0, 0, false, false)]
  {
    hide Newer, IsRetired;
  }

  lemma BeyondWitness(e: Core, id: Bytes, a: Bytes, b: Bytes)
    requires Shape(e) && id in e.published && a != b && NewerPublished(e, id, a) && NewerPublished(e, id, b)
    ensures BeyondRetention(e, id)
  {
  }

  lemma StillNewer(c: Core, d: Core, e: Core, id: Bytes, added: Object, a: Bytes)
    requires Shape(c) && Shape(e) && id in c.published && a != id && NewerPublished(c, id, a) && id in e.published
    requires a in d.published && d.published[a] == c.published[a] && d.published[a] in d.objects && added !in d.objects
    requires d.objects[d.published[a]].root == c.objects[c.published[a]].root
    requires e.published == d.published[id := added]
    requires e.objects == d.objects[added := Artifact(c.objects[c.published[id]].root, 0, 0, false, false)]
    ensures NewerPublished(e, id, a)
  {
    hide Newer;
  }

  lemma PublishedAtMostThree(s: System)
    requires Inv(s)
    ensures |s.core.published.Keys| <= 3
  {
    hide Shape, Counting, LatestNewest, Handoffs, Honoured, Owned;
    SubsetSize(s.core.published.Keys, Ids(s.core, s.publishing));
  }

  lemma Unsafe(t: System, o: Object, h: nat)
    requires o in Tasks(t) && h in t.handles && o in t.core.objects && t.handles[h] in t.core.objects
    requires t.core.objects[o].root.id == t.core.objects[t.handles[h]].root.id
    ensures !PathSafe(t)
  {
  }

  /** An expired ID is retired while its republication is in flight, registered as a second object,
      and that object is retired in turn: its cleanup owns the directory the first still serves. */
  lemma RetireRegisterRetire(s: System, id: Bytes, h: nat, added: Object)
    requires Inv(s) && !s.core.closed && s.publishing == Some(id) && id in s.core.published && Victim(s.core, s.now, id) && added !in s.core.objects
    requires h in s.handles && s.handles[h] == s.core.published[id]
    ensures var root := s.core.objects[s.core.published[id]].root;
      && Enabled(s, Prune)
      && var s1 := Apply(s, Prune);
      && Enabled(s1, RegisterArtifact(root, added))
      && var s2 := Apply(s1, RegisterArtifact(root, added));
      && Enabled(s2, Prune)
      && !PathSafe(Apply(s2, Prune))
  {
    hide Counting, LatestNewest, Handoffs, Honoured, Owned, Bounded, IsPublished, IsRetired, Retire, Victim, Register;
    var o := s.core.published[id];
    var root := s.core.objects[o].root;
    PublishedAtMostThree(s);
    PruneKeeps(s);
    var s1 := Apply(s, Prune);
    BeyondAgain(s.core, s.now, id, added);
    hide Shape;
    assert Enabled(s1, RegisterArtifact(root, added));
    RegisterKeeps(s1, root, added);
    var s2 := Apply(s1, RegisterArtifact(root, added));
    var e := s2.core;
    NowVictim(e, s2.now, id);
    VictimClaimed(e, s2.now, id);
    RetireObjects(e, s2.now);
    var t := Apply(s2, Prune);
    assert added in Retire(e, s2.now).1;
    assert added in t.claimed;
    assert t.handles[h] == o && o in e.objects && e.objects[o].root == root && e.objects[added].root == root;
    Unsafe(t, added, h);
  }

  lemma NowVictim(c: Core, now: nat, id: Bytes)
    requires Shape(c) && id in c.published && BeyondRetention(c, id) && c.objects[c.published[id]].handoffUntil <= now
    ensures Victim(c, now, id)
  {
  }

  lemma OpenOne(s: System, id: Bytes, h: nat)
    requires Inv(s) && !s.core.closed && id in s.core.published && BeyondRetention(s.core, id) && h !in s.handles
    ensures var o := s.core.published[id];
      && o in s.core.objects && Enabled(s, OpenTransfer(s.core.objects[o].root, h))
      && var t := Apply(s, OpenTransfer(s.core.objects[o].root, h));
      && Inv(t) && !t.core.closed && t.publishing == s.publishing && t.now == s.now
      && h in t.handles && t.handles[h] == o && t.core.published == s.core.published && BeyondRetention(t.core, id)
      && t.core.objects == s.core.objects[o := s.core.objects[o].(transfers := s.core.objects[o].transfers + 1)]
  {
    hide Counting, LatestNewest, Handoffs, Honoured, Owned, Bounded, IsPublished, IsRetired, BeyondRetention;
    var o := s.core.published[id];
    PublishedAt(s.core, id);
    var a := s.core.objects[o];
    var step := OpenTransfer(a.root, h);
    OpenKeeps(s, a.root, h);
    PutRoot(s.core, o, a.(transfers := a.transfers + 1));
    var t := Apply(s, step);
    SameRootsBeyond(s.core, t.core, id);
  }

  /** Starting to republish an artifact and waiting out its handoff. */
  lemma PublishWait(s: System, id: Bytes, to: nat)
    requires Inv(s) && !s.core.closed && s.publishing.None? && id in s.core.published && BeyondRetention(s.core, id) && id != []
    requires s.core.published[id] in s.core.objects && to >= s.now && to >= s.core.objects[s.core.published[id]].handoffUntil
    ensures Enabled(s, BeginPublish(id))
    ensures var t := Apply(s, BeginPublish(id));
      Enabled(t, Tick(to)) && Apply(t, Tick(to)) == s.(publishing := Some(id), now := to) && Inv(Apply(t, Tick(to)))
    ensures Victim(s.core, to, id)
  {
    hide Counting, LatestNewest, Handoffs, Honoured, Owned, Bounded, IsPublished, IsRetired, BeyondRetention, Shape;
    NowVictim(s.core, to, id);
    BeginPublishKeeps(s, id);
    TickKeeps(Apply(s, BeginPublish(id)), to);
  }

  lemma FreshNat<T>(m: map<nat, T>) returns (n: nat)
    ensures n !in m
  {
    n := AboveAll(m.Keys);
  }

  lemma {:induction false} AboveAll(keys: set<nat>) returns (n: nat)
    ensures forall k | k in keys :: k < n
    decreases |keys|
  {
    n := 0;
    if keys != {} {
      var k :| k in keys;
      var m := AboveAll(keys - {k});
      n := m + k + 1;
      forall j | j in keys ensures j < n { assert j == k || j in keys - {k}; }
    }
  }

  ghost predicate PublishesOnly(steps: seq<Step>, id: Bytes) {
    forall i | 0 <= i < |steps| && steps[i].BeginPublish? :: steps[i].id == id
  }

  lemma RunOne(s: System, step: Step, rest: seq<Step>, t: System, id: Bytes)
    requires Enabled(s, step) && Run(Apply(s, step), rest, t)
    requires PublishesOnly(rest, id) && (step.BeginPublish? ==> step.id == id)
    ensures Run(s, [step] + rest, t) && PublishesOnly([step] + rest, id)
  {
    hide Enabled, Apply;
    assert ([step] + rest)[1..] == rest;
  }

  /** From any state in which `id` is published beyond the two newest, republishing it can end with
      a directory removed under an open transfer. (`publish` refuses the empty ID.) */
  lemma RepublishingCanRemoveAnOpenDirectory(s: System, id: Bytes) returns (steps: seq<Step>, t: System)
    requires Inv(s) && !s.core.closed && s.publishing.None? && id in s.core.published && BeyondRetention(s.core, id) && id != []
    ensures Run(s, steps, t) && !PathSafe(t) && PublishesOnly(steps, id)
  {
    hide Apply, Enabled, Inv, PathSafe, BeyondRetention, Victim, Shape, IsPublished, Run, PublishesOnly;
    var o := s.core.published[id];
    var h := FreshNat(s.handles);
    var added := FreshNat(s.core.objects);
    OpenOne(s, id, h);
    var root := s.core.objects[o].root;
    var until := s.core.objects[o].handoffUntil;
    var to := if until > s.now then until else s.now;
    var s1 := Apply(s, OpenTransfer(root, h));
    PublishWait(s1, id, to);
    var s2 := Apply(s1, BeginPublish(id));
    var s3 := Apply(s2, Tick(to));
    RetireRegisterRetire(s3, id, h, added);
    var s4 := Apply(s3, Prune);
    var s5 := Apply(s4, RegisterArtifact(root, added));
    t := Apply(s5, Prune);
    assert Run(t, [], t) && PublishesOnly([], id) by { NoSteps(t, id); }
    RunOne(s5, Prune, [], t, id);
    var r1 := [Prune] + [];
    RunOne(s4, RegisterArtifact(root, added), r1, t, id);
    var r2 := [RegisterArtifact(root, added)] + r1;
    RunOne(s3, Prune, r2, t, id);
    var r3 := [Prune] + r2;
    RunOne(s2, Tick(to), r3, t, id);
    var r4 := [Tick(to)] + r3;
    RunOne(s1, BeginPublish(id), r4, t, id);
    var r5 := [BeginPublish(id)] + r4;
    RunOne(s, OpenTransfer(root, h), r5, t, id);
    steps := [OpenTransfer(root, h)] + r5;
  }

  lemma NoSteps(t: System, id: Bytes)
    ensures Run(t, [], t) && PublishesOnly([], id)
  {
  }

  function Aged(n: nat, id: Bytes): Root {
    Root(n, n, id, 0)
  }

  function Just(root: Root): Artifact {
    Artifact(root, 0, 0, false, false)
  }

  lemma PublishNewest(s: System, root: Root, added: Object) returns (t: System)
    requires Inv(s) && !s.core.closed && s.publishing.None? && root.id != [] && root.id !in s.core.published && added !in s.core.objects
    requires |s.core.published| <= 2 && s.core.retired == map[]
    requires s.core.latest.Some? && s.core.latest.value in s.core.objects && Newer(root, s.core.objects[s.core.latest.value].root)
    ensures Inv(t) && t.core == Add(s.core, root, added).(latest := Some(added)) && t.publishing.None? && t.now == s.now
    ensures CarefulRun(s, [BeginPublish(root.id), RegisterArtifact(root, added)], t)
  {
    hide Counting, LatestNewest, Handoffs, Honoured, Owned, Bounded, IsPublished, IsRetired, BeyondRetention, Newer;
    BeginPublishKeeps(s, root.id);
    var u := Apply(s, BeginPublish(root.id));
    RegisterKeeps(u, root, added);
    t := Apply(u, RegisterArtifact(root, added));
    hide Enabled, Apply, Inv;
    assert CarefulRun(u, [RegisterArtifact(root, added)], t);
    assert [BeginPublish(root.id), RegisterArtifact(root, added)][1..] == [RegisterArtifact(root, added)];
  }

  lemma {:induction false} CarefulRunsJoin(s: System, a: seq<Step>, t: System, b: seq<Step>, u: System)
    requires CarefulRun(s, a, t) && CarefulRun(t, b, u)
    ensures CarefulRun(s, a + b, u)
    decreases |a|
  {
    hide Enabled, Careful, Apply;
    if a == [] {
      assert a + b == b;
    } else {
      CarefulRunsJoin(Apply(s, a[0]), a[1..], t, b, u);
      assert (a + b)[1..] == a[1..] + b;
    }
  }

  lemma OneArtifact(root: Root, lifetime: nat) returns (s: System)
    requires root.id != []
    ensures s.core == Core(map[0 := Just(root)], map[root.id := 0], map[], Some(0), false)
    ensures Opened(s) && s.now == 0 && s.lifetime == lifetime
  {
    var c := Core(map[0 := Just(root)], map[root.id := 0], map[], Some(0), false);
    s := System(c, 0, lifetime, map[], multiset{}, multiset{}, multiset{}, None, {root}, {});
    NewerStrict(root, root);
    hide Newer;
    assert Shape(c);
    assert LatestNewest(c, {root});
  }

  lemma HandOff(s: System, root: Root) returns (t: System)
    requires Opened(s) && s.core == Core(map[0 := Just(root)], map[root.id := 0], map[], Some(0), false)
    requires s.now == 0 && s.lifetime > 0
    ensures CarefulRun(s, [LatestSnapshot], t) && Inv(t) && t.publishing.None? && t.now == 0
    ensures t.core == s.core.(objects := map[0 := Just(root).(handoffUntil := s.lifetime, timer := true)])
  {
    OpenedInv(s);
    LatestInHeap(s.core, s.registered);
    hide Shape, LatestNewest, IsPublished, IsRetired, Inv, Tasks;
    LatestKeeps(s);
    t := Apply(s, LatestSnapshot);
    assert CarefulRun(t, [], t);
    assert [LatestSnapshot][1..] == [];
  }

  /** Such states exist in ordinary runs: the only artifact is handed off, and two newer ones are
      published before that handoff ends. */
  lemma RiskIsReachable(lifetime: nat) returns (s: System, steps: seq<Step>, t: System, id: Bytes)
    requires lifetime > 0
    ensures Opened(s) && CarefulRun(s, steps, t)
    ensures Inv(t) && !t.core.closed && t.publishing.None? && id in t.core.published && BeyondRetention(t.core, id) && id != []
  {
    hide Inv, Opened, CarefulRun, BeyondRetention, Shape;
    id := [1];
    var a, b, c := Aged(1, id), Aged(2, [2]), Aged(3, [3]);
    s := OneArtifact(a, lifetime);
    var s1 := HandOff(s, a);
    var s2 := PublishNewest(s1, b, 1);
    assert |s2.core.published| <= 2 by { assert s2.core.published == map[id := 0, b.id := 1]; }
    t := PublishNewest(s2, c, 2);
    var first, second := [BeginPublish(b.id), RegisterArtifact(b, 1)], [BeginPublish(c.id), RegisterArtifact(c, 2)];
    CarefulRunsJoin(s, [LatestSnapshot], s1, first, s2);
    CarefulRunsJoin(s, [LatestSnapshot] + first, s2, second, t);
    steps := [LatestSnapshot] + first + second;
    InvShape(t);
    assert NewerPublished(t.core, id, b.id) && NewerPublished(t.core, id, c.id);
    BeyondWitness(t.core, id, b.id, c.id);
  }

  lemma InvShape(s: System)
    requires Inv(s)
    ensures Shape(s.core)
  {
  }
}
