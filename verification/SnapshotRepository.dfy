/** The repository object: its critical sections, proved against the transitions of the model. */
module SnapshotRepository {
  import opened Bytes
  import opened Wrappers
  import opened Mapping
  import opened SnapshotModel
  import opened SnapshotSafety
  import opened SnapshotTheorems

  // ---- newest first ----

  ghost predicate NewestFirst(roots: map<Bytes, Root>, ids: seq<Bytes>) {
    && (forall i | 0 <= i < |ids| :: ids[i] in roots)
    && forall i, j | 0 <= i < j < |ids| :: Newer(roots[ids[i]], roots[ids[j]])
  }

  ghost predicate OwnIds(roots: map<Bytes, Root>) {
    forall id | id in roots :: roots[id].id == id
  }

  /** One insertion of the sort. */
  method InsertNewest(roots: map<Bytes, Root>, ids: seq<Bytes>, id: Bytes) returns (r: seq<Bytes>)
    requires OwnIds(roots) && NewestFirst(roots, ids) && id in roots && id !in ids
    ensures NewestFirst(roots, r) && multiset(r) == multiset(ids) + multiset{id}
  {
    var k := 0;
    while k < |ids| && Newer(roots[ids[k]], roots[id])
      invariant k <= |ids| && forall i | 0 <= i < k :: Newer(roots[ids[i]], roots[id])
    {
      k := k + 1;
    }
    r := ids[..k] + [id] + ids[k..];
    assert ids == ids[..k] + ids[k..];
    forall j | k <= j < |ids| ensures Newer(roots[id], roots[ids[j]]) {
      NewerStrict(roots[id], roots[ids[k]]);
      if j > k { NewerTransitive(roots[id], roots[ids[k]], roots[ids[j]]); }
    }
    hide Newer;
  }

  lemma NotYet(ids: seq<Bytes>, rest: set<Bytes>, keys: set<Bytes>, id: Bytes)
    requires multiset(ids) + multiset(rest) == multiset(keys) && id in rest
    ensures id !in ids
  {
    assert multiset(keys)[id] <= 1 && multiset(rest)[id] == 1;
    assert multiset(keys)[id] == multiset(ids)[id] + multiset(rest)[id];
    assert id in multiset(ids) <==> id in ids;
  }

  /** sort.Slice by newerDaemonSnapshot over the published map. */
  method SortNewest(roots: map<Bytes, Root>) returns (ids: seq<Bytes>)
    requires OwnIds(roots)
    ensures NewestFirst(roots, ids) && multiset(ids) == multiset(roots.Keys)
  {
    ids := [];
    var rest := roots.Keys;
    while rest != {}
      invariant rest <= roots.Keys && NewestFirst(roots, ids)
      invariant multiset(ids) + multiset(rest) == multiset(roots.Keys)
      decreases |rest|
    {
      var id :| id in rest;
      assert multiset(rest) == multiset(rest - {id}) + multiset{id};
      NotYet(ids, rest, roots.Keys, id);
      ids := InsertNewest(roots, ids, id);
      rest := rest - {id};
    }
  }

  function RootsOf(c: Core): map<Bytes, Root>
    requires forall id | id in c.published :: c.published[id] in c.objects
  {
    map id | id in c.published :: c.objects[c.published[id]].root
  }

  /** The sorted positions from the third on are the artifacts beyond retention. */
  lemma ThirdOnIsBeyond(c: Core, ids: seq<Bytes>, k: nat)
    requires Shape(c) && NewestFirst(RootsOf(c), ids) && multiset(ids) == multiset(c.published.Keys) && k < |ids|
    ensures ids[k] in c.published && (BeyondRetention(c, ids[k]) <==> k >= RETENTION)
  {
    var id := ids[k];
    assert id in multiset(ids);
    if k >= RETENTION {
      assert Newer(RootsOf(c)[ids[0]], RootsOf(c)[id]) && Newer(RootsOf(c)[ids[1]], RootsOf(c)[id]);
      NewerStrict(RootsOf(c)[ids[0]], RootsOf(c)[ids[1]]);
      assert NewerPublished(c, id, ids[0]) && NewerPublished(c, id, ids[1]);
    } else {
      forall a | NewerPublished(c, id, a) ensures a == ids[0] && k == 1 { BeforeInOrder(c, ids, k, a); }
    }
  }

  lemma BeforeInOrder(c: Core, ids: seq<Bytes>, k: nat, a: Bytes)
    requires Shape(c) && NewestFirst(RootsOf(c), ids) && multiset(ids) == multiset(c.published.Keys) && k < |ids|
    requires ids[k] in c.published && NewerPublished(c, ids[k], a)
    ensures exists i :: 0 <= i < k && ids[i] == a
  {
    assert a in multiset(c.published.Keys);
    assert a in multiset(ids);
    var i :| 0 <= i < |ids| && ids[i] == a;
    NewerStrict(RootsOf(c)[a], RootsOf(c)[ids[k]]);
    hide Newer;
  }

  // ---- the two loops of a prune, one element at a time ----

  ghost function MovedBy(c: Core, v: set<Bytes>): (r: Core)
    requires v <= c.published.Keys
  {
    c.(published := map id | id in c.published && id !in v :: c.published[id],
       retired := map id | id in c.retired.Keys + v :: if id in v then c.published[id] else c.retired[id],
       objects := map o | o in c.objects ::
                  if IsPublished(c, o) && c.objects[o].root.id in v
                  then c.objects[o].(handoffUntil := 0, timer := false) else c.objects[o])
  }

  lemma MovedByNone(c: Core)
    ensures MovedBy(c, {}) == c
  {
    var d := MovedBy(c, {});
    assert d.published == c.published && d.retired == c.retired && d.objects == c.objects;
  }

  lemma MovedByMore(c: Core, v: set<Bytes>, id: Bytes)
    requires Shape(c) && v <= c.published.Keys && id in c.published && id !in v
    ensures var d := MovedBy(c, v);
      var o := c.published[id];
      && id in d.published && d.published[id] == o && o in d.objects && d.objects[o] == c.objects[o]
      && MovedBy(c, v + {id}) ==
         d.(published := d.published - {id}, retired := d.retired[id := o], objects := d.objects[o := d.objects[o].(handoffUntil := 0, timer := false)])
  {
    MovedMapsMore(c, v, id);
    MovedObjectsMore(c, v, id);
    hide MovedBy, Shape;
  }

  lemma MovedMapsMore(c: Core, v: set<Bytes>, id: Bytes)
    requires v <= c.published.Keys && id in c.published && id !in v
    ensures var d, e := MovedBy(c, v), MovedBy(c, v + {id});
      && id in d.published && d.published[id] == c.published[id]
      && e.published == d.published - {id} && e.retired == d.retired[id := c.published[id]]
      && d.objects.Keys == c.objects.Keys && e.objects.Keys == c.objects.Keys && e.latest == d.latest && e.closed == d.closed
  {
    hide IsPublished;
    var d, e := MovedBy(c, v), MovedBy(c, v + {id});
    assert e.published == d.published - {id};
  }

  lemma MovedObjectsMore(c: Core, v: set<Bytes>, id: Bytes)
    requires Shape(c) && v <= c.published.Keys && id in c.published && id !in v
    ensures var d := MovedBy(c, v);
      var o := c.published[id];
      && o in d.objects && d.objects[o] == c.objects[o]
      && MovedBy(c, v + {id}).objects == d.objects[o := d.objects[o].(handoffUntil := 0, timer := false)]
  {
    hide MovedBy, IsPublished;
    var d, e := MovedBy(c, v), MovedBy(c, v + {id});
    var o := c.published[id];
    PublishedAt(c, id);
    MovedMapsMore(c, v, id);
    hide Shape;
    forall p | p in c.objects ensures e.objects[p] == (if p == o then c.objects[p].(handoffUntil := 0, timer := false) else d.objects[p]) {
      MovedObjectAt(c, v, id, p);
    }
    MovedObjectAt(c, v, id, o);
  }

  lemma MovedObjectAt(c: Core, v: set<Bytes>, id: Bytes, p: Object)
    requires Shape(c) && v <= c.published.Keys && id in c.published && id !in v && p in c.objects
    ensures var o := c.published[id];
      && MovedBy(c, v + {id}).objects[p] == (if p == o then c.objects[p].(handoffUntil := 0, timer := false) else MovedBy(c, v).objects[p])
      && (p == o ==> MovedBy(c, v).objects[p] == c.objects[p])
  {
    PublishedAt(c, id);
    hide Shape;
  }

  lemma ClaimedMore(c: Core, os: set<Object>, o: Object)
    requires o in c.objects && o !in os
    ensures var d := Claimed(c, os);
      && o in d.objects && d.objects[o] == c.objects[o]
      && Claimed(c, os + {o}) == d.(objects := d.objects[o := d.objects[o].(cleanup := true)])
  {
    var d, e := Claimed(c, os), Claimed(c, os + {o});
    assert e.objects == d.objects[o := d.objects[o].(cleanup := true)];
  }

  /** What the first loop has retired before position `k`. */
  ghost function Expired(c: Core, now: nat, ids: seq<Bytes>, k: nat): set<Bytes>
    requires Shape(c) && k <= |ids| && forall i | 0 <= i < |ids| :: ids[i] in c.published
  {
    set i | RETENTION <= i < k && c.objects[c.published[ids[i]]].handoffUntil <= now :: ids[i]
  }

  lemma ExpiredAll(c: Core, now: nat, ids: seq<Bytes>)
    requires Shape(c) && NewestFirst(RootsOf(c), ids) && multiset(ids) == multiset(c.published.Keys)
    ensures forall i | 0 <= i < |ids| :: ids[i] in c.published
    ensures Expired(c, now, ids, |ids|) == Victims(c, now)
  {
    forall i | 0 <= i < |ids| ensures ids[i] in c.published && (BeyondRetention(c, ids[i]) <==> i >= RETENTION) {
      ThirdOnIsBeyond(c, ids, i);
    }
    hide BeyondRetention, NewestFirst;
    forall id | id in Victims(c, now) ensures id in Expired(c, now, ids, |ids|) {
      assert id in multiset(ids);
      var i :| 0 <= i < |ids| && ids[i] == id;
    }
  }

  lemma ExpiredMore(c: Core, now: nat, ids: seq<Bytes>, k: nat)
    requires Shape(c) && NewestFirst(RootsOf(c), ids) && RETENTION <= k < |ids| && forall i | 0 <= i < |ids| :: ids[i] in c.published
    ensures ids[k] !in Expired(c, now, ids, k) && Expired(c, now, ids, k) <= c.published.Keys
    ensures Expired(c, now, ids, k + 1) ==
            Expired(c, now, ids, k) + if c.objects[c.published[ids[k]]].handoffUntil <= now then {ids[k]} else {}
  {
    forall i | 0 <= i < k ensures ids[i] != ids[k] {
      NewerStrict(RootsOf(c)[ids[i]], RootsOf(c)[ids[k]]);
    }
    hide Newer, Shape;
  }

  /** The repository before position `k` of the first loop. */
  ghost function Progress(c: Core, now: nat, ids: seq<Bytes>, k: nat): Core
    requires Shape(c) && k <= |ids| && forall i | 0 <= i < |ids| :: ids[i] in c.published
  {
    MovedBy(c, Expired(c, now, ids, k))
  }

  lemma ProgressStep(c: Core, now: nat, ids: seq<Bytes>, k: nat)
    requires Shape(c) && NewestFirst(RootsOf(c), ids) && RETENTION <= k < |ids| && forall i | 0 <= i < |ids| :: ids[i] in c.published
    ensures var d := Progress(c, now, ids, k);
      var o := c.published[ids[k]];
      && ids[k] in d.published && d.published[ids[k]] == o && o in d.objects
      && Progress(c, now, ids, k + 1) ==
         if d.objects[o].handoffUntil > now then d
         else d.(published := d.published - {ids[k]}, retired := d.retired[ids[k] := o], objects := d.objects[o := d.objects[o].(handoffUntil := 0, timer := false)])
  {
    hide Expired, MovedBy, NewestFirst, Shape;
    ExpiredMore(c, now, ids, k);
    MovedByMore(c, Expired(c, now, ids, k), ids[k]);
    NothingMore(Expired(c, now, ids, k));
  }

  lemma NothingMore(v: set<Bytes>)
    ensures v + {} == v
  {
  }

  lemma ProgressEnds(c: Core, now: nat, ids: seq<Bytes>)
    requires Shape(c) && NewestFirst(RootsOf(c), ids) && multiset(ids) == multiset(c.published.Keys)
    ensures forall i | 0 <= i < |ids| :: ids[i] in c.published
    ensures RETENTION <= |ids| ==> Progress(c, now, ids, RETENTION) == c
    ensures RETENTION > |ids| ==> Moved(c, now) == c
    ensures Progress(c, now, ids, |ids|) == Moved(c, now)
  {
    ExpiredAll(c, now, ids);
    MovedByNone(c);
    MovedByVictims(c, now);
    hide MovedBy, NewestFirst, Moved, Shape;
    if |ids| <= RETENTION { assert Expired(c, now, ids, |ids|) == {}; }
    if RETENTION <= |ids| { assert Expired(c, now, ids, RETENTION) == {}; }
  }

  /** The repository when the IDs of `rest` remain to be looked at by the second loop. */
  ghost function ClaimProgress(c: Core, rest: set<Bytes>): Core {
    Claimed(c, ClaimedOutside(c, rest))
  }

  lemma ClaimStep(c: Core, rest: set<Bytes>, id: Bytes)
    requires Shape(c) && id in rest && id in c.retired
    ensures var d := ClaimProgress(c, rest);
      var o := c.retired[id];
      && o in d.objects
      && if d.objects[o].transfers == 0 && !d.objects[o].cleanup
         then ClaimProgress(c, rest - {id}) == d.(objects := d.objects[o := d.objects[o].(cleanup := true)])
              && multiset(ClaimedOutside(c, rest - {id})) == multiset(ClaimedOutside(c, rest)) + multiset{o}
         else ClaimProgress(c, rest - {id}) == d && ClaimedOutside(c, rest - {id}) == ClaimedOutside(c, rest)
  {
    var o := c.retired[id];
    RetiredAt(c, id);
    ClaimedOutsideMore(c, rest, id);
    ClaimedMoreIf(c, ClaimedOutside(c, rest), o);
    ClaimedMore(c, ClaimedOutside(c, rest), o);
    hide Claimed, Claims, Shape, IsRetired, IsPublished, ClaimedOutside;
  }

  lemma ClaimEnds(c: Core)
    requires Shape(c)
    ensures ClaimProgress(c, c.retired.Keys) == c && ClaimedOutside(c, c.retired.Keys) == {}
    ensures ClaimProgress(c, {}) == Claimed(c, Claims(c)) && ClaimedOutside(c, {}) == Claims(c)
  {
    hide Shape, IsPublished;
    assert ClaimedOutside(c, c.retired.Keys) == {};
    assert Claimed(c, {}).objects == c.objects;
    ClaimedOutsideAll(c);
  }

  class Repository {
    var objects: map<Object, Artifact>
    var artifacts: map<Bytes, Object>
    var retired: map<Bytes, Object>
    var latest: Option<Object>
    var closed: bool

    function View(): Core
      reads this
    {
      Core(objects, artifacts, retired, latest, closed)
    }

    constructor ()
      ensures View() == Core(map[], map[], map[], None, false)
    {
      objects, artifacts, retired, latest, closed := map[], map[], map[], None, false;
    }

    /** The loop that moves expired artifacts beyond retention to the retired map. */
    method MoveExpired(now: nat)
      requires Shape(View()) && !closed
      modifies this
      ensures View() == Moved(old(View()), now)
    {
      ghost var c := View();
      hide NewestFirst, Victim, IsPublished, Progress, Moved;
      var ids := SortNewest(RootsOf(View()));
      ProgressEnds(c, now, ids);
      hide Shape;
      if |ids| > RETENTION {
        for k := RETENTION to |ids|
          invariant View() == Progress(c, now, ids, k)
        {
          ProgressStep(c, now, ids, k);
          var id := ids[k];
          var o := artifacts[id];
          if objects[o].handoffUntil <= now {
            objects := objects[o := objects[o].(handoffUntil := 0, timer := false)];
            artifacts := artifacts - {id};
            retired := retired[id := o];
          }
        }
      }
    }

    method ClaimIfIdle(o: Object) returns (claimed: bool)
      requires o in objects
      modifies this
      ensures claimed <==> old(objects)[o].transfers == 0 && !old(objects)[o].cleanup
      ensures View() == if claimed then old(View()).(objects := old(objects)[o := old(objects)[o].(cleanup := true)]) else old(View())
    {
      claimed := objects[o].transfers == 0 && !objects[o].cleanup;
      if claimed { objects := objects[o := objects[o].(cleanup := true)]; }
    }

    /** The loop that claims idle retired artifacts. */
    method ClaimIdle() returns (candidates: seq<Object>)
      requires Shape(View())
      modifies this
      ensures View() == Claimed(old(View()), Claims(old(View())))
      ensures multiset(candidates) == multiset(Claims(old(View())))
    {
      ghost var c := View();
      candidates := [];
      var rest := retired.Keys;
      ClaimEnds(c);
      hide *;
      while rest != {}
        invariant rest <= c.retired.Keys && retired == c.retired
        invariant View() == ClaimProgress(c, rest) && multiset(candidates) == multiset(ClaimedOutside(c, rest))
        decreases |rest|
      {
        var id :| id in rest;
        ClaimStep(c, rest, id);
        var claimed := ClaimIfIdle(retired[id]);
        if claimed { candidates := candidates + [retired[id]]; }
        rest := rest - {id};
      }
    }

    /** retireSnapshotArtifacts. */
    method RetireSnapshotArtifacts(now: nat) returns (candidates: Option<seq<Object>>)
      requires Shape(View())
      requires latest.Some? ==> !Victim(View(), now, objects[latest.value].root.id)
      modifies this
      ensures candidates.None? <==> old(closed)
      ensures View() == Retire(old(View()), now).0
      ensures candidates.Some? ==> multiset(candidates.value) == multiset(Retire(old(View()), now).1)
    {
      if closed { return None; }
      hide Moved, Claims, Claimed, Victim;
      MovedShape(View(), now);
      assert Moved(View(), now).closed == closed by { MovedObjects(View(), now); }
      hide Shape;
      MoveExpired(now);
      var os := ClaimIdle();
      return Some(os);
    }

    method LatestSnapshot(now: nat, lifetime: nat) returns (root: Option<Root>)
      requires Shape(View())
      modifies this
      ensures (View(), root) == Latest(old(View()), now, lifetime)
    {
      if closed || latest.None? { return None; }
      var o := latest.value;
      root := Some(objects[o].root);
      if lifetime > 0 {
        objects := objects[o := objects[o].(handoffUntil := now + lifetime, timer := true)];
      }
    }

    method ExpireSnapshotHandoff(now: nat, o: Object) returns (rearmed: bool)
      requires Shape(View()) && o in objects
      modifies this
      ensures View() == Expire(old(View()), now, o)
      ensures rearmed <==> !old(closed) && old(objects)[o].handoffUntil > now
    {
      if closed { return false; }
      if objects[o].handoffUntil > now { return true; }
      objects := objects[o := objects[o].(handoffUntil := 0, timer := false)];
      return false;
    }

    method OpenSnapshotTransfer(root: Root) returns (o: Option<Object>)
      requires Shape(View())
      modifies this
      ensures (View(), o) == Open(old(View()), root)
    {
      if closed || root.id !in artifacts { return None; }
      var a := artifacts[root.id];
      if objects[a].root != root { return None; }
      objects := objects[a := objects[a].(transfers := objects[a].transfers + 1)];
      return Some(a);
    }

    method ReleaseSnapshotTransfer(o: Object) returns (schedule: bool)
      requires o in objects
      modifies this
      ensures (View(), schedule) == Release(old(View()), o)
    {
      var a := objects[o];
      if a.transfers == 0 { return false; }
      a := a.(transfers := a.transfers - 1);
      schedule := a.root.id in retired && retired[a.root.id] == o && a.transfers == 0 && !a.cleanup;
      objects := objects[o := if schedule then a.(cleanup := true) else a];
    }

    method FinishRetiredCleanup(o: Object, removed: bool)
      requires o in objects
      modifies this
      ensures View() == Finish(old(View()), o, removed)
    {
      var id := objects[o].root.id;
      if !(id in retired && retired[id] == o) { return; }
      objects := objects[o := objects[o].(cleanup := false)];
      if removed { retired := retired - {id}; }
    }

    method RegisterArtifact(root: Root, added: Object) returns (ok: bool)
      requires Shape(View()) && added !in objects
      modifies this
      ensures (View(), ok) == Register(old(View()), root, added)
    {
      var o := added;
      if root.id in artifacts {
        o := artifacts[root.id];
        if objects[o].root != root { return false; }
      } else {
        objects := objects[added := Artifact(root, 0, 0, false, false)];
        artifacts := artifacts[root.id := added];
      }
      if latest.None? || Newer(root, objects[latest.value].root) { latest := Some(o); }
      return true;
    }
  }

  // ---- opening a repository ----

  ghost predicate Quiet(c: Core) {
    forall o | o in c.objects ::
      c.objects[o].transfers == 0 && c.objects[o].handoffUntil == 0 && !c.objects[o].timer && !c.objects[o].cleanup
  }

  lemma RegisterQuiet(c: Core, root: Root, added: Object, registered: set<Root>)
    requires Shape(c) && Quiet(c) && LatestNewest(c, registered) && added !in c.objects && root.id !in c.published
    ensures Register(c, root, added).1
    ensures var d := Register(c, root, added).0;
      && Shape(d) && Quiet(d) && LatestNewest(d, registered + {root})
      && d.retired == c.retired && d.closed == c.closed
      && d.objects.Keys == c.objects.Keys + {added} && d.published.Keys == c.published.Keys + {root.id}
  {
    RegisterLatest(c, root, added, registered);
    AddPlaces(c, root, added);
    var e := Add(c, root, added);
    var d := Register(c, root, added).0;
    RelabelPlaces(e, d.latest.value);
    hide Shape, IsPublished, IsRetired, LatestNewest, Newer;
    assert d == e.(latest := d.latest);
  }

  /** At most two artifacts have fewer than two newer ones. */
  lemma AtMostTwoNewest(c: Core, keep: set<Bytes>)
    requires Shape(c) && keep <= c.published.Keys && forall id | id in keep :: !BeyondRetention(c, id)
    ensures |keep| <= RETENTION
  {
    if |keep| > RETENTION {
      var x :| x in keep;
      assert |keep - {x}| == |keep| - 1;
      var y :| y in keep - {x};
      assert |keep - {x} - {y}| == |keep| - 2;
      var z :| z in keep - {x} - {y};
      OneIsBeyond(c, x, y, z);
    }
  }

  lemma OneIsBeyond(c: Core, x: Bytes, y: Bytes, z: Bytes)
    requires Shape(c) && x in c.published && y in c.published && z in c.published && x != y && y != z && x != z
    ensures BeyondRetention(c, x) || BeyondRetention(c, y) || BeyondRetention(c, z)
  {
    var p, q, r := c.objects[c.published[x]].root, c.objects[c.published[y]].root, c.objects[c.published[z]].root;
    NewerStrict(p, q);
    NewerStrict(q, r);
    NewerStrict(p, r);
    hide Newer;
    assert NewerPublished(c, x, y) || NewerPublished(c, y, x);
    assert NewerPublished(c, y, z) || NewerPublished(c, z, y);
    assert NewerPublished(c, x, z) || NewerPublished(c, z, x);
    hide NewerPublished;
    if NewerPublished(c, x, y) && NewerPublished(c, y, z) {
      NewerTransitive(r, q, p);
    } else if NewerPublished(c, y, x) && NewerPublished(c, x, z) {
      NewerTransitive(r, p, q);
    }
  }

  /** A repository whose only unfinished business is the cleanup of `left`, apart from the retired objects of
      `stuck`, whose cleanup has failed and been given up. */
  ghost predicate Cleaning(c: Core, left: multiset<Object>, stuck: set<Object>) {
    && Shape(c)
    && (forall o | o in c.objects ::
          var a := c.objects[o]; a.transfers == 0 && a.handoffUntil == 0 && !a.timer && (a.cleanup <==> o in left))
    && (forall o | o in left :: left[o] == 1 && IsRetired(c, o) && o !in stuck)
    && (forall o | o in stuck :: IsRetired(c, o))
    && (forall id | id in c.retired :: c.retired[id] in left || c.retired[id] in stuck)
  }

  lemma MovedQuiet(c: Core, now: nat)
    requires Shape(c) && Quiet(c)
    ensures Quiet(Moved(c, now))
  {
    MovedObjects(c, now);
    hide Moved, IsPublished, Shape, Victim;
  }

  lemma MovedFew(c: Core, now: nat)
    requires Shape(c) && Quiet(c)
    ensures |Moved(c, now).published| <= RETENTION
  {
    var m := Moved(c, now);
    forall id | id in m.published ensures id in c.published && !BeyondRetention(c, id) {}
    AtMostTwoNewest(c, m.published.Keys);
    assert |m.published.Keys| == |m.published|;
  }

  lemma ClaimsAll(m: Core)
    requires Shape(m) && Quiet(m)
    ensures Cleaning(Claimed(m, Claims(m)), multiset(Claims(m)), {})
  {
    var os := Claims(m);
    ClaimedObjects(m, os);
    SameRootsShape(m, Claimed(m, os));
    forall id | id in m.retired ensures m.retired[id] in os { RetiredAt(m, id); }
    assert forall o | o in os :: o in m.objects && IsRetired(m, o);
    hide Claimed, Claims, IsPublished, IsRetired, Shape;
  }

  lemma PrunedCleaning(c: Core, now: nat)
    requires Shape(c) && Quiet(c) && !c.closed && Shape(Moved(c, now))
    ensures var (d, os) := Retire(c, now);
      Cleaning(d, multiset(os), {}) && |d.published| <= RETENTION && !d.closed
  {
    MovedQuiet(c, now);
    MovedFew(c, now);
    ClaimsAll(Moved(c, now));
    hide Claims, Shape, Quiet, Cleaning;
  }

  lemma CleaningStep(c: Core, o: Object, left: multiset<Object>, stuck: set<Object>, removed: bool)
    requires Cleaning(c, left, stuck) && o in left
    ensures o in c.objects && IsRetired(c, o)
    ensures var d := Finish(c, o, removed);
      && Cleaning(d, left - multiset{o}, if removed then stuck else stuck + {o})
      && d.published == c.published && d.closed == c.closed
  {
    FinishPlaces(c, o, removed);
    FinishRest(c, o, removed);
    hide Shape, IsPublished, IsRetired, Finish;
    var d := Finish(c, o, removed);
    var fewer, more := left - multiset{o}, if removed then stuck else stuck + {o};
    OneFewer(left, o);
    hide *;
    forall id | id in d.retired ensures d.retired[id] in fewer || d.retired[id] in more {
      if id != c.objects[o].root.id { OtherRetired(c, o, id); }
    }
    CleaningFrom(c, d, o, left, fewer, stuck, more, removed);
  }

  lemma OneFewer(left: multiset<Object>, o: Object)
    requires o in left && left[o] == 1
    ensures var fewer := left - multiset{o};
      o !in fewer && forall p | p != o :: (p in fewer <==> p in left) && fewer[p] == left[p]
  {
  }

  lemma CleaningFrom(c: Core, d: Core, o: Object, left: multiset<Object>, fewer: multiset<Object>, stuck: set<Object>, more: set<Object>, removed: bool)
    requires Cleaning(c, left, stuck) && Shape(d) && o in left
    requires o !in fewer && forall p | p != o :: (p in fewer <==> p in left) && fewer[p] == left[p]
    requires more == if removed then stuck else stuck + {o}
    requires o in c.objects && d.objects == c.objects[o := c.objects[o].(cleanup := false)]
    requires forall p :: IsRetired(d, p) <==> IsRetired(c, p) && !(removed && p == o)
    requires forall id | id in d.retired :: d.retired[id] in fewer || d.retired[id] in more
    ensures Cleaning(d, fewer, more)
  {
    hide Shape, IsRetired;
  }

  lemma FinishRest(c: Core, o: Object, removed: bool)
    requires Shape(c) && IsRetired(c, o)
    ensures var d := Finish(c, o, removed);
      && d.objects == c.objects[o := c.objects[o].(cleanup := false)] && d.published == c.published && d.closed == c.closed
      && (forall id | id in d.retired :: id in c.retired && d.retired[id] == c.retired[id])
      && (removed ==> c.objects[o].root.id !in d.retired)
      && c.retired[c.objects[o].root.id] == o
  {
    hide Shape;
  }

  lemma OtherRetired(c: Core, o: Object, id: Bytes)
    requires Shape(c) && IsRetired(c, o) && id in c.retired && id != c.objects[o].root.id
    ensures c.retired[id] != o
  {
  }

  lemma CleaningDone(c: Core)
    requires Cleaning(c, multiset{}, {})
    ensures Shape(c) && Quiet(c) && c.retired == map[]
  {
    hide Shape, IsRetired;
    assert forall id :: id !in c.retired;
  }

  ghost function JustOpened(c: Core, now: nat, lifetime: nat, registered: set<Root>): System {
    System(c, now, lifetime, map[], multiset{}, multiset{}, multiset{}, None, registered, {})
  }

  ghost function RootSet(roots: seq<Root>): set<Root> {
    set r | r in roots
  }

  ghost function IdSet(roots: seq<Root>): set<Bytes> {
    set r | r in roots :: r.id
  }

  ghost predicate DistinctIds(roots: seq<Root>) {
    forall i, j | 0 <= i < j < |roots| :: roots[i].id != roots[j].id
  }

  /** The candidates whose files cannot be removed. */
  ghost function Unremovable(candidates: seq<Object>, removes: Object -> bool): set<Object> {
    set o | o in candidates && !removes(o)
  }

  /** The synchronous cleanup of a prune: every candidate is tried, and the failures are joined. A candidate whose
      removal fails stays retired and may be claimed again. */
  method CleanAll(repository: Repository, candidates: seq<Object>, ghost registered: set<Root>, removes: Object -> bool) returns (ok: bool)
    requires Cleaning(repository.View(), multiset(candidates), {}) && LatestNewest(repository.View(), registered)
    modifies repository
    ensures repository.View().published == old(repository.View().published) && repository.View().closed == old(repository.View().closed)
    ensures Cleaning(repository.View(), multiset{}, Unremovable(candidates, removes)) && LatestNewest(repository.View(), registered)
    ensures ok <==> Unremovable(candidates, removes) == {}
  {
    hide Cleaning, LatestNewest, Finish, IsRetired, Shape;
    ok := true;
    assert candidates[0..] == candidates && Unremovable(candidates[..0], removes) == {};
    for k := 0 to |candidates|
      invariant Cleaning(repository.View(), multiset(candidates[k..]), Unremovable(candidates[..k], removes))
      invariant LatestNewest(repository.View(), registered)
      invariant repository.artifacts == old(repository.artifacts) && repository.closed == old(repository.closed)
      invariant ok <==> Unremovable(candidates[..k], removes) == {}
    {
      var o := candidates[k];
      TakeFirst(candidates, k);
      UnremovableMore(candidates, k, removes);
      var removed := removes(o);
      CleaningStep(repository.View(), o, multiset(candidates[k..]), Unremovable(candidates[..k], removes), removed);
      FinishLatest(repository.View(), o, removed, registered);
      repository.FinishRetiredCleanup(o, removed);
      if !removed { ok := false; }
    }
    assert candidates[|candidates|..] == [] && candidates[..|candidates|] == candidates;
  }

  lemma UnremovableMore(candidates: seq<Object>, k: nat, removes: Object -> bool)
    requires k < |candidates|
    ensures Unremovable(candidates[..k + 1], removes) ==
            if removes(candidates[k]) then Unremovable(candidates[..k], removes)
            else Unremovable(candidates[..k], removes) + {candidates[k]}
  {
    assert candidates[..k + 1] == candidates[..k] + [candidates[k]];
  }

  lemma TakeFirst(s: seq<Object>, k: nat)
    requires k < |s|
    ensures s[k] in multiset(s[k..]) && multiset(s[k..]) - multiset{s[k]} == multiset(s[k + 1..])
  {
    assert s[k..] == [s[k]] + s[k + 1..];
  }

  /** Loading an inventory and pruning it: success means every victim was removed. */
  method Load(repository: Repository, roots: seq<Root>, now: nat, ghost lifetime: nat, removes: Object -> bool) returns (ok: bool)
    requires repository.View() == Core(map[], map[], map[], None, false) && DistinctIds(roots)
    requires forall r | r in roots :: r.id != []
    modifies repository
    ensures ok ==> Opened(JustOpened(repository.View(), now, lifetime, RootSet(roots)))
    ensures ok ==> forall r | r in roots :: r.id in repository.View().published <==> !TwoNewerRoots(roots, r)
    ensures !ok ==> exists o :: !removes(o)
  {
    LoadAll(repository, roots);
    ghost var registered := RootSet(roots);
    hide *;
    LoadedVictims(repository.View(), now, registered);
    KeepsTwoNewest(repository.View(), now, roots);
    NoEmptyId(repository.View(), now, roots);
    var found := repository.RetireSnapshotArtifacts(now);
    ghost var kept := repository.View().published;
    ok := CleanAll(repository, found.value, registered, removes);
    if ok {
      assert repository.View().published == kept;
      CleaningDone(repository.View());
      assert [] !in repository.View().published;
      OpenedAfterLoad(repository.View(), now, lifetime, registered);
    }
  }

  ghost predicate TwoNewerRoots(roots: seq<Root>, r: Root) {
    exists p, q :: p in roots && q in roots && p.id != q.id && Newer(p, r) && Newer(q, r)
  }

  lemma RootAt(c: Core, roots: seq<Root>, r: Root)
    requires Shape(c) && LatestNewest(c, RootSet(roots)) && c.published.Keys == IdSet(roots) && DistinctIds(roots) && r in roots
    ensures r.id in c.published && c.published[r.id] in c.objects && c.objects[c.published[r.id]].root == r
  {
    assert r.id in IdSet(roots);
    var q := c.objects[c.published[r.id]].root;
    assert q in roots && q.id == r.id;
    var i :| 0 <= i < |roots| && roots[i] == q;
    var j :| 0 <= j < |roots| && roots[j] == r;
    assert i == j;
    hide Newer, IsPublished, IsRetired;
  }

  lemma BeyondIsTwoNewer(c: Core, roots: seq<Root>, r: Root)
    requires Shape(c) && LatestNewest(c, RootSet(roots)) && c.published.Keys == IdSet(roots) && DistinctIds(roots) && r in roots
    ensures r.id in c.published && (BeyondRetention(c, r.id) <==> TwoNewerRoots(roots, r))
  {
    RootAt(c, roots, r);
    hide Newer, LatestNewest, DistinctIds, RootSet, IsPublished, IsRetired;
    if BeyondRetention(c, r.id) {
      var a, b :| a != b && NewerPublished(c, r.id, a) && NewerPublished(c, r.id, b);
      assert a in IdSet(roots) && b in IdSet(roots);
      var p :| p in roots && p.id == a;
      var q :| q in roots && q.id == b;
      RootAt(c, roots, p);
      RootAt(c, roots, q);
    }
    if TwoNewerRoots(roots, r) {
      var p, q :| p in roots && q in roots && p.id != q.id && Newer(p, r) && Newer(q, r);
      RootAt(c, roots, p);
      RootAt(c, roots, q);
      assert NewerPublished(c, r.id, p.id) && NewerPublished(c, r.id, q.id);
    }
  }

  /** A prune right after loading keeps exactly the two newest artifacts. */
  lemma KeepsTwoNewest(c: Core, now: nat, roots: seq<Root>)
    requires Shape(c) && Quiet(c) && !c.closed && LatestNewest(c, RootSet(roots)) && c.published.Keys == IdSet(roots) && DistinctIds(roots)
    ensures forall r | r in roots :: r.id in Retire(c, now).0.published <==> !TwoNewerRoots(roots, r)
  {
    var m := Moved(c, now);
    assert Retire(c, now).0.published == m.published;
    forall r | r in roots ensures r.id in m.published <==> !TwoNewerRoots(roots, r) {
      BeyondIsTwoNewer(c, roots, r);
      assert c.published[r.id] in c.objects;
      assert Victim(c, now, r.id) <==> BeyondRetention(c, r.id);
    }
    hide TwoNewerRoots, LatestNewest, DistinctIds, IsPublished, IsRetired;
  }

  lemma NoEmptyId(c: Core, now: nat, roots: seq<Root>)
    requires Shape(c) && c.published.Keys == IdSet(roots) && forall r | r in roots :: r.id != []
    ensures [] !in Retire(c, now).0.published
  {
    MovedMaps(c, now);
    hide Moved, Claims, Shape;
    assert [] !in IdSet(roots);
  }

  lemma LoadedVictims(c: Core, now: nat, registered: set<Root>)
    requires Shape(c) && Quiet(c) && c.retired == map[] && !c.closed && LatestNewest(c, registered)
    ensures c.latest.Some? ==> c.latest.value in c.objects && !Victim(c, now, c.objects[c.latest.value].root.id)
    ensures var (d, os) := Retire(c, now);
      Cleaning(d, multiset(os), {}) && |d.published| <= RETENTION && !d.closed && LatestNewest(d, registered)
  {
    hide Moved, Claims, Claimed, Victim, Shape, Quiet, LatestNewest, Cleaning;
    if c.latest.Some? { LatestInHeap(c, registered); LatestNeverRetired(c, now, registered); }
    MovedShape(c, now);
    PrunedCleaning(c, now);
    MovedLatest(c, now, registered);
    ClaimedObjects(Moved(c, now), Claims(Moved(c, now)));
    SameRootsLatest(Moved(c, now), Claimed(Moved(c, now), Claims(Moved(c, now))), registered);
  }

  lemma OpenedAfterLoad(c: Core, now: nat, lifetime: nat, registered: set<Root>)
    requires Shape(c) && Quiet(c) && c.retired == map[] && !c.closed && |c.published| <= RETENTION && LatestNewest(c, registered) && [] !in c.published
    ensures Opened(JustOpened(c, now, lifetime, registered))
  {
    hide Shape, LatestNewest;
  }

  method LoadAll(repository: Repository, roots: seq<Root>)
    requires repository.View() == Core(map[], map[], map[], None, false) && DistinctIds(roots)
    modifies repository
    ensures var c := repository.View();
      && Shape(c) && Quiet(c) && c.retired == map[] && !c.closed && LatestNewest(c, RootSet(roots)) && c.published.Keys == IdSet(roots)
  {
    EmptyLoaded(repository.View());
    hide *;
    for k := 0 to |roots|
      invariant Loaded(repository.View(), roots, k)
    {
      LoadedStep(repository.View(), roots, k);
      var added := repository.RegisterArtifact(roots[k], k);
    }
    LoadedEnd(repository.View(), roots);
  }

  /** The first `k` artifacts of the inventory have been registered. */
  ghost predicate Loaded(c: Core, roots: seq<Root>, k: nat) {
    && k <= |roots| && Shape(c) && Quiet(c) && c.retired == map[] && !c.closed
    && LatestNewest(c, RootSet(roots[..k]))
    && (forall o | o in c.objects :: o < k)
    && c.published.Keys == IdSet(roots[..k])
  }

  lemma EmptyLoaded(c: Core)
    requires c == Core(map[], map[], map[], None, false)
    ensures forall roots: seq<Root> :: Loaded(c, roots, 0)
  {
  }

  lemma LoadedStep(c: Core, roots: seq<Root>, k: nat)
    requires Loaded(c, roots, k) && k < |roots| && DistinctIds(roots)
    ensures Shape(c) && k !in c.objects
    ensures Loaded(Register(c, roots[k], k).0, roots, k + 1)
  {
    hide Register, Shape, LatestNewest, Quiet, DistinctIds;
    OneMoreRoot(roots, k);
    RegisterQuiet(c, roots[k], k, RootSet(roots[..k]));
  }

  lemma OneMoreRoot(roots: seq<Root>, k: nat)
    requires k < |roots| && DistinctIds(roots)
    ensures RootSet(roots[..k + 1]) == RootSet(roots[..k]) + {roots[k]}
    ensures IdSet(roots[..k + 1]) == IdSet(roots[..k]) + {roots[k].id}
    ensures roots[k].id !in IdSet(roots[..k])
  {
    var before, after := roots[..k], roots[..k + 1];
    assert after == before + [roots[k]];
    assert roots[k] in after;
    assert forall r | r in before :: r in after;
  }

  lemma LoadedEnd(c: Core, roots: seq<Root>)
    requires Loaded(c, roots, |roots|)
    ensures Shape(c) && Quiet(c) && c.retired == map[] && !c.closed && LatestNewest(c, RootSet(roots)) && c.published.Keys == IdSet(roots)
  {
    assert roots[..|roots|] == roots;
    hide Shape, LatestNewest, Quiet;
  }

  lemma MovedByVictims(c: Core, now: nat)
    requires Shape(c)
    ensures MovedBy(c, Victims(c, now)) == Moved(c, now)
  {
    hide Victim, IsPublished, Shape;
  }

  lemma RetiredAt(c: Core, id: Bytes)
    requires Shape(c) && id in c.retired
    ensures c.retired[id] in c.objects && c.objects[c.retired[id]].root.id == id && IsRetired(c, c.retired[id])
  {
  }

  /** The claims whose IDs have already been visited. */
  ghost function ClaimedOutside(c: Core, rest: set<Bytes>): set<Object> {
    set o | o in Claims(c) && c.objects[o].root.id !in rest
  }

  lemma ClaimedOutsideMore(c: Core, rest: set<Bytes>, id: Bytes)
    requires Shape(c) && id in rest && id in c.retired
    ensures c.retired[id] !in ClaimedOutside(c, rest)
    ensures ClaimedOutside(c, rest - {id}) == ClaimedOutside(c, rest) + if c.retired[id] in Claims(c) then {c.retired[id]} else {}
  {
    RetiredAt(c, id);
    hide Shape, IsPublished;
  }

  lemma ClaimedMoreIf(c: Core, os: set<Object>, o: Object)
    requires o in c.objects && o !in os
    ensures o in Claimed(c, os).objects && Claimed(c, os).objects[o] == c.objects[o]
    ensures IsRetired(c, o) ==> (o in Claims(c) <==> c.objects[o].transfers == 0 && !c.objects[o].cleanup)
  {
  }

  lemma ClaimedOutsideAll(c: Core)
    ensures ClaimedOutside(c, {}) == Claims(c)
  {
  }
}
