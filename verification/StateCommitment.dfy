/** Equal state digests mean equal versions and equal rows, or a collision among the strings hashed. */
module StateCommitment {
  import opened Bytes
  import opened CanonicalJson
  import opened Wrappers
  import opened HashChain
  import opened KeyedOrder
  import opened Mutations
  import opened StateDigest
  import opened StateDigestProofs

  /** Every string hashed on the way to a state digest. */
  ghost function Hashed(c: Config, rows: seq<Row>): set<Bytes>
    requires ValidConfig(c) && Complete(c, rows)
  {
    {StatePreimage(c, rows)}
    + (set t | 0 <= t < |c.counts| :: TablePreimage(c, t, rows))
    + (set i | 0 <= i < |rows| :: RowPreimage(c, rows[i]))
  }

  /** Two digesters of the same repository: only versions and counts may differ. */
  ghost predicate Comparable(a: Config, b: Config) {
    && ValidConfig(a) && ValidConfig(b)
    && a.H == b.H && a.domains == b.domains && a.schema == b.schema
    && WellFormed(a.schema)
    && (forall t | 0 <= t < |a.schema.names| :: |a.schema.names[t]| < TWO_TO_64)
  }

  lemma LengthyPrefixFree(a: Bytes, x: Bytes, b: Bytes, y: Bytes)
    requires |a| < TWO_TO_64 && |b| < TWO_TO_64 && Lengthy(a) + x == Lengthy(b) + y
    ensures a == b && x == y
  {
    hide BigEndian, Uint64;
    Regroup(Uint64(|a|), a, x);
    Regroup(Uint64(|b|), b, y);
    SplitEqual(Uint64(|a|), a + x, Uint64(|b|), b + y);
    Uint64Injective(|a|, |b|);
    SplitEqual(a, x, b, y);
  }

  lemma SameFrame(domain: Bytes, x: Bytes, y: Bytes)
    requires Framed(domain, x) == Framed(domain, y)
    ensures x == y
  {
    SplitEqual(domain + [0], x, domain + [0], y);
  }

  lemma NamesDiffer(s: Schema, i: nat, j: nat)
    requires WellFormed(s) && i < |s.names| && j < |s.names| && s.names[i] == s.names[j]
    ensures i == j
  {
  }

  lemma RowSizes(s: Schema, r: Row)
    requires WellFormed(s) && ValidRow(s, r)
    ensures |r.key| < TWO_TO_64 && |r.payload| < TWO_TO_64
  {
    assert IsArrayText(r.key) && IsObjectText(r.payload);
    hide Print;
  }

  lemma RowPreimageInjective(a: Config, r: Row, b: Config, q: Row)
    requires Comparable(a, b) && ValidRow(a.schema, r) && ValidRow(b.schema, q)
    requires RowPreimage(a, r) == RowPreimage(b, q)
    ensures r == q
  {
    hide Lengthy, Framed, WellFormed;
    var s := a.schema;
    RowSizes(s, r);
    RowSizes(s, q);
    var x, y := Lengthy(r.key) + Lengthy(r.payload), Lengthy(q.key) + Lengthy(q.payload);
    SameFrame(a.domains.row, Lengthy(s.names[r.table]) + x, Lengthy(s.names[q.table]) + y);
    LengthyPrefixFree(s.names[r.table], x, s.names[q.table], y);
    NamesDiffer(s, r.table, q.table);
    LengthyPrefixFree(r.key, Lengthy(r.payload), q.key, Lengthy(q.payload));
    assert Lengthy(r.payload) + [] == Lengthy(r.payload) && Lengthy(q.payload) + [] == Lengthy(q.payload);
    LengthyPrefixFree(r.payload, [], q.payload, []);
  }

  lemma {:induction false} RowDigestsAgree(a: Config, rs: seq<Row>, b: Config, qs: seq<Row>, i: nat)
    requires |rs| == |qs| && i < |rs|
    requires forall k | 0 <= k < |rs| :: rs[k].table < |a.schema.names|
    requires forall k | 0 <= k < |qs| :: qs[k].table < |b.schema.names|
    requires RowDigests(a, rs) == RowDigests(b, qs)
    ensures a.H(RowPreimage(a, rs[i])) == b.H(RowPreimage(b, qs[i]))
    decreases |rs|
  {
    hide RowPreimage;
    var n := |rs| - 1;
    SplitEqual(RowDigests(a, rs[..n]), a.H(RowPreimage(a, rs[n])), RowDigests(b, qs[..n]), b.H(RowPreimage(b, qs[n])));
    if i < n { RowDigestsAgree(a, rs[..n], b, qs[..n], i); }
  }

  lemma {:induction false} TableDigestsAgree(a: Config, rs: seq<Row>, b: Config, qs: seq<Row>, k: nat, t: nat)
    requires k <= |a.schema.names| && k <= |a.counts| && k <= |b.schema.names| && k <= |b.counts| && t < k
    requires TableDigests(a, rs, k) == TableDigests(b, qs, k)
    ensures a.H(TablePreimage(a, t, rs)) == b.H(TablePreimage(b, t, qs))
  {
    hide TablePreimage;
    SplitEqual(TableDigests(a, rs, k - 1), a.H(TablePreimage(a, k - 1, rs)), TableDigests(b, qs, k - 1), b.H(TablePreimage(b, k - 1, qs)));
    if t < k - 1 { TableDigestsAgree(a, rs, b, qs, k - 1, t); }
  }

  lemma SafePair(a: nat, b: nat, x: Bytes, c: nat, d: nat, y: Bytes)
    requires a <= MAX_SAFE_INTEGER && b <= MAX_SAFE_INTEGER && c <= MAX_SAFE_INTEGER && d <= MAX_SAFE_INTEGER
    requires Uint64(a) + Uint64(b) + x == Uint64(c) + Uint64(d) + y
    ensures a == c && b == d && x == y
  {
    hide BigEndian, Uint64;
    Regroup(Uint64(a), Uint64(b), x);
    Regroup(Uint64(c), Uint64(d), y);
    SafeIntegerFramingExact(a, Uint64(b) + x, c, Uint64(d) + y);
    SafeIntegerFramingExact(b, x, d, y);
  }

  lemma FrameRegroup(domain: Bytes, x: Bytes, y: Bytes)
    ensures Framed(domain, x) + y == Framed(domain, x + y)
  {
    Regroup(domain + [0], x, y);
  }

  lemma StatePreimageInjective(a: Config, rs: seq<Row>, b: Config, qs: seq<Row>)
    requires Comparable(a, b) && StatePreimage(a, rs) == StatePreimage(b, qs)
    ensures a.versions == b.versions && TableDigests(a, rs, |a.counts|) == TableDigests(b, qs, |b.counts|)
  {
    hide Framed, TableDigests, Uint64, WellFormed;
    var x, y := TableDigests(a, rs, |a.counts|), TableDigests(b, qs, |b.counts|);
    var h := Uint64(a.versions.digest) + Uint64(a.versions.projectionSchema);
    var g := Uint64(b.versions.digest) + Uint64(b.versions.projectionSchema);
    FrameRegroup(a.domains.state, h, x);
    FrameRegroup(b.domains.state, g, y);
    SameFrame(a.domains.state, h + x, g + y);
    SafePair(a.versions.digest, a.versions.projectionSchema, x, b.versions.digest, b.versions.projectionSchema, y);
  }

  lemma TablePreimageInjective(a: Config, rs: seq<Row>, b: Config, qs: seq<Row>, t: nat)
    requires Comparable(a, b) && t < |a.counts| && TablePreimage(a, t, rs) == TablePreimage(b, t, qs)
    ensures a.counts[t] == b.counts[t]
    ensures RowDigests(a, RowsOf(rs, t)) == RowDigests(b, RowsOf(qs, t))
  {
    hide Framed, RowDigests, Uint64, WellFormed, RowsOf, Lengthy;
    var x, y := RowDigests(a, RowsOf(rs, t)), RowDigests(b, RowsOf(qs, t));
    var name := a.schema.names[t];
    var u, v := Uint64(a.counts[t]), Uint64(b.counts[t]);
    FrameRegroup(a.domains.table, Lengthy(name) + u, x);
    FrameRegroup(b.domains.table, Lengthy(name) + v, y);
    SameFrame(a.domains.table, Lengthy(name) + u + x, Lengthy(name) + v + y);
    Regroup(Lengthy(name), u, x);
    Regroup(Lengthy(name), v, y);
    LengthyPrefixFree(name, u + x, name, v + y);
    SafeIntegerFramingExact(a.counts[t], x, b.counts[t], y);
  }

  lemma {:induction false} InRowsOf(rows: seq<Row>, r: Row)
    requires r in rows
    ensures r in RowsOf(rows, r.table)
  {
    var n := |rows| - 1;
    if r == rows[n] {
      assert RowsOf(rows, r.table)[|RowsOf(rows, r.table)| - 1] == r;
    } else {
      InRowsOf(rows[..n], r);
    }
  }

  /** Strictly ordered rows are determined by their tables' contents. */
  lemma TablesDetermineRows(rs: seq<Row>, qs: seq<Row>)
    requires StrictlySorted(rs) && StrictlySorted(qs)
    requires forall r | r in rs :: r in qs
    requires forall q | q in qs :: q in rs
    ensures rs == qs
  {
    NeighboursSuffice(rs);
    NeighboursSuffice(qs);
    forall r ensures multiset(rs)[r] == multiset(qs)[r] {
      OnceInMultiset(rs, r);
      OnceInMultiset(qs, r);
      assert r in multiset(rs) <==> r in rs;
      assert r in multiset(qs) <==> r in qs;
    }
    SortedArrangementUnique(rs, qs);
  }

  lemma CollisionWitness(H: Hash, p: set<Bytes>, q: set<Bytes>, x: Bytes, y: Bytes)
    requires x in p && y in q && H(x) == H(y) && !CollisionBetween(H, p, q)
    ensures x == y
  {
  }

  lemma HashedHolds(c: Config, rows: seq<Row>)
    requires ValidConfig(c) && Complete(c, rows)
    ensures StatePreimage(c, rows) in Hashed(c, rows)
    ensures forall t | 0 <= t < |c.counts| :: TablePreimage(c, t, rows) in Hashed(c, rows)
    ensures forall i | 0 <= i < |rows| :: RowPreimage(c, rows[i]) in Hashed(c, rows)
  {
    hide StatePreimage, TablePreimage, RowPreimage, Complete;
  }

  /** A table's digest fixes its rows. */
  lemma TableCommits(a: Config, rs: seq<Row>, b: Config, qs: seq<Row>, t: nat)
    requires Comparable(a, b) && Complete(a, rs) && Complete(b, qs) && t < |a.counts|
    requires a.H(TablePreimage(a, t, rs)) == b.H(TablePreimage(b, t, qs))
    requires !CollisionBetween(a.H, Hashed(a, rs), Hashed(b, qs))
    ensures a.counts[t] == b.counts[t] && RowsOf(rs, t) == RowsOf(qs, t)
  {
    hide TablePreimage, RowPreimage, Hashed, WellFormed, RowDigests, StrictlySorted, CollisionBetween;
    HashedHolds(a, rs);
    HashedHolds(b, qs);
    CollisionWitness(a.H, Hashed(a, rs), Hashed(b, qs), TablePreimage(a, t, rs), TablePreimage(b, t, qs));
    TablePreimageInjective(a, rs, b, qs, t);
    var x, y := RowsOf(rs, t), RowsOf(qs, t);
    assert |x| == |y|;
    hide RowsOf;
    forall i | 0 <= i < |x| ensures x[i] == y[i] {
      RowDigestsAgree(a, x, b, y, i);
      CollisionWitness(a.H, Hashed(a, rs), Hashed(b, qs), RowPreimage(a, x[i]), RowPreimage(b, y[i]));
      RowPreimageInjective(a, x[i], b, y[i]);
    }
  }

  lemma SameMembers(rs: seq<Row>, qs: seq<Row>, n: nat)
    requires forall i | 0 <= i < |rs| :: rs[i].table < n
    requires forall t | 0 <= t < n :: RowsOf(rs, t) == RowsOf(qs, t)
    ensures forall r | r in rs :: r in qs
  {
    forall r | r in rs ensures r in qs {
      InRowsOf(rs, r);
      assert r in RowsOf(qs, r.table);
    }
  }

  lemma StateDigestCommits(a: Config, rs: seq<Row>, b: Config, qs: seq<Row>)
    requires Comparable(a, b) && Complete(a, rs) && Complete(b, qs)
    requires StateSpec(a, rs) == StateSpec(b, qs)
    ensures (a == b && rs == qs) || CollisionBetween(a.H, Hashed(a, rs), Hashed(b, qs))
  {
    hide StatePreimage, TablePreimage, RowPreimage, Hashed, WellFormed, RowDigests, StrictlySorted, CollisionBetween, TableDigests, RowsOf;
    if !CollisionBetween(a.H, Hashed(a, rs), Hashed(b, qs)) {
      HashedHolds(a, rs);
      HashedHolds(b, qs);
      CollisionWitness(a.H, Hashed(a, rs), Hashed(b, qs), StatePreimage(a, rs), StatePreimage(b, qs));
      StatePreimageInjective(a, rs, b, qs);
      forall t | 0 <= t < |a.counts| ensures a.counts[t] == b.counts[t] && RowsOf(rs, t) == RowsOf(qs, t) {
        TableDigestsAgree(a, rs, b, qs, |a.counts|, t);
        TableCommits(a, rs, b, qs, t);
      }
      assert a.counts == b.counts;
      SameMembers(rs, qs, |a.counts|);
      SameMembers(qs, rs, |a.counts|);
      TablesDetermineRows(rs, qs);
    }
  }
}
