/** The event and result chains of internal/chain/hash.go and result.go: domain-separated
    preimages, generation seeds, and heads over whole appended sequences. */
module HashChain {
  import opened Bytes
  import opened CanonicalJson
  import opened Wrappers

  datatype Boundary = Boundary(
    genesis: Digest,
    generation: nat,
    chainIndex: nat,
    resultIndex: nat,
    chainHash: Digest,
    resultHash: Digest)

  predicate ValidBoundary(b: Boundary) {
    && b.generation <= MAX_SAFE_INTEGER
    && b.chainIndex <= MAX_SAFE_INTEGER
    && b.resultIndex <= MAX_SAFE_INTEGER
    && b.chainIndex <= b.resultIndex
    && (b.generation == 0 ==>
          b.chainIndex == 0 && b.resultIndex == 0 && b.chainHash == ZERO_DIGEST && b.resultHash == ZERO_DIGEST)
    && (b.generation > 0 ==> b.chainHash != ZERO_DIGEST && b.resultHash != ZERO_DIGEST)
  }

  /** Every hashed string is a domain label, a zero byte, and the concatenated parts. */
  function Framed(domain: Bytes, content: Bytes): Bytes {
    domain + [0] + content
  }

  predicate IsLabel(domain: Bytes) {
    forall i | 0 <= i < |domain| :: domain[i] != 0
  }

  /** Strings framed under different labels never coincide, whatever their content. */
  lemma LabelsSeparate(l: Bytes, x: Bytes, m: Bytes, y: Bytes)
    requires IsLabel(l) && IsLabel(m) && Framed(l, x) == Framed(m, y)
    ensures l == m && x == y
  {
    var s := Framed(l, x);
    assert s[|l|] == 0 && s[|m|] == 0;
    assert forall i | 0 <= i < |l| :: s[i] == l[i];
    assert forall i | 0 <= i < |m| :: s[i] == m[i];
    assert |l| == |m|;
    SplitEqual(l + [0], x, m + [0], y);
    SplitEqual(l, [0], m, [0]);
  }

  function SeedContent(b: Boundary): Bytes {
    if b.generation == 0 then b.genesis
    else b.genesis + (Uint64(b.generation) + (Uint64(b.chainIndex) + (b.chainHash + (Uint64(b.resultIndex) + b.resultHash))))
  }

  lemma SafeIntegerFramingExact(a: nat, x: Bytes, b: nat, y: Bytes)
    requires a <= MAX_SAFE_INTEGER && b <= MAX_SAFE_INTEGER && Uint64(a) + x == Uint64(b) + y
    ensures a == b && x == y
  {
    SplitEqual(Uint64(a), x, Uint64(b), y);
    Uint64Injective(a, b);
  }

  /** A seed determines its whole boundary. */
  lemma SeedContentInjective(a: Boundary, b: Boundary)
    requires ValidBoundary(a) && ValidBoundary(b) && SeedContent(a) == SeedContent(b)
    ensures a == b
  {
    hide BigEndian;
    assert a.generation == 0 <==> |SeedContent(a)| == 32;
    assert b.generation == 0 <==> |SeedContent(b)| == 32;
    if a.generation > 0 {
      var a4, b4 := Uint64(a.resultIndex) + a.resultHash, Uint64(b.resultIndex) + b.resultHash;
      var a2, b2 := Uint64(a.chainIndex) + (a.chainHash + a4), Uint64(b.chainIndex) + (b.chainHash + b4);
      SplitEqual(a.genesis, Uint64(a.generation) + a2, b.genesis, Uint64(b.generation) + b2);
      SafeIntegerFramingExact(a.generation, a2, b.generation, b2);
      SafeIntegerFramingExact(a.chainIndex, a.chainHash + a4, b.chainIndex, b.chainHash + b4);
      SplitEqual(a.chainHash, a4, b.chainHash, b4);
      SafeIntegerFramingExact(a.resultIndex, a.resultHash, b.resultIndex, b.resultHash);
    }
  }

  /** An appended payload is the text of a JSON object. */
  predicate IsPayload(payload: Bytes) {
    payload != [] && payload[0] == OPEN_BRACE
  }

  lemma ObjectTextIsPayload(members: seq<Member>)
    ensures IsPayload(Print(Obj(members)))
  {
  }

  /** Seeds and appends share a domain label, yet no seed content is ever an append content. A seed
      of generation 0 ends after 32 bytes; any other has a zero byte where the payload's
      opening brace would stand. */
  lemma SeedIsNeverAppend(b: Boundary, previous: Digest, payload: Bytes)
    requires ValidBoundary(b) && IsPayload(payload)
    ensures SeedContent(b) != previous + payload
  {
    hide BigEndian;
    assert (previous + payload)[32] == OPEN_BRACE;
    if b.generation > 0 {
      SafeIntegerLeadsWithZero(b.generation);
      assert SeedContent(b)[32] == Uint64(b.generation)[0];
    }
  }

  function Last(s: seq<Bytes>): Bytes
    requires s != []
  {
    s[|s| - 1]
  }

  function Init(s: seq<Bytes>): seq<Bytes>
    requires s != []
  {
    s[..|s| - 1]
  }

  /** The chain head after appending `payloads` to the seed of `b`. */
  function Head(H: Hash, domain: Bytes, b: Boundary, payloads: seq<Bytes>): Digest
    decreases |payloads|
  {
    H(HeadPreimage(H, domain, b, payloads))
  }

  function HeadPreimage(H: Hash, domain: Bytes, b: Boundary, payloads: seq<Bytes>): Bytes
    decreases |payloads|, 0
  {
    if payloads == [] then Framed(domain, SeedContent(b))
    else Framed(domain, Head(H, domain, b, Init(payloads)) + Last(payloads))
  }

  /** Everything hashed on the way to a head. */
  function Preimages(H: Hash, domain: Bytes, b: Boundary, payloads: seq<Bytes>): set<Bytes>
    decreases |payloads|
  {
    {HeadPreimage(H, domain, b, payloads)} +
    if payloads == [] then {} else Preimages(H, domain, b, Init(payloads))
  }

  lemma CollisionGrows(H: Hash, p: set<Bytes>, q: set<Bytes>, p': set<Bytes>, q': set<Bytes>)
    requires CollisionBetween(H, p, q) && p <= p' && q <= q'
    ensures CollisionBetween(H, p', q')
  {
  }

  /** Equal heads commit to the same boundary and the same whole history, even when the two
      histories have different lengths, unless two of the strings hashed for them collide. */
  lemma {:induction false} HeadCommitsToHistory(H: Hash, domain: Bytes, b: Boundary, ps: seq<Bytes>, c: Boundary, qs: seq<Bytes>)
    requires ValidBoundary(b) && ValidBoundary(c)
    requires forall i | 0 <= i < |ps| :: IsPayload(ps[i])
    requires forall i | 0 <= i < |qs| :: IsPayload(qs[i])
    requires Head(H, domain, b, ps) == Head(H, domain, c, qs)
    ensures (b == c && ps == qs)
         || CollisionBetween(H, Preimages(H, domain, b, ps), Preimages(H, domain, c, qs))
    decreases |ps|
  {
    hide SeedContent, IsPayload;
    var x, y := HeadPreimage(H, domain, b, ps), HeadPreimage(H, domain, c, qs);
    if x == y {
      if ps == [] && qs == [] {
        SplitEqual(domain + [0], SeedContent(b), domain + [0], SeedContent(c));
        SeedContentInjective(b, c);
      } else if ps == [] {
        SplitEqual(domain + [0], SeedContent(b), domain + [0], Head(H, domain, c, Init(qs)) + Last(qs));
        SeedIsNeverAppend(b, Head(H, domain, c, Init(qs)), Last(qs));
      } else if qs == [] {
        SplitEqual(domain + [0], Head(H, domain, b, Init(ps)) + Last(ps), domain + [0], SeedContent(c));
        SeedIsNeverAppend(c, Head(H, domain, b, Init(ps)), Last(ps));
      } else {
        var h, g := Head(H, domain, b, Init(ps)), Head(H, domain, c, Init(qs));
        SplitEqual(domain + [0], h + Last(ps), domain + [0], g + Last(qs));
        SplitEqual(h, Last(ps), g, Last(qs));
        HeadCommitsToHistory(H, domain, b, Init(ps), c, Init(qs));
        if b == c && Init(ps) == Init(qs) {
          assert ps == Init(ps) + [Last(ps)] && qs == Init(qs) + [Last(qs)];
        } else {
          CollisionGrows(H, Preimages(H, domain, b, Init(ps)), Preimages(H, domain, c, Init(qs)),
                         Preimages(H, domain, b, ps), Preimages(H, domain, c, qs));
        }
      }
    } else {
      assert x in Preimages(H, domain, b, ps) && y in Preimages(H, domain, c, qs);
    }
  }

  /** Heads of chains under different labels (events and results) agree only on a collision. */
  lemma ChainsNeverCross(H: Hash, l: Bytes, b: Boundary, ps: seq<Bytes>, m: Bytes, c: Boundary, qs: seq<Bytes>)
    requires IsLabel(l) && IsLabel(m) && l != m
    requires Head(H, l, b, ps) == Head(H, m, c, qs)
    ensures CollisionBetween(H, Preimages(H, l, b, ps), Preimages(H, m, c, qs))
  {
    hide SeedContent;
    assert H(HeadPreimage(H, l, b, ps)) == H(HeadPreimage(H, m, c, qs));
    var x, y := HeadPreimage(H, l, b, ps), HeadPreimage(H, m, c, qs);
    if x == y {
      var u := if ps == [] then SeedContent(b) else Head(H, l, b, Init(ps)) + Last(ps);
      var v := if qs == [] then SeedContent(c) else Head(H, m, c, Init(qs)) + Last(qs);
      LabelsSeparate(l, u, m, v);
    }
    assert x in Preimages(H, l, b, ps) && y in Preimages(H, m, c, qs);
  }
}
