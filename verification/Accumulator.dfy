/** The projection accumulator: seeds of hash.go and AppendAccumulator of projection.go. */
module Accumulator {
  import opened Bytes
  import opened CanonicalJson
  import opened Wrappers
  import opened HashChain
  import opened KeyedOrder
  import opened Mapping
  import opened Mutations
  import opened MutationCodec

  datatype Seed =
    | Initial(genesis: Digest, state: Digest)
    | Successor(previous: Digest, genesis: Digest, state: Digest)

  datatype Step = Step(resultIndex: nat, resultHash: Digest, mutations: seq<Mutation>)

  predicate ValidStep(s: Schema, step: Step) {
    0 < step.resultIndex <= MAX_SAFE_INTEGER && Encodable(s, step.mutations)
  }

  function SeedBytes(seed: Seed): Bytes {
    match seed
    case Initial(genesis, state) => genesis + state
    case Successor(previous, genesis, state) => previous + (genesis + state)
  }

  function StepBytes(s: Schema, previous: Digest, step: Step): Bytes {
    var encoded := Encoding(s, step.mutations);
    previous + (Uint64(step.resultIndex) + (step.resultHash + (Uint64(|encoded|) + encoded)))
  }

  lemma {:induction false} JoinIsLong(pieces: seq<Bytes>)
    requires forall i | 0 <= i < |pieces| :: |pieces[i]| >= 3
    ensures pieces != [] ==> |Join(pieces)| >= 4 * |pieces| - 1
  {
    if |pieces| > 1 { JoinIsLong(pieces[1..]); }
  }

  lemma FourPiecesAreLong(a: Bytes, b: Bytes, c: Bytes, d: Bytes, w: Bytes, x: Bytes, y: Bytes, z: Bytes)
    requires |a| >= 2 && |b| >= 2 && |c| >= 2 && |d| >= 2
    ensures |Flatten([[OPEN_BRACE] + a + [COLON], w, [COMMA] + b + [COLON], x, [COMMA] + c + [COLON], y,
                      [COMMA] + d + [COLON], z, [CLOSE_BRACE]])| > 16
  {
    hide Join, Flatten;
    FourPieces(a, b, c, d, w, x, y, z);
    JoinIsLong([a + [COLON] + w, b + [COLON] + x, c + [COLON] + y, d + [COLON] + z]);
  }

  lemma EntryIsLong(s: Schema, p: Prepared)
    ensures |EntryText(s, p)| > 16
  {
    hide Flatten, Escape, NameOf, Nullable;
    FourPiecesAreLong(Quoted(AFTER), Quoted(BEFORE), Quoted(PRIMARY_KEY), Quoted(TABLE),
                      Nullable(p.payload.after), Nullable(p.payload.before), p.key, Quoted(NameOf(s, p)));
  }

  /** An encoding is the two-byte empty list or longer than sixteen bytes: no append content
      has the length of a successor seed. */
  lemma EncodingNeverSixteen(s: Schema, ms: seq<Mutation>)
    ensures |Encoding(s, ms)| != 16 && |Encoding(s, ms)| >= 2
  {
    var sorted := Sort(PrepareAll(s, ms));
    var texts := EntryTexts(s, sorted);
    if sorted != [] {
      EntryIsLong(s, sorted[0]);
      assert |Join(texts)| >= |texts[0]|;
    }
  }

  lemma SeedIsNeverStep(s: Schema, seed: Seed, previous: Digest, step: Step)
    ensures SeedBytes(seed) != StepBytes(s, previous, step)
  {
    EncodingNeverSixteen(s, step.mutations);
    var encoded := Encoding(s, step.mutations);
    assert |StepBytes(s, previous, step)| == 80 + |encoded|;
    assert |SeedBytes(seed)| == 64 || |SeedBytes(seed)| == 96;
  }

  /** The two kinds of seed never coincide, and each determines its inputs. */
  lemma SeedBytesInjective(a: Seed, b: Seed)
    requires SeedBytes(a) == SeedBytes(b)
    ensures a == b
  {
    assert |SeedBytes(a)| == (if a.Initial? then 64 else 96);
    assert |SeedBytes(b)| == (if b.Initial? then 64 else 96);
    if a.Initial? {
      SplitEqual(a.genesis, a.state, b.genesis, b.state);
    } else {
      SplitEqual(a.previous, a.genesis + a.state, b.previous, b.genesis + b.state);
      SplitEqual(a.genesis, a.state, b.genesis, b.state);
    }
  }

  ghost predicate SameStep(a: Step, b: Step) {
    a.resultIndex == b.resultIndex && a.resultHash == b.resultHash && multiset(a.mutations) == multiset(b.mutations)
  }

  lemma StepBytesInjective(s: Schema, p: Digest, a: Step, q: Digest, b: Step)
    requires WellFormed(s) && ValidStep(s, a) && ValidStep(s, b)
    requires StepBytes(s, p, a) == StepBytes(s, q, b)
    ensures p == q && SameStep(a, b)
  {
    hide Encoding, BigEndian, WellFormed, AllValid;
    var x, y := Encoding(s, a.mutations), Encoding(s, b.mutations);
    var a1, b1 := Uint64(|x|) + x, Uint64(|y|) + y;
    var a2, b2 := a.resultHash + a1, b.resultHash + b1;
    SplitEqual(p, Uint64(a.resultIndex) + a2, q, Uint64(b.resultIndex) + b2);
    SafeIntegerFramingExact(a.resultIndex, a2, b.resultIndex, b2);
    SplitEqual(a.resultHash, a1, b.resultHash, b1);
    SplitEqual(Uint64(|x|), x, Uint64(|y|), y);
    EncodingInjective(s, a.mutations, b.mutations);
  }

  function Front(steps: seq<Step>): seq<Step>
    requires steps != []
  {
    steps[..|steps| - 1]
  }

  function AccumulatorPreimage(H: Hash, domain: Bytes, s: Schema, seed: Seed, steps: seq<Step>): Bytes
    decreases |steps|
  {
    if steps == [] then Framed(domain, SeedBytes(seed))
    else Framed(domain, StepBytes(s, H(AccumulatorPreimage(H, domain, s, seed, Front(steps))), steps[|steps| - 1]))
  }

  function AccumulatorHead(H: Hash, domain: Bytes, s: Schema, seed: Seed, steps: seq<Step>): Digest {
    H(AccumulatorPreimage(H, domain, s, seed, steps))
  }

  function AccumulatorPreimages(H: Hash, domain: Bytes, s: Schema, seed: Seed, steps: seq<Step>): set<Bytes>
    decreases |steps|
  {
    {AccumulatorPreimage(H, domain, s, seed, steps)} +
    if steps == [] then {} else AccumulatorPreimages(H, domain, s, seed, Front(steps))
  }

  ghost predicate SameHistory(a: seq<Step>, b: seq<Step>) {
    |a| == |b| && forall i | 0 <= i < |a| :: SameStep(a[i], b[i])
  }

  /** Equal accumulator heads commit to the same seed and, step by step, to the same result
      index, result hash and set of mutations, unless two strings hashed for them collide. */
  lemma {:induction false} AccumulatorCommitsToHistory(H: Hash, domain: Bytes, s: Schema, p: Seed, a: seq<Step>, q: Seed, b: seq<Step>)
    requires WellFormed(s)
    requires forall i | 0 <= i < |a| :: ValidStep(s, a[i])
    requires forall i | 0 <= i < |b| :: ValidStep(s, b[i])
    requires AccumulatorHead(H, domain, s, p, a) == AccumulatorHead(H, domain, s, q, b)
    ensures (p == q && SameHistory(a, b))
         || CollisionBetween(H, AccumulatorPreimages(H, domain, s, p, a), AccumulatorPreimages(H, domain, s, q, b))
    decreases |a|
  {
    hide SeedBytes, StepBytes, WellFormed, ValidStep, SameStep;
    var x, y := AccumulatorPreimage(H, domain, s, p, a), AccumulatorPreimage(H, domain, s, q, b);
    if x != y {
      assert x in AccumulatorPreimages(H, domain, s, p, a) && y in AccumulatorPreimages(H, domain, s, q, b);
    } else if a == [] && b == [] {
      SplitEqual(domain + [0], SeedBytes(p), domain + [0], SeedBytes(q));
      SeedBytesInjective(p, q);
    } else if a == [] {
      var h := AccumulatorHead(H, domain, s, q, Front(b));
      SplitEqual(domain + [0], SeedBytes(p), domain + [0], StepBytes(s, h, b[|b| - 1]));
      SeedIsNeverStep(s, p, h, b[|b| - 1]);
    } else if b == [] {
      var h := AccumulatorHead(H, domain, s, p, Front(a));
      SplitEqual(domain + [0], StepBytes(s, h, a[|a| - 1]), domain + [0], SeedBytes(q));
      SeedIsNeverStep(s, q, h, a[|a| - 1]);
    } else {
      var g, h := AccumulatorHead(H, domain, s, p, Front(a)), AccumulatorHead(H, domain, s, q, Front(b));
      SplitEqual(domain + [0], StepBytes(s, g, a[|a| - 1]), domain + [0], StepBytes(s, h, b[|b| - 1]));
      StepBytesInjective(s, g, a[|a| - 1], h, b[|b| - 1]);
      AccumulatorCommitsToHistory(H, domain, s, p, Front(a), q, Front(b));
      if !(p == q && SameHistory(Front(a), Front(b))) {
        CollisionGrows(H, AccumulatorPreimages(H, domain, s, p, Front(a)), AccumulatorPreimages(H, domain, s, q, Front(b)),
                       AccumulatorPreimages(H, domain, s, p, a), AccumulatorPreimages(H, domain, s, q, b));
      }
    }
  }
}
