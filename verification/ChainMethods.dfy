/** The hashing procedures of internal/chain/hash.go and projection.go: a hasher fed piece by piece, the
    seeds, and the appends, proved against heads over whole histories. */
module ChainMethods {
  import opened Bytes
  import opened CanonicalJson
  import opened Wrappers
  import opened CanonicalProfile
  import opened HashChain
  import opened ResultChain
  import opened Mapping
  import opened Mutations
  import opened MutationCodec
  import opened MutationMethods
  import opened Accumulator

  /** An incremental hash: what has been written decides the sum. */
  class Hasher {
    const H: Hash
    var input: Bytes

    constructor (hash: Hash)
      ensures H == hash && input == []
    {
      H := hash;
      input := [];
    }

    method Write(part: Bytes)
      modifies this
      ensures input == old(input) + part
    {
      input := input + part;
    }

    method Sum() returns (d: Digest)
      ensures d == H(input)
    {
      return H(input);
    }
  }

  /** digestDomain: the label, a zero byte, and the parts in order. */
  method DigestDomain(H: Hash, domain: Bytes, parts: seq<Bytes>) returns (d: Digest)
    ensures d == H(Framed(domain, Flatten(parts)))
  {
    var hasher := new Hasher(H);
    hasher.Write(domain);
    hasher.Write([0]);
    assert hasher.input == domain + [0];
    for k := 0 to |parts|
      invariant hasher.H == H
      invariant hasher.input + Flatten(parts[k..]) == domain + [0] + Flatten(parts)
    {
      assert Flatten(parts[k..]) == parts[k] + Flatten(parts[k + 1..]);
      hasher.Write(parts[k]);
    }
    assert parts[|parts|..] == [] && hasher.input + Flatten([]) == hasher.input;
    d := hasher.Sum();
  }

  lemma FlattenOne(a: Bytes)
    ensures Flatten([a]) == a
  {
  }

  lemma FlattenCons(a: Bytes, rest: seq<Bytes>)
    ensures Flatten([a] + rest) == a + Flatten(rest)
  {
  }

  lemma SeedParts(b: Boundary)
    requires b.generation > 0
    ensures Flatten([b.genesis, Uint64(b.generation), Uint64(b.chainIndex), b.chainHash, Uint64(b.resultIndex), b.resultHash]) == SeedContent(b)
  {
    var u, v, w, x, y, z := b.genesis, Uint64(b.generation), Uint64(b.chainIndex), b.chainHash, Uint64(b.resultIndex), b.resultHash;
    hide Uint64, Flatten;
    assert [u, v, w, x, y, z] == [u] + ([v] + ([w] + ([x] + ([y] + [z]))));
    FlattenOne(z);
    FlattenCons(y, [z]);
    FlattenCons(x, [y] + [z]);
    FlattenCons(w, [x] + ([y] + [z]));
    FlattenCons(v, [w] + ([x] + ([y] + [z])));
    FlattenCons(u, [v] + ([w] + ([x] + ([y] + [z]))));
  }

  /** EventSeed and ResultSeed: a valid boundary gives the head of the empty history. */
  method ChainSeed(H: Hash, domain: Bytes, b: Boundary) returns (d: Option<Digest>)
    ensures d == if ValidBoundary(b) then Some(Head(H, domain, b, [])) else None
  {
    if b.generation > MAX_SAFE_INTEGER || b.chainIndex > MAX_SAFE_INTEGER || b.resultIndex > MAX_SAFE_INTEGER { return None; }
    if b.chainIndex > b.resultIndex { return None; }
    if b.generation == 0 && (b.chainIndex != 0 || b.resultIndex != 0 || b.chainHash != ZERO_DIGEST || b.resultHash != ZERO_DIGEST) { return None; }
    if b.generation > 0 && (b.chainHash == ZERO_DIGEST || b.resultHash == ZERO_DIGEST) { return None; }
    var seed;
    hide Flatten, Uint64, Framed;
    if b.generation == 0 {
      FlattenOne(b.genesis);
      seed := DigestDomain(H, domain, [b.genesis]);
    } else {
      SeedParts(b);
      seed := DigestDomain(H, domain,
        [b.genesis, Uint64(b.generation), Uint64(b.chainIndex), b.chainHash, Uint64(b.resultIndex), b.resultHash]);
    }
    return Some(seed);
  }

  lemma HeadExtends(H: Hash, domain: Bytes, b: Boundary, payloads: seq<Bytes>, payload: Bytes)
    ensures Head(H, domain, b, payloads + [payload]) == H(Framed(domain, Head(H, domain, b, payloads) + payload))
  {
    assert Init(payloads + [payload]) == payloads && Last(payloads + [payload]) == payload;
  }

  /** The hashing of every append: from the head of any history to the head of that history and one more payload. */
  method AppendPayload(H: Hash, domain: Bytes, previous: Digest, payload: Bytes,
                       ghost b: Boundary, ghost payloads: seq<Bytes>) returns (d: Digest)
    requires previous == Head(H, domain, b, payloads)
    ensures d == Head(H, domain, b, payloads + [payload])
  {
    HeadExtends(H, domain, b, payloads, payload);
    hide Head;
    TwoParts(previous, payload);
    d := DigestDomain(H, domain, [previous, payload]);
  }

  /** AppendEvent: refuses exactly the payloads that are not canonical objects. `canonical` is the codec's verdict on
      the payload. */
  method AppendEvent(H: Hash, previous: Digest, payload: Bytes, canonical: bool,
                     ghost b: Boundary, ghost events: seq<Bytes>) returns (d: Option<Digest>)
    requires canonical <==> IsCanonicalObject(payload)
    requires previous == Head(H, EVENT_DOMAIN, b, events)
    ensures d == if IsCanonicalObject(payload) then Some(Head(H, EVENT_DOMAIN, b, events + [payload])) else None
    ensures d.Some? ==> IsPayload(payload)
  {
    if !canonical { return None; }
    ghost var members :| payload == Print(Obj(members)) && Canonical(Obj(members), 0);
    ObjectTextIsPayload(members);
    hide Head, Print;
    var extended := AppendPayload(H, EVENT_DOMAIN, previous, payload, b, events);
    return Some(extended);
  }

  lemma TextsSnoc(b64: Base64, rs: seq<CommandResult>, r: CommandResult)
    ensures Texts(b64, rs + [r]) == Texts(b64, rs) + [ResultText(b64, r)]
  {
    hide ResultText;
    assert forall i | 0 <= i < |rs| :: Texts(b64, rs + [r])[i] == ResultText(b64, rs[i]) == Texts(b64, rs)[i];
  }

  /** AppendResult: refuses exactly the invalid results and otherwise extends the result chain by their text. */
  method AppendResult(H: Hash, b64: Base64, previous: Digest, r: CommandResult,
                      ghost b: Boundary, ghost rs: seq<CommandResult>) returns (d: Option<(Digest, Bytes)>)
    requires previous == Head(H, RESULT_DOMAIN, b, Texts(b64, rs))
    ensures d == if ValidResult(H, b64, r)
                 then Some((Head(H, RESULT_DOMAIN, b, Texts(b64, rs + [r])), ResultText(b64, r))) else None
  {
    hide Head, ValidResult, ResultText, Texts;
    var encoded := EncodeResult(H, b64, r);
    if encoded.None? { return None; }
    TextsSnoc(b64, rs, r);
    var extended := AppendPayload(H, RESULT_DOMAIN, previous, encoded.value, b, Texts(b64, rs));
    return Some((extended, encoded.value));
  }

  lemma TwoParts(a: Bytes, b: Bytes)
    ensures Flatten([a, b]) == a + b
  {
    assert [a, b] == [a] + [b];
    FlattenOne(b);
  }

  lemma AccumulatorExtends(H: Hash, domain: Bytes, s: Schema, seed: Seed, steps: seq<Step>, step: Step)
    ensures AccumulatorHead(H, domain, s, seed, steps + [step]) ==
            H(Framed(domain, StepBytes(s, AccumulatorHead(H, domain, s, seed, steps), step)))
  {
    assert Front(steps + [step]) == steps;
    hide StepBytes;
  }

  /** AccumulatorSeedInitial and AccumulatorSeedSuccessor. */
  method AccumulatorSeed(H: Hash, domain: Bytes, s: Schema, seed: Seed) returns (d: Digest)
    ensures d == AccumulatorHead(H, domain, s, seed, [])
  {
    match seed
    case Initial(genesis, state) =>
      TwoParts(genesis, state);
      d := DigestDomain(H, domain, [genesis, state]);
    case Successor(previous, genesis, state) =>
      TwoParts(genesis, state);
      FlattenCons(previous, [genesis, state]);
      assert [previous] + [genesis, state] == [previous, genesis, state];
      d := DigestDomain(H, domain, [previous, genesis, state]);
  }

  lemma StepParts(a: Bytes, b: Bytes, c: Bytes, d: Bytes, e: Bytes)
    ensures Flatten([a, b, c, d, e]) == a + (b + (c + (d + e)))
  {
    hide Flatten;
    assert [a, b, c, d, e] == [a] + ([b] + ([c] + ([d] + [e])));
    FlattenOne(e);
    FlattenCons(d, [e]);
    FlattenCons(c, [d] + [e]);
    FlattenCons(b, [c] + ([d] + [e]));
    FlattenCons(a, [b] + ([c] + ([d] + [e])));
  }

  /** AppendAccumulator: accepts exactly the valid steps, takes the head of any history to the head of that history
      and this step, and returns the canonical encoding of the mutations. */
  method AppendAccumulator(H: Hash, domain: Bytes, s: Schema, previous: Digest, step: Step,
                           ghost seed: Seed, ghost steps: seq<Step>) returns (r: Option<(Digest, Bytes)>)
    requires previous == AccumulatorHead(H, domain, s, seed, steps)
    ensures r == if ValidStep(s, step)
                 then Some((AccumulatorHead(H, domain, s, seed, steps + [step]), Encoding(s, step.mutations))) else None
  {
    hide AccumulatorHead, Encodable, Encoding, Framed, Flatten, Uint64;
    if step.resultIndex == 0 || step.resultIndex > MAX_SAFE_INTEGER { return None; }
    var encoded := EncodeMutations(s, step.mutations);
    if !encoded.Encoded? { return None; }
    var text := encoded.bytes;
    AccumulatorExtends(H, domain, s, seed, steps, step);
    StepParts(previous, Uint64(step.resultIndex), step.resultHash, Uint64(|text|), text);
    var d := DigestDomain(H, domain, [previous, Uint64(step.resultIndex), step.resultHash, Uint64(|text|), text]);
    return Some((d, text));
  }
}
