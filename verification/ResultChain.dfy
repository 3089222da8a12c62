/** Command results of internal/chain/result.go: the closed six-member object that the result chain
    appends, and what a result-chain head says about a whole history of results. */
module ResultChain {
  import opened Bytes
  import opened CanonicalJson
  import opened Wrappers
  import opened CanonicalProfile
  import opened ObjectMembers
  import opened HashChain
  import opened Mapping

  const EVENT_DOMAIN: Bytes := Ascii("codecomm/v1/chain")
  const RESULT_DOMAIN: Bytes := Ascii("codecomm/v1/result-chain")

  const CHAIN_HASH: Bytes := Ascii("chain_hash")
  const CHAIN_INDEX: Bytes := Ascii("chain_index")
  const OUTCOME: Bytes := Ascii("outcome")
  const PROPOSAL: Bytes := Ascii("proposal")
  const PROPOSAL_DIGEST: Bytes := Ascii("proposal_digest")
  const RESULT_INDEX: Bytes := Ascii("result_index")

  datatype Accepted = Accepted(index: nat, hash: Digest)

  /** A result; its proposal and outcome are canonical objects given by their members. */
  datatype CommandResult = CommandResult(
    resultIndex: nat,
    proposal: seq<Member>,
    outcome: seq<Member>,
    proposalDigest: Digest,
    chain: Option<Accepted>)

  /** The unpadded base64url text of a digest, of which only injectivity matters here. */
  type Base64 = Digest -> Bytes

  ghost predicate Faithful(b64: Base64) {
    forall x, y :: b64(x) == b64(y) ==> x == y
  }

  predicate ValidOutcome(outcome: seq<Member>, accepted: bool) {
    && Find(outcome, Ascii("status")) == Some(Str(Ascii(if accepted then "accepted" else "rejected")))
    && var code := Find(outcome, Ascii("code"));
    && code.Some? && code.value.Str? && code.value.text != []
  }

  /** An object the codec accepts on its own. */
  predicate SignedObject(members: seq<Member>) {
    Canonical(Obj(members), 0) && |Print(Obj(members))| <= MAX_SIGNED_BYTES
  }

  /** What the marshaller does to the text of raw members before it is canonicalised again: `<`, `>`, `&`
      and the separators U+2028 and U+2029 become six-byte escapes. */
  function Marshalled(t: Bytes): Bytes {
    if t == [] then []
    else if t[0] == 0x3c || t[0] == 0x3e || t[0] == 0x26 then
      [BACKSLASH, 0x75, 0x30, 0x30, HexDigit(t[0] / 16), HexDigit(t[0] % 16)] + Marshalled(t[1..])
    else if |t| >= 3 && t[0] == 0xe2 && t[1] == 0x80 && (t[2] == 0xa8 || t[2] == 0xa9) then
      [BACKSLASH, 0x75, 0x32, 0x30, 0x32, HexDigit(t[2] % 16)] + Marshalled(t[3..])
    else [t[0]] + Marshalled(t[1..])
  }

  /** The wrapped object passes the codec's second canonicalisation: one level deeper, and within the
      size limit after marshalling. */
  predicate WrapsWithinLimits(b64: Base64, r: CommandResult) {
    Canonical(Obj(ResultMembers(b64, r)), 0) && |Marshalled(ResultText(b64, r))| <= MAX_CANONICAL_BYTES
  }

  predicate ValidResult(H: Hash, b64: Base64, r: CommandResult) {
    && 0 < r.resultIndex <= MAX_SAFE_INTEGER
    && SignedObject(r.proposal) && SignedObject(r.outcome)
    && ValidOutcome(r.outcome, r.chain.Some?)
    && r.proposalDigest == H(Print(Obj(r.proposal)))
    && (r.chain.Some? ==> 0 < r.chain.value.index <= MAX_SAFE_INTEGER && r.chain.value.index <= r.resultIndex)
    && WrapsWithinLimits(b64, r)
  }

  /** The six members in canonical key order. */
  function ResultMembers(b64: Base64, r: CommandResult): seq<Member> {
    [ Member(CHAIN_HASH, if r.chain.Some? then Str(b64(r.chain.value.hash)) else Null),
      Member(CHAIN_INDEX, if r.chain.Some? then Num(r.chain.value.index) else Null),
      Member(OUTCOME, Obj(r.outcome)),
      Member(PROPOSAL, Obj(r.proposal)),
      Member(PROPOSAL_DIGEST, Str(b64(r.proposalDigest))),
      Member(RESULT_INDEX, Num(r.resultIndex)) ]
  }

  function ResultText(b64: Base64, r: CommandResult): Bytes {
    Print(Obj(ResultMembers(b64, r)))
  }

  /** EncodeResult: refuses exactly the results that are inconsistent, not canonical, or too deep or
      too large once wrapped. */
  method EncodeResult(H: Hash, b64: Base64, r: CommandResult) returns (encoded: Option<Bytes>)
    ensures encoded == if ValidResult(H, b64, r) then Some(ResultText(b64, r)) else None
  {
    if r.resultIndex == 0 || r.resultIndex > MAX_SAFE_INTEGER { return None; }
    if !SignedObject(r.proposal) || !SignedObject(r.outcome) { return None; }
    var status := Find(r.outcome, Ascii("status"));
    var code := Find(r.outcome, Ascii("code"));
    if code.None? || !code.value.Str? || code.value.text == [] { return None; }
    if r.proposalDigest != H(Print(Obj(r.proposal))) { return None; }
    if r.chain.Some? {
      var index := r.chain.value.index;
      if index == 0 || index > MAX_SAFE_INTEGER || index > r.resultIndex { return None; }
    }
    if status != Some(Str(Ascii(if r.chain.Some? then "accepted" else "rejected"))) { return None; }
    if !WrapsWithinLimits(b64, r) { return None; }
    return Some(ResultText(b64, r));
  }

  lemma KeysInOrder()
    ensures KeyLess(CHAIN_HASH, CHAIN_INDEX) && KeyLess(CHAIN_INDEX, OUTCOME) && KeyLess(OUTCOME, PROPOSAL)
    ensures KeyLess(PROPOSAL, PROPOSAL_DIGEST) && KeyLess(PROPOSAL_DIGEST, RESULT_INDEX)
  {
    NamesInOrder("chain_hash", "chain_index", 6);
    NamesInOrder("chain_index", "outcome", 0);
    NamesInOrder("outcome", "proposal", 0);
    NamesInOrder("proposal", "proposal_digest", 8);
    NamesInOrder("proposal_digest", "result_index", 0);
    hide KeyLess;
  }

  /** Two names that agree up to position `i` and then differ, or of which the first ends there. */
  lemma NamesInOrder(a: string, b: string, i: nat)
    requires i <= |a| && i < |b| && a[..i] == b[..i] && (i == |a| || a[i] < b[i])
    requires (forall k | 0 <= k < |a| :: a[k] as int < 128) && (forall k | 0 <= k < |b| :: b[k] as int < 128)
    ensures KeyLess(Ascii(a), Ascii(b))
  {
    forall k | 0 <= k < i ensures Ascii(a)[k] == Ascii(b)[k] { assert a[..i][k] == b[..i][k]; }
    assert Ascii(a)[..i] == Ascii(b)[..i];
    KeyLessAt(Ascii(a), Ascii(b), i);
  }

  lemma {:induction false} KeyLessAt(a: Bytes, b: Bytes, i: nat)
    requires i <= |a| && i < |b| && a[..i] == b[..i] && (i == |a| || Rank(a[i]) < Rank(b[i]))
    ensures KeyLess(a, b)
    decreases i
  {
    if i > 0 {
      assert a[0] == a[..i][0] == b[..i][0] == b[0];
      assert a[1..][..i - 1] == a[..i][1..] == b[..i][1..] == b[1..][..i - 1];
      KeyLessAt(a[1..], b[1..], i - 1);
    }
  }

  /** Wrapping adds one level: the second canonicalisation refuses exactly a proposal or outcome that
      uses all 32 levels by itself, or a text that marshals beyond the limit. */
  lemma WrappingCostsOneLevel(b64: Base64, r: CommandResult)
    requires r.resultIndex <= MAX_SAFE_INTEGER && (r.chain.Some? ==> r.chain.value.index <= MAX_SAFE_INTEGER)
    ensures Canonical(Obj(ResultMembers(b64, r)), 0) <==> Canonical(Obj(r.proposal), 1) && Canonical(Obj(r.outcome), 1)
  {
    var ms := ResultMembers(b64, r);
    KeysInOrder();
    hide KeyLess, Ascii;
    assert ms[2].value == Obj(r.outcome) && ms[3].value == Obj(r.proposal);
    forall i | 0 < i < |ms| ensures KeyLess(ms[i - 1].key, ms[i].key) {}
    if Canonical(Obj(r.proposal), 1) && Canonical(Obj(r.outcome), 1) {
      forall i | 0 <= i < |ms| ensures Canonical(ms[i].value, 1) {}
    }
  }

  function Nested(n: nat): Json {
    if n == 0 then Null else Arr([Nested(n - 1)])
  }

  lemma {:induction false} NestedDepth(n: nat, depth: nat)
    ensures Canonical(Nested(n), depth) <==> n == 0 || depth + n <= MAX_DEPTH
  {
    if n > 0 {
      NestedDepth(n - 1, depth + 1);
      var items := [Nested(n - 1)];
      assert Nested(n) == Arr(items);
      assert Canonical(Arr(items), depth) <==> depth < MAX_DEPTH && Canonical(items[0], depth + 1);
    }
  }

  /** A proposal of 32 levels is canonical alone and refused once wrapped. */
  lemma DeepestProposalIsRefused(H: Hash, b64: Base64, r: CommandResult)
    requires r.proposal == [Member([0x61], Nested(31))] && r.resultIndex <= MAX_SAFE_INTEGER
    requires r.chain.Some? ==> r.chain.value.index <= MAX_SAFE_INTEGER
    ensures Canonical(Obj(r.proposal), 0) && !ValidResult(H, b64, r)
  {
    NestedDepth(31, 1);
    NestedDepth(31, 2);
    WrappingCostsOneLevel(b64, r);
    hide Nested;
    assert r.proposal[0].value == Nested(31);
    hide Print;
  }

  /** The encoding loses nothing: equal texts come from equal results. */
  lemma ResultTextInjective(b64: Base64, r: CommandResult, q: CommandResult)
    requires Faithful(b64) && ResultText(b64, r) == ResultText(b64, q)
    ensures r == q
  {
    hide Print;
    var x, y := ResultMembers(b64, r), ResultMembers(b64, q);
    PrintInjective(Obj(x), Obj(y));
    assert x[0] == y[0] && x[1] == y[1] && x[2] == y[2] && x[3] == y[3] && x[4] == y[4] && x[5] == y[5];
  }

  function Texts(b64: Base64, rs: seq<CommandResult>): seq<Bytes> {
    Map(r => ResultText(b64, r), rs)
  }

  lemma TextsInjective(b64: Base64, rs: seq<CommandResult>, qs: seq<CommandResult>)
    requires Faithful(b64) && Texts(b64, rs) == Texts(b64, qs)
    ensures rs == qs
  {
    hide ResultText, Faithful;
    assert |rs| == |Texts(b64, rs)| == |qs|;
    forall i | 0 <= i < |rs| ensures rs[i] == qs[i] {
      assert Texts(b64, rs)[i] == ResultText(b64, rs[i]) && Texts(b64, qs)[i] == ResultText(b64, qs[i]);
      ResultTextInjective(b64, rs[i], qs[i]);
    }
  }

  /** Equal result-chain heads mean the same generation boundary and the same results, in the same
      order and number, unless two of the strings hashed collide. */
  lemma ResultHeadCommits(H: Hash, b64: Base64, b: Boundary, rs: seq<CommandResult>, c: Boundary, qs: seq<CommandResult>)
    requires Faithful(b64) && ValidBoundary(b) && ValidBoundary(c)
    requires Head(H, RESULT_DOMAIN, b, Texts(b64, rs)) == Head(H, RESULT_DOMAIN, c, Texts(b64, qs))
    ensures (b == c && rs == qs)
         || CollisionBetween(H, Preimages(H, RESULT_DOMAIN, b, Texts(b64, rs)), Preimages(H, RESULT_DOMAIN, c, Texts(b64, qs)))
  {
    hide Head, Preimages, ValidBoundary, Print, CollisionBetween, Faithful;
    forall i | 0 <= i < |rs| ensures IsPayload(Texts(b64, rs)[i]) { ObjectTextIsPayload(ResultMembers(b64, rs[i])); }
    forall i | 0 <= i < |qs| ensures IsPayload(Texts(b64, qs)[i]) { ObjectTextIsPayload(ResultMembers(b64, qs[i])); }
    HeadCommitsToHistory(H, RESULT_DOMAIN, b, Texts(b64, rs), c, Texts(b64, qs));
    if Texts(b64, rs) == Texts(b64, qs) { TextsInjective(b64, rs, qs); }
  }

  lemma DomainsDiffer()
    ensures IsLabel(EVENT_DOMAIN) && IsLabel(RESULT_DOMAIN) && EVENT_DOMAIN != RESULT_DOMAIN
  {
    AsciiIsLabel("codecomm/v1/chain");
    AsciiIsLabel("codecomm/v1/result-chain");
    hide *;
    assert |EVENT_DOMAIN| != |RESULT_DOMAIN|;
  }

  lemma AsciiIsLabel(text: string)
    requires forall i | 0 <= i < |text| :: 0 < text[i] as int < 128
    ensures IsLabel(Ascii(text))
  {
  }

  /** An event-chain head never equals a result-chain head without a collision. */
  lemma EventHeadIsNeverResultHead(H: Hash, b: Boundary, events: seq<Bytes>, c: Boundary, results: seq<Bytes>)
    requires Head(H, EVENT_DOMAIN, b, events) == Head(H, RESULT_DOMAIN, c, results)
    ensures CollisionBetween(H, Preimages(H, EVENT_DOMAIN, b, events), Preimages(H, RESULT_DOMAIN, c, results))
  {
    DomainsDiffer();
    hide Head, Preimages, CollisionBetween;
    ChainsNeverCross(H, EVENT_DOMAIN, b, events, RESULT_DOMAIN, c, results);
  }
}
