/** The encoding and decoding loops, proved against the canonical encoding of a mutation set. */
module MutationMethods {
  import opened Bytes
  import opened CanonicalJson
  import opened Wrappers
  import opened KeyedOrder
  import opened Mapping
  import opened ObjectScanner
  import opened ObjectMembers
  import opened MemberRemoval
  import opened Mutations
  import opened MutationCodec

  /** Appends pieces while the byte ceiling holds. */
  method AppendParts(buffer: Bytes, parts: seq<Bytes>) returns (r: Option<Bytes>)
    requires |buffer| <= MAX_ENCODED_MUTATION_BYTES
    ensures r == if |buffer + Flatten(parts)| <= MAX_ENCODED_MUTATION_BYTES then Some(buffer + Flatten(parts)) else None
  {
    var out := buffer;
    for k := 0 to |parts|
      invariant |out| <= MAX_ENCODED_MUTATION_BYTES
      invariant out + Flatten(parts[k..]) == buffer + Flatten(parts)
    {
      var part := parts[k];
      assert Flatten(parts[k..]) == part + Flatten(parts[k + 1..]);
      if |part| > MAX_ENCODED_MUTATION_BYTES - |out| { return None; }
      out := out + part;
    }
    assert parts[|parts|..] == [] && out + Flatten([]) == out;
    return Some(out);
  }

  /** What has been written before entry `k`. */
  ghost function Written(texts: seq<Bytes>, k: nat): Bytes
    requires k <= |texts|
  {
    [OPEN_BRACKET] + Join(texts[..k])
  }

  lemma WrittenStep(texts: seq<Bytes>, k: nat)
    requires k < |texts|
    ensures Written(texts, k + 1) == (if k == 0 then Written(texts, k) else Written(texts, k) + [COMMA]) + texts[k]
  {
    assert texts[..k + 1] == texts[..k] + [texts[k]];
    JoinSnoc(texts[..k], texts[k]);
  }

  lemma {:induction false} WrittenGrows(texts: seq<Bytes>, k: nat)
    requires k <= |texts|
    ensures |Written(texts, k)| <= |Written(texts, |texts|)|
    decreases |texts| - k
  {
    if k < |texts| {
      WrittenStep(texts, k);
      WrittenGrows(texts, k + 1);
    }
  }

  lemma WrittenEnd(s: Schema, ps: seq<Prepared>)
    ensures var texts := EntryTexts(s, ps); EncodeText(s, ps) == Written(texts, |texts|) + [CLOSE_BRACKET]
  {
    assert EntryTexts(s, ps)[..|ps|] == EntryTexts(s, ps);
  }

  method AppendEntry(s: Schema, buffer: Bytes, p: Prepared) returns (r: Option<Bytes>)
    requires |buffer| <= MAX_ENCODED_MUTATION_BYTES
    ensures r == if |buffer + EntryText(s, p)| <= MAX_ENCODED_MUTATION_BYTES then Some(buffer + EntryText(s, p)) else None
  {
    r := AppendParts(buffer, EntryParts(s, p));
  }

  method EncodePrepared(s: Schema, ps: seq<Prepared>) returns (r: Option<Bytes>)
    ensures r == if |EncodeText(s, ps)| <= MAX_ENCODED_MUTATION_BYTES then Some(EncodeText(s, ps)) else None
  {
    hide EncodeText, EntryText, EntryTexts, Join;
    ghost var texts := EntryTexts(s, ps);
    WrittenEnd(s, ps);
    var encoded: Bytes := [OPEN_BRACKET];
    assert encoded == Written(texts, 0) by { JoinNothing(texts); }
    hide *;
    for k := 0 to |ps|
      invariant |encoded| <= MAX_ENCODED_MUTATION_BYTES && encoded == Written(texts, k)
    {
      WrittenStep(texts, k);
      WrittenGrows(texts, k + 1);
      if k != 0 {
        if |encoded| + 1 > MAX_ENCODED_MUTATION_BYTES { return None; }
        encoded := encoded + [COMMA];
      }
      var next := AppendEntry(s, encoded, ps[k]);
      if next.None? { return None; }
      encoded := next.value;
    }
    if |encoded| + 1 > MAX_ENCODED_MUTATION_BYTES { return None; }
    return Some(encoded + [CLOSE_BRACKET]);
  }

  lemma JoinNothing(texts: seq<Bytes>)
    ensures Join(texts[..0]) == []
  {
  }

  datatype Encoded = Encoded(bytes: Bytes) | UnknownTable | InvalidMutation | DuplicateMutation | TooLarge

  method PrepareLoop(s: Schema, ms: seq<Mutation>) returns (r: Encoded, prepared: seq<Prepared>)
    ensures r.Encoded? || r.UnknownTable? || r.InvalidMutation?
    ensures r.Encoded? <==> AllValid(s, ms)
    ensures r.Encoded? ==> prepared == PrepareAll(s, ms)
    ensures r.UnknownTable? ==>
              exists i :: 0 <= i < |ms| && AllValid(s, ms[..i]) && Lookup(s, ms[i].table).None?
  {
    prepared := [];
    for k := 0 to |ms|
      invariant AllValid(s, ms[..k])
      invariant |prepared| == k && forall i | 0 <= i < k :: prepared[i] == Prepare(s, ms[i])
    {
      var m := ms[k];
      var t := Lookup(s, m.table);
      assert ms[..k + 1] == ms[..k] + [m];
      if t.None? { return UnknownTable, []; }
      if !s.keyOk(t.value, m.primaryKey) { return InvalidMutation, []; }
      if m.before.None? && m.after.None? { return InvalidMutation, []; }
      if m.before.Some? && !s.rowOk(t.value, m.primaryKey, m.before.value) { return InvalidMutation, []; }
      if m.after.Some? && !s.rowOk(t.value, m.primaryKey, m.after.value) { return InvalidMutation, []; }
      if m.before.Some? && m.before == m.after { return InvalidMutation, []; }
      prepared := prepared + [Prepare(s, m)];
    }
    assert ms[..|ms|] == ms;
    assert prepared == PrepareAll(s, ms);
    return Encoded([]), prepared;
  }

  method RepeatedNeighbour<T>(sorted: seq<Keyed<T>>) returns (repeated: bool)
    ensures repeated <==> exists i :: 1 <= i < |sorted| && SameKey(sorted[i - 1], sorted[i])
  {
    var k := 1;
    while k < |sorted|
      invariant forall i | 1 <= i < k && i < |sorted| :: !SameKey(sorted[i - 1], sorted[i])
    {
      if SameKey(sorted[k - 1], sorted[k]) { return true; }
      k := k + 1;
    }
    return false;
  }

  /** EncodeMutations: every outcome, and on success the canonical encoding. */
  method EncodeMutations(s: Schema, ms: seq<Mutation>) returns (r: Encoded)
    ensures r.Encoded? <==> Encodable(s, ms)
    ensures r.Encoded? ==> r.bytes == Encoding(s, ms)
    ensures r.UnknownTable? || r.InvalidMutation? <==> !AllValid(s, ms)
    ensures r.DuplicateMutation? <==> AllValid(s, ms) && !KeyedOrder.DistinctKeys(PrepareAll(s, ms))
  {
    var prepared;
    r, prepared := PrepareLoop(s, ms);
    if !r.Encoded? { return; }
    hide AllValid, PrepareAll, Sort, EncodeText, Before, SameKey, StrictlySorted, Sorted;
    var sorted := Sort(prepared);
    SortSorts(prepared);
    NeighboursSuffice(sorted);
    var repeated := RepeatedNeighbour(sorted);
    if KeyedOrder.DistinctKeys(prepared) { DistinctKeysOfPermutation(prepared, sorted); }
    if KeyedOrder.DistinctKeys(sorted) { DistinctKeysOfPermutation(sorted, prepared); }
    hide *;
    if repeated { return DuplicateMutation; }
    var text := EncodePrepared(s, sorted);
    return if text.Some? then Encoded(text.value) else TooLarge;
  }
}
