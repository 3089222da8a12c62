/** EncodeMutations and DecodeMutations of internal/chain/projection.go. */
module Mutations {
  import opened Bytes
  import opened CanonicalJson
  import CanonicalProfile
  import opened Wrappers
  import opened KeyedOrder
  import opened Mapping
  import opened ObjectMembers

  const MAX_ENCODED_MUTATION_BYTES: nat := 33554432

  /** The covered-table names in registry order, and the row validators of json.go. */
  datatype Schema = Schema(names: seq<Bytes>, keyOk: (nat, Bytes) -> bool, rowOk: (nat, Bytes, Bytes) -> bool)

  ghost predicate IsArrayText(t: Bytes) {
    |t| <= CanonicalProfile.MAX_CANONICAL_BYTES && exists items :: t == Print(Arr(items))
  }

  ghost predicate IsObjectText(t: Bytes) {
    |t| <= CanonicalProfile.MAX_SIGNED_BYTES && exists members :: t == Print(Obj(members))
  }

  /** All that the proofs use of a schema: names differ, a valid key is the text of an array
      and a valid row the text of an object, within the codec's size limits. */
  ghost predicate WellFormed(s: Schema) {
    && (forall i, j | 0 <= i < j < |s.names| :: s.names[i] != s.names[j])
    && (forall t, k | s.keyOk(t, k) :: IsArrayText(k))
    && (forall t, k, r | s.rowOk(t, k, r) :: IsObjectText(r))
  }

  datatype Mutation = Mutation(table: Bytes, primaryKey: Bytes, before: Option<Bytes>, after: Option<Bytes>)

  datatype Change = Change(before: Option<Bytes>, after: Option<Bytes>)

  type Prepared = Keyed<Change>

  function LookupFrom(names: seq<Bytes>, name: Bytes, i: nat): (r: Option<nat>)
    ensures r.Some? ==> i <= r.value < |names| && names[r.value] == name
    ensures r.None? ==> forall k | i <= k < |names| :: names[k] != name
    decreases |names| - i
  {
    if i >= |names| then None else if names[i] == name then Some(i) else LookupFrom(names, name, i + 1)
  }

  function Lookup(s: Schema, name: Bytes): (r: Option<nat>)
    ensures r.Some? ==> r.value < |s.names| && s.names[r.value] == name
    ensures r.None? ==> forall k | 0 <= k < |s.names| :: s.names[k] != name
  {
    LookupFrom(s.names, name, 0)
  }

  predicate ValidMutation(s: Schema, m: Mutation) {
    && Lookup(s, m.table).Some?
    && var t := Lookup(s, m.table).value;
    && s.keyOk(t, m.primaryKey)
    && !(m.before.None? && m.after.None?)
    && (m.before.Some? ==> s.rowOk(t, m.primaryKey, m.before.value))
    && (m.after.Some? ==> s.rowOk(t, m.primaryKey, m.after.value))
    && !(m.before.Some? && m.before == m.after)
  }

  predicate AllValid(s: Schema, ms: seq<Mutation>) {
    forall i | 0 <= i < |ms| :: ValidMutation(s, ms[i])
  }

  function Prepare(s: Schema, m: Mutation): Prepared {
    var t := Lookup(s, m.table);
    Keyed(if t.Some? then t.value else 0, m.primaryKey, Change(m.before, m.after))
  }

  function Restore(s: Schema, p: Prepared): Mutation {
    Mutation(if p.table < |s.names| then s.names[p.table] else [], p.key, p.payload.before, p.payload.after)
  }

  function PrepareAll(s: Schema, ms: seq<Mutation>): seq<Prepared> {
    Map(m => Prepare(s, m), ms)
  }

  function RestoreAll(s: Schema, ps: seq<Prepared>): seq<Mutation> {
    Map(p => Restore(s, p), ps)
  }

  predicate ValidPrepared(s: Schema, p: Prepared) {
    p.table < |s.names| && ValidMutation(s, Restore(s, p))
  }

  lemma PrepareRestores(s: Schema, m: Mutation)
    requires ValidMutation(s, m)
    ensures Restore(s, Prepare(s, m)) == m && ValidPrepared(s, Prepare(s, m))
  {
  }

  lemma RestorePrepares(s: Schema, p: Prepared)
    requires WellFormed(s) && ValidPrepared(s, p)
    ensures Prepare(s, Restore(s, p)) == p
  {
    var t := Lookup(s, s.names[p.table]).value;
    assert s.names[t] == s.names[p.table];
  }

  lemma RestoreAllPrepared(s: Schema, ms: seq<Mutation>)
    requires AllValid(s, ms)
    ensures RestoreAll(s, PrepareAll(s, ms)) == ms
  {
    forall i | 0 <= i < |ms| ensures Restore(s, Prepare(s, ms[i])) == ms[i] { PrepareRestores(s, ms[i]); }
    MapInverts(m => Prepare(s, m), p => Restore(s, p), ms);
  }

  // ---- the text ----

  const AFTER: Bytes := [0x61, 0x66, 0x74, 0x65, 0x72]
  const BEFORE: Bytes := [0x62, 0x65, 0x66, 0x6f, 0x72, 0x65]
  const PRIMARY_KEY: Bytes := [0x70, 0x72, 0x69, 0x6d, 0x61, 0x72, 0x79, 0x5f, 0x6b, 0x65, 0x79]
  const TABLE: Bytes := [0x74, 0x61, 0x62, 0x6c, 0x65]

  function Nullable(text: Option<Bytes>): Bytes {
    if text.None? then NULL_TEXT else text.value
  }

  function NameOf(s: Schema, p: Prepared): Bytes {
    if p.table < |s.names| then s.names[p.table] else []
  }

  /** The nine pieces written for one mutation. */
  function EntryParts(s: Schema, p: Prepared): seq<Bytes> {
    [
      [OPEN_BRACE] + Quoted(AFTER) + [COLON],
      Nullable(p.payload.after),
      [COMMA] + Quoted(BEFORE) + [COLON],
      Nullable(p.payload.before),
      [COMMA] + Quoted(PRIMARY_KEY) + [COLON],
      p.key,
      [COMMA] + Quoted(TABLE) + [COLON],
      Quoted(NameOf(s, p)),
      [CLOSE_BRACE]
    ]
  }

  function EntryText(s: Schema, p: Prepared): Bytes {
    Flatten(EntryParts(s, p))
  }

  function EntryTexts(s: Schema, ps: seq<Prepared>): (r: seq<Bytes>)
    ensures |r| == |ps| && forall i | 0 <= i < |ps| :: r[i] == EntryText(s, ps[i])
  {
    Map(p => EntryText(s, p), ps)
  }

  function EncodeText(s: Schema, ps: seq<Prepared>): Bytes {
    [OPEN_BRACKET] + Join(EntryTexts(s, ps)) + [CLOSE_BRACKET]
  }

  /** The canonical encoding of a set of mutations. */
  function Encoding(s: Schema, ms: seq<Mutation>): Bytes {
    EncodeText(s, Sort(PrepareAll(s, ms)))
  }

  predicate Encodable(s: Schema, ms: seq<Mutation>) {
    AllValid(s, ms) && KeyedOrder.DistinctKeys(PrepareAll(s, ms)) && |Encoding(s, ms)| <= MAX_ENCODED_MUTATION_BYTES
  }

  /** The value that an encoding prints. */
  ghost function ValueOf(text: Bytes): Json {
    if exists v :: Print(v) == text then var v :| Print(v) == text; v else Null
  }

  ghost function EntryValue(s: Schema, p: Prepared): Json {
    Obj([
      Member(AFTER, ValueOf(Nullable(p.payload.after))),
      Member(BEFORE, ValueOf(Nullable(p.payload.before))),
      Member(PRIMARY_KEY, ValueOf(p.key)),
      Member(TABLE, Str(NameOf(s, p)))
    ])
  }

  lemma ValueOfText(text: Bytes)
    requires exists v :: Print(v) == text
    ensures Print(ValueOf(text)) == text
  {
  }

  lemma NullableIsText(s: Schema, t: nat, k: Bytes, text: Option<Bytes>)
    requires WellFormed(s) && (text.Some? ==> s.rowOk(t, k, text.value))
    ensures Print(ValueOf(Nullable(text))) == Nullable(text)
  {
    if text.None? {
      assert Print(Null) == NULL_TEXT;
    } else {
      var members :| text.value == Print(Obj(members));
      assert Print(Obj(members)) == Nullable(text);
    }
    ValueOfText(Nullable(text));
  }

  lemma TailCons(p: Bytes, ps: seq<Bytes>, close: u8)
    ensures Tail([p] + ps, close) == [COMMA] + (p + Tail(ps, close))
  {
    assert ([p] + ps)[1..] == ps;
    JoinHead([p] + ps, close);
  }

  lemma FlattenPair(name: Bytes, text: Bytes, rest: seq<Bytes>)
    ensures Flatten([[COMMA] + name + [COLON], text] + rest) == [COMMA] + (name + [COLON] + text + Flatten(rest))
  {
    var q := [COMMA] + name + [COLON];
    assert ([q, text] + rest)[1..] == [text] + rest && ([text] + rest)[1..] == rest;
    assert Flatten([q, text] + rest) == q + (text + Flatten(rest));
  }

  lemma FlattenFirst(name: Bytes, text: Bytes, rest: seq<Bytes>)
    ensures Flatten([[OPEN_BRACE] + name + [COLON], text] + rest) == [OPEN_BRACE] + (name + [COLON] + text + Flatten(rest))
  {
    var q := [OPEN_BRACE] + name + [COLON];
    assert ([q, text] + rest)[1..] == [text] + rest && ([text] + rest)[1..] == rest;
    assert Flatten([q, text] + rest) == q + (text + Flatten(rest));
  }

  /** Four labelled pieces joined by commas, written out as the encoder writes them. */
  lemma FourPieces(a: Bytes, b: Bytes, c: Bytes, d: Bytes, w: Bytes, x: Bytes, y: Bytes, z: Bytes)
    ensures [OPEN_BRACE] + Join([a + [COLON] + w, b + [COLON] + x, c + [COLON] + y, d + [COLON] + z]) + [CLOSE_BRACE]
         == Flatten([[OPEN_BRACE] + a + [COLON], w, [COMMA] + b + [COLON], x, [COMMA] + c + [COLON], y,
                     [COMMA] + d + [COLON], z, [CLOSE_BRACE]])
  {
    var p0, p1, p2, p3 := a + [COLON] + w, b + [COLON] + x, c + [COLON] + y, d + [COLON] + z;
    var q0, q1, q2, q3 := [OPEN_BRACE] + a + [COLON], [COMMA] + b + [COLON], [COMMA] + c + [COLON], [COMMA] + d + [COLON];
    assert Flatten([[CLOSE_BRACE]]) == [CLOSE_BRACE] == Tail([], CLOSE_BRACE);
    hide Flatten, Tail, Join;
    FlattenPair(d, z, [[CLOSE_BRACE]]);
    TailCons(p3, [], CLOSE_BRACE);
    assert [q3, z] + [[CLOSE_BRACE]] == [q3, z, [CLOSE_BRACE]] && [p3] + [] == [p3];
    FlattenPair(c, y, [q3, z, [CLOSE_BRACE]]);
    TailCons(p2, [p3], CLOSE_BRACE);
    assert [q2, y] + [q3, z, [CLOSE_BRACE]] == [q2, y, q3, z, [CLOSE_BRACE]] && [p2] + [p3] == [p2, p3];
    FlattenPair(b, x, [q2, y, q3, z, [CLOSE_BRACE]]);
    TailCons(p1, [p2, p3], CLOSE_BRACE);
    assert [q1, x] + [q2, y, q3, z, [CLOSE_BRACE]] == [q1, x, q2, y, q3, z, [CLOSE_BRACE]] && [p1] + [p2, p3] == [p1, p2, p3];
    FlattenFirst(a, w, [q1, x, q2, y, q3, z, [CLOSE_BRACE]]);
    assert [q0, w] + [q1, x, q2, y, q3, z, [CLOSE_BRACE]] == [q0, w, q1, x, q2, y, q3, z, [CLOSE_BRACE]];
    JoinHead([p0, p1, p2, p3], CLOSE_BRACE);
    assert [p0, p1, p2, p3][1..] == [p1, p2, p3];
    Reopen(Join([p0, p1, p2, p3]), p0 + Tail([p1, p2, p3], CLOSE_BRACE));
  }

  lemma Reopen(body: Bytes, rest: Bytes)
    requires body + [CLOSE_BRACE] == rest
    ensures [OPEN_BRACE] + body + [CLOSE_BRACE] == [OPEN_BRACE] + rest
  {
  }
}
