/** The mutation encoding is one canonical JSON text per set of mutations: independent of
    input order, injective, and decoded exactly. */
module MutationCodec {
  import opened Bytes
  import opened CanonicalJson
  import opened Wrappers
  import opened KeyedOrder
  import opened Mapping
  import opened ObjectScanner
  import opened ObjectMembers
  import opened MemberRemoval
  import opened Mutations

  lemma FourMembers(a: Member, b: Member, c: Member, d: Member)
    ensures MemberPieces([a, b, c, d]) == [PrintMember(a), PrintMember(b), PrintMember(c), PrintMember(d)]
  {
  }

  lemma EntryIsPrint(s: Schema, p: Prepared)
    requires WellFormed(s) && ValidPrepared(s, p)
    ensures EntryText(s, p) == Print(EntryValue(s, p))
    ensures Print(ValueOf(p.key)) == p.key
  {
    var t := Lookup(s, Restore(s, p).table).value;
    var w, x := Nullable(p.payload.after), Nullable(p.payload.before);
    NullableIsText(s, t, p.key, p.payload.after);
    NullableIsText(s, t, p.key, p.payload.before);
    assert Print(ValueOf(p.key)) == p.key by {
      var items :| p.key == Print(Arr(items));
      assert Print(Arr(items)) == p.key;
      ValueOfText(p.key);
    }
    assert Print(Str(NameOf(s, p))) == Quoted(NameOf(s, p));
    hide Lookup, ValueOf, Nullable, NameOf, WellFormed, Quoted, Join, Flatten;
    var a, b := Member(AFTER, ValueOf(w)), Member(BEFORE, ValueOf(x));
    var c, d := Member(PRIMARY_KEY, ValueOf(p.key)), Member(TABLE, Str(NameOf(s, p)));
    FourMembers(a, b, c, d);
    FourPieces(Quoted(AFTER), Quoted(BEFORE), Quoted(PRIMARY_KEY), Quoted(TABLE), w, x, p.key, Quoted(NameOf(s, p)));
    ObjectText([a, b, c, d]);
  }

  ghost function EntryValues(s: Schema, ps: seq<Prepared>): (r: seq<Json>)
    ensures |r| == |ps| && forall i | 0 <= i < |ps| :: r[i] == EntryValue(s, ps[i])
  {
    Map(p => EntryValue(s, p), ps)
  }

  lemma EntriesArePrints(s: Schema, ps: seq<Prepared>)
    requires WellFormed(s) && forall i | 0 <= i < |ps| :: ValidPrepared(s, ps[i])
    ensures ItemPieces(EntryValues(s, ps)) == EntryTexts(s, ps)
  {
    hide EntryText, EntryValue, WellFormed, ValidPrepared, Print, ItemPieces, EntryTexts, EntryValues;
    forall i | 0 <= i < |ps| ensures EntryText(s, ps[i]) == Print(EntryValue(s, ps[i])) { EntryIsPrint(s, ps[i]); }
    assert forall i | 0 <= i < |ps| :: ItemPieces(EntryValues(s, ps))[i] == EntryTexts(s, ps)[i];
  }

  lemma EncodeTextIsPrint(s: Schema, ps: seq<Prepared>)
    requires WellFormed(s) && forall i | 0 <= i < |ps| :: ValidPrepared(s, ps[i])
    ensures EncodeText(s, ps) == Print(Arr(EntryValues(s, ps)))
  {
    hide EntryTexts, EntryValues, Print, ItemPieces, Join, WellFormed, ValidPrepared;
    EntriesArePrints(s, ps);
    ArrayText(EntryValues(s, ps));
  }

  lemma ArrayText(items: seq<Json>)
    ensures Print(Arr(items)) == [OPEN_BRACKET] + Join(ItemPieces(items)) + [CLOSE_BRACKET]
  {
  }

  lemma RowIsNotNull(s: Schema, t: nat, k: Bytes, x: Option<Bytes>, u: nat, l: Bytes, y: Option<Bytes>)
    requires WellFormed(s) && (x.Some? ==> s.rowOk(t, k, x.value)) && (y.Some? ==> s.rowOk(u, l, y.value))
    requires Nullable(x) == Nullable(y)
    ensures x == y
  {
    if x.Some? { var m :| x.value == Print(Obj(m)); FirstByteTellsKind(Obj(m)); }
    if y.Some? { var m :| y.value == Print(Obj(m)); FirstByteTellsKind(Obj(m)); }
  }

  lemma EntryValueInjective(s: Schema, p: Prepared, q: Prepared)
    requires WellFormed(s) && ValidPrepared(s, p) && ValidPrepared(s, q)
    requires EntryValue(s, p) == EntryValue(s, q)
    ensures p == q
  {
    EntryIsPrint(s, p);
    EntryIsPrint(s, q);
    var t, u := Lookup(s, Restore(s, p).table).value, Lookup(s, Restore(s, q).table).value;
    NullableIsText(s, t, p.key, p.payload.after);
    NullableIsText(s, t, p.key, p.payload.before);
    NullableIsText(s, u, q.key, q.payload.after);
    NullableIsText(s, u, q.key, q.payload.before);
    var ms, ns := EntryValue(s, p).members, EntryValue(s, q).members;
    assert ms[0] == ns[0] && ms[1] == ns[1] && ms[2] == ns[2] && ms[3] == ns[3];
    hide ValueOf, Nullable, Print, EntryText;
    RowIsNotNull(s, t, p.key, p.payload.after, u, q.key, q.payload.after);
    RowIsNotNull(s, t, p.key, p.payload.before, u, q.key, q.payload.before);
  }

  lemma SortedAreValid(s: Schema, ms: seq<Mutation>)
    requires AllValid(s, ms)
    ensures forall i | 0 <= i < |Sort(PrepareAll(s, ms))| :: ValidPrepared(s, Sort(PrepareAll(s, ms))[i])
  {
    var sorted, prepared := Sort(PrepareAll(s, ms)), PrepareAll(s, ms);
    forall i | 0 <= i < |sorted| ensures ValidPrepared(s, sorted[i]) {
      assert sorted[i] in multiset(prepared);
      var j :| 0 <= j < |prepared| && prepared[j] == sorted[i];
      PrepareRestores(s, ms[j]);
    }
  }

  /** Equal encodings come from the same set of mutations. */
  lemma EncodingInjective(s: Schema, ms: seq<Mutation>, ns: seq<Mutation>)
    requires WellFormed(s) && AllValid(s, ms) && AllValid(s, ns)
    requires Encoding(s, ms) == Encoding(s, ns)
    ensures multiset(ms) == multiset(ns)
  {
    var ps, qs := Sort(PrepareAll(s, ms)), Sort(PrepareAll(s, ns));
    SortedAreValid(s, ms);
    SortedAreValid(s, ns);
    RestoreAllPrepared(s, ms);
    RestoreAllPrepared(s, ns);
    hide AllValid, ValidPrepared, EncodeText, WellFormed, EntryValue, Sort;
    EncodeTextIsPrint(s, ps);
    EncodeTextIsPrint(s, qs);
    PrintInjective(Arr(EntryValues(s, ps)), Arr(EntryValues(s, qs)));
    forall i | 0 <= i < |ps| ensures ps[i] == qs[i] {
      assert EntryValues(s, ps)[i] == EntryValues(s, qs)[i];
      EntryValueInjective(s, ps[i], qs[i]);
    }
    assert ps == qs;
    MapPermutes(p => Restore(s, p), PrepareAll(s, ms), PrepareAll(s, ns));
  }

  /** The encoding does not depend on the order in which mutations are listed. */
  lemma EncodingIgnoresOrder(s: Schema, ms: seq<Mutation>, ns: seq<Mutation>)
    requires multiset(ms) == multiset(ns) && Encodable(s, ms)
    ensures Encodable(s, ns) && Encoding(s, ns) == Encoding(s, ms)
  {
    hide ValidMutation, EncodeText, Sort, Map;
    forall i | 0 <= i < |ns| ensures ValidMutation(s, ns[i]) {
      assert ns[i] in multiset(ms);
    }
    MapPermutes(m => Prepare(s, m), ms, ns);
    DistinctKeysOfPermutation(PrepareAll(s, ms), PrepareAll(s, ns));
    SortIgnoresOrder(PrepareAll(s, ms), PrepareAll(s, ns));
  }
}
