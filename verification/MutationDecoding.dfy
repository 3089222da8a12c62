/** DecodeMutations of internal/chain/projection.go. The general JSON decoder is replaced by
    the compact scanners: the final comparison with the canonical encoding rejects every text
    on which the two could differ. */
module MutationDecoding {
  import opened Bytes
  import opened CanonicalJson
  import opened Wrappers
  import opened KeyedOrder
  import opened Mapping
  import opened ObjectScanner
  import opened ObjectMembers
  import opened MemberRemoval
  import opened Mutations
  import opened MutationCodec
  import opened MutationMethods

  function Consing(first: Bytes, rest: Option<seq<Bytes>>): Option<seq<Bytes>> {
    if rest.Some? then Some([first] + rest.value) else None
  }

  function ElementsFrom(input: Bytes, index: nat): Option<seq<Bytes>>
    decreases |input| - index
  {
    var end := ValueEnd(input, index);
    if end.None? || end.value >= |input| then None
    else if input[end.value] == COMMA then Consing(input[index..end.value], ElementsFrom(input, end.value + 1))
    else if input[end.value] == CLOSE_BRACKET && end.value == |input| - 1 then Some([input[index..end.value]])
    else None
  }

  /** The element texts of a compact array. */
  function Elements(input: Bytes): Option<seq<Bytes>> {
    if |input| < 2 || input[0] != OPEN_BRACKET || input[|input| - 1] != CLOSE_BRACKET then None
    else if |input| == 2 then Some([])
    else ElementsFrom(input, 1)
  }

  lemma {:induction false} ElementsFromPrinted(input: Bytes, index: nat, items: seq<Json>)
    requires items != [] && index < |input|
    requires input[index..] == Join(ItemPieces(items)) + [CLOSE_BRACKET]
    ensures ElementsFrom(input, index) == Some(ItemPieces(items))
    decreases items
  {
    hide Join, Tail, Print, ItemPieces, ValueEnd;
    var pieces := ItemPieces(items);
    AfterFirstPiece(input, index, pieces, CLOSE_BRACKET);
    ValueEnds(input, index, items[0], Tail(pieces[1..], CLOSE_BRACKET));
    Cut(input, index, pieces[0], Tail(pieces[1..], CLOSE_BRACKET));
    if |items| == 1 {
      assert pieces == [pieces[0]];
    } else {
      assert pieces[1..] == ItemPieces(items[1..]);
      ElementsFromPrinted(input, index + |pieces[0]| + 1, items[1..]);
      assert pieces == [pieces[0]] + pieces[1..];
    }
  }

  lemma ElementsOfPrint(items: seq<Json>)
    ensures Elements(Print(Arr(items))) == Some(ItemPieces(items))
  {
    ArrayBody(items);
    if items != [] {
      assert ItemPieces(items)[0] != [];
      JoinHead(ItemPieces(items), CLOSE_BRACKET);
      ElementsFromPrinted(Print(Arr(items)), 1, items);
    }
  }

  function Denull(text: Bytes): Option<Bytes> {
    if text == NULL_TEXT then None else Some(text)
  }

  function SpanText(text: Bytes, span: Span): Bytes {
    if span.valueStart <= span.end <= |text| then text[span.valueStart..span.end] else []
  }

  function UnquoteName(t: Bytes): Option<Bytes> {
    if |t| >= 2 && t[0] == QUOTE && t[|t| - 1] == QUOTE then Unescape(t[1..|t| - 1]) else None
  }

  /** One wire object: exactly the four members, in canonical order. */
  function WireMutation(text: Bytes): Option<Mutation> {
    var scan := ScanObject(text);
    if !scan.Spans? || |scan.members| != 4 then None
    else
      var m := scan.members;
      if m[0].key != AFTER || m[1].key != BEFORE || m[2].key != PRIMARY_KEY || m[3].key != TABLE then None
      else
        var table := UnquoteName(SpanText(text, m[3]));
        if table.None? then None
        else Some(Mutation(table.value, SpanText(text, m[2]), Denull(SpanText(text, m[1])), Denull(SpanText(text, m[0]))))
  }

  lemma ObjectSpanText(members: seq<Member>, i: nat)
    requires i < |members|
    ensures var text := Print(Obj(members));
            && ScanObject(text) == Spans(SpansOf(members, 1))
            && SpansOf(members, 1)[i].key == members[i].key
            && SpanText(text, SpansOf(members, 1)[i]) == Print(members[i].value)
  {
    var text := Print(Obj(members));
    ScanFindsGrammarSpans(members);
    ObjectBody(members);
    assert |text| >= 2;
    SpanTexts(text, 1, members, i);
  }

  lemma DenullNullable(s: Schema, t: nat, k: Bytes, x: Option<Bytes>)
    requires WellFormed(s) && (x.Some? ==> s.rowOk(t, k, x.value))
    ensures Denull(Nullable(x)) == x
  {
    if x.Some? { var m :| x.value == Print(Obj(m)); FirstByteTellsKind(Obj(m)); }
  }

  lemma UnquoteQuoted(name: Bytes)
    ensures UnquoteName(Quoted(name)) == Some(name)
  {
    assert Quoted(name)[1..|Quoted(name)| - 1] == Escape(name);
    UnescapeEscape(name);
  }

  lemma FourTexts(a: Member, b: Member, c: Member, d: Member)
    ensures var text := Print(Obj([a, b, c, d]));
            && ScanObject(text).Spans? && |ScanObject(text).members| == 4
            && var m := ScanObject(text).members;
            && m[0].key == a.key && SpanText(text, m[0]) == Print(a.value)
            && m[1].key == b.key && SpanText(text, m[1]) == Print(b.value)
            && m[2].key == c.key && SpanText(text, m[2]) == Print(c.value)
            && m[3].key == d.key && SpanText(text, m[3]) == Print(d.value)
  {
    hide Print, ScanObject, SpansOf, SpanText;
    ObjectSpanText([a, b, c, d], 0);
    ObjectSpanText([a, b, c, d], 1);
    ObjectSpanText([a, b, c, d], 2);
    ObjectSpanText([a, b, c, d], 3);
  }

  lemma WireOfObject(after: Json, before: Json, key: Json, name: Bytes)
    ensures WireMutation(Print(Obj([Member(AFTER, after), Member(BEFORE, before), Member(PRIMARY_KEY, key), Member(TABLE, Str(name))])))
         == Some(Mutation(name, Print(key), Denull(Print(before)), Denull(Print(after))))
  {
    assert Print(Str(name)) == Quoted(name);
    UnquoteQuoted(name);
    hide Print, Denull, UnquoteName, ScanObject, SpanText, Quoted;
    FourTexts(Member(AFTER, after), Member(BEFORE, before), Member(PRIMARY_KEY, key), Member(TABLE, Str(name)));
  }

  /** Reading back one written entry. */
  lemma WireOfEntry(s: Schema, p: Prepared)
    requires WellFormed(s) && ValidPrepared(s, p)
    ensures WireMutation(EntryText(s, p)) == Some(Restore(s, p))
  {
    hide EntryText, Print, Nullable, Denull, ValueOf, WireMutation, WellFormed;
    var t := Lookup(s, Restore(s, p).table).value;
    EntryIsPrint(s, p);
    NullableIsText(s, t, p.key, p.payload.after);
    NullableIsText(s, t, p.key, p.payload.before);
    DenullNullable(s, t, p.key, p.payload.after);
    DenullNullable(s, t, p.key, p.payload.before);
    WireOfObject(ValueOf(Nullable(p.payload.after)), ValueOf(Nullable(p.payload.before)), ValueOf(p.key), NameOf(s, p));
  }

  /** Every element read as a wire mutation. */
  predicate Wire(texts: seq<Bytes>, ms: seq<Mutation>) {
    |ms| == |texts| && forall i | 0 <= i < |texts| :: WireMutation(texts[i]) == Some(ms[i])
  }

  lemma WireOfEncoding(s: Schema, ms: seq<Mutation>)
    requires WellFormed(s) && Encodable(s, ms)
    ensures var sorted := Sort(PrepareAll(s, ms));
            Elements(Encoding(s, ms)) == Some(EntryTexts(s, sorted)) && Wire(EntryTexts(s, sorted), RestoreAll(s, sorted))
  {
    var sorted := Sort(PrepareAll(s, ms));
    SortedAreValid(s, ms);
    EncodeTextIsPrint(s, sorted);
    EntriesArePrints(s, sorted);
    ElementsOfPrint(EntryValues(s, sorted));
    hide EncodeText, Elements, EntryText, WireMutation, WellFormed, ValidPrepared, Sort;
    forall i | 0 <= i < |sorted| ensures WireMutation(EntryTexts(s, sorted)[i]) == Some(RestoreAll(s, sorted)[i]) {
      WireOfEntry(s, sorted[i]);
    }
  }

  /** The sorted mutations are themselves encodable, to the same bytes. */
  lemma SortedReencodes(s: Schema, ms: seq<Mutation>)
    requires WellFormed(s) && Encodable(s, ms)
    ensures var back := RestoreAll(s, Sort(PrepareAll(s, ms)));
            && multiset(back) == multiset(ms)
            && PrepareAll(s, back) == Sort(PrepareAll(s, ms))
            && Encodable(s, back) && Encoding(s, back) == Encoding(s, ms)
  {
    var prepared := PrepareAll(s, ms);
    var sorted := Sort(prepared);
    SortedAreValid(s, ms);
    RestoreAllPrepared(s, ms);
    MapPermutes(p => Restore(s, p), sorted, prepared);
    forall i | 0 <= i < |sorted| ensures Prepare(s, Restore(s, sorted[i])) == sorted[i] { RestorePrepares(s, sorted[i]); }
    MapInverts(p => Restore(s, p), m => Prepare(s, m), sorted);
    EncodingIgnoresOrder(s, ms, RestoreAll(s, sorted));
  }

  function Onto(texts: seq<Bytes>, rest: Option<seq<Bytes>>): Option<seq<Bytes>> {
    if rest.Some? then Some(texts + rest.value) else None
  }

  lemma OntoStep(texts: seq<Bytes>, text: Bytes, rest: Option<seq<Bytes>>)
    ensures Onto(texts, Consing(text, rest)) == Onto(texts + [text], rest)
  {
    if rest.Some? { assert texts + ([text] + rest.value) == texts + [text] + rest.value; }
  }

  lemma OntoNothing(rest: Option<seq<Bytes>>)
    ensures Onto([], rest) == rest
  {
    if rest.Some? { assert [] + rest.value == rest.value; }
  }

  method ReadElements(input: Bytes) returns (r: Option<seq<Bytes>>)
    ensures r == Elements(input)
  {
    hide ValueEnd;
    if |input| < 2 || input[0] != OPEN_BRACKET || input[|input| - 1] != CLOSE_BRACKET { return None; }
    if |input| == 2 { return Some([]); }
    var index := 1;
    var texts: seq<Bytes> := [];
    OntoNothing(ElementsFrom(input, 1));
    while true
      invariant 1 <= index <= |input|
      invariant Elements(input) == Onto(texts, ElementsFrom(input, index))
      decreases |input| - index
    {
      hide ValueEnd, Elements;
      var end := ScanValue(input, index);
      if end.None? || end.value >= |input| { return None; }
      var text := input[index..end.value];
      if input[end.value] == COMMA {
        assert ElementsFrom(input, index) == Consing(text, ElementsFrom(input, end.value + 1));
        hide *;
        OntoStep(texts, text, ElementsFrom(input, end.value + 1));
        texts, index := texts + [text], end.value + 1;
      } else if input[end.value] == CLOSE_BRACKET && end.value == |input| - 1 {
        return Some(texts + [text]);
      } else {
        return None;
      }
    }
  }

  method ReadWire(texts: seq<Bytes>) returns (r: Option<seq<Mutation>>)
    ensures r.Some? ==> Wire(texts, r.value)
    ensures r.None? ==> forall ms :: !Wire(texts, ms)
  {
    hide WireMutation;
    var ms: seq<Mutation> := [];
    for k := 0 to |texts|
      invariant |ms| == k && forall i | 0 <= i < k :: WireMutation(texts[i]) == Some(ms[i])
    {
      var m := WireMutation(texts[k]);
      if m.None? { return None; }
      ms := ms + [m.value];
    }
    return Some(ms);
  }

  /** DecodeMutations accepts exactly the encodings, returns the encoded set in canonical
      order, and re-encoding what it returns gives the input back. */
  method DecodeMutations(s: Schema, encoded: Bytes) returns (r: Option<seq<Mutation>>)
    requires WellFormed(s)
    ensures r.Some? <==> exists ms :: Encodable(s, ms) && Encoding(s, ms) == encoded
    ensures r.Some? ==> Encodable(s, r.value) && Encoding(s, r.value) == encoded
    ensures r.Some? ==> StrictlySorted(PrepareAll(s, r.value))
    ensures forall ms | Encodable(s, ms) && Encoding(s, ms) == encoded ::
              r.Some? && multiset(r.value) == multiset(ms)
  {
    hide *;
    r := None;
    if 0 < |encoded| <= MAX_ENCODED_MUTATION_BYTES {
      var texts := ReadElements(encoded);
      if texts.Some? {
        var ms := ReadWire(texts.value);
        if ms.Some? {
          var again := EncodeMutations(s, ms.value);
          if again.Encoded? && again.bytes == encoded { r := ms; }
        }
      }
    }
    forall ms | Encodable(s, ms) && Encoding(s, ms) == encoded
      ensures r.Some? && multiset(r.value) == multiset(ms) && StrictlySorted(PrepareAll(s, r.value))
    {
      DecodingSucceeds(s, ms, encoded);
      SortedReencodes(s, ms);
      var back := RestoreAll(s, Sort(PrepareAll(s, ms)));
      WireUnique(EntryTexts(s, Sort(PrepareAll(s, ms))), back);
    }
  }

  lemma WireUnique(texts: seq<Bytes>, ms: seq<Mutation>)
    requires Wire(texts, ms)
    ensures forall ns | Wire(texts, ns) :: ns == ms
  {
  }

  lemma DecodingSucceeds(s: Schema, ms: seq<Mutation>, encoded: Bytes)
    requires WellFormed(s) && Encodable(s, ms) && Encoding(s, ms) == encoded
    ensures 0 < |encoded| <= MAX_ENCODED_MUTATION_BYTES
    ensures var sorted := Sort(PrepareAll(s, ms));
            && StrictlySorted(sorted)
            && Elements(encoded) == Some(EntryTexts(s, sorted))
            && Wire(EntryTexts(s, sorted), RestoreAll(s, sorted))
  {
    WireOfEncoding(s, ms);
    SortIgnoresOrder(PrepareAll(s, ms), PrepareAll(s, ms));
  }
}
