/** Printing is injective, and cutting one member out of a compact object
    (internal/codec/object.go) is exact on the grammar's own member spans. */
module ObjectMembers {
  import opened Bytes
  import opened CanonicalJson
  import opened Wrappers
  import opened ObjectScanner

  // ---- printing determines the value ----

  function KindOfByte(b: u8): int {
    if b == 0x6e then 0
    else if b == 0x74 || b == 0x66 then 1
    else if b == 0x2d || 0x30 <= b <= 0x39 then 2
    else if b == QUOTE then 3
    else if b == OPEN_BRACKET then 4
    else if b == OPEN_BRACE then 5
    else 6
  }

  function KindOf(v: Json): int {
    match v
    case Null => 0
    case Bool(_) => 1
    case Num(_) => 2
    case Str(_) => 3
    case Arr(_) => 4
    case Obj(_) => 5
  }

  lemma FirstByteTellsKind(v: Json)
    ensures KindOfByte(Print(v)[0]) == KindOf(v)
    ensures !IsDelimiter(Print(v)[0])
  {
  }

  lemma EscapeInjective(s: Bytes, t: Bytes)
    requires Quoted(s) == Quoted(t)
    ensures s == t
  {
    assert Quoted(s)[1..|Quoted(s)| - 1] == Escape(s);
    assert Quoted(t)[1..|Quoted(t)| - 1] == Escape(t);
    UnescapeEscape(s);
    UnescapeEscape(t);
  }

  lemma QuotedPrefixFree(s: Bytes, a: Bytes, t: Bytes, b: Bytes)
    requires Quoted(s) + a == Quoted(t) + b
    ensures s == t && a == b
  {
    PrintPrefixFree(Str(s), a, Str(t), b);
    EscapeInjective(s, t);
  }

  /** What follows the first piece of a joined body. */
  function Tail(pieces: seq<Bytes>, close: u8): (r: Bytes)
    ensures r != [] && (IsDelimiter(close) ==> StartsWithDelimiter(r))
  {
    if pieces == [] then [close] else [COMMA] + Join(pieces) + [close]
  }

  lemma JoinHead(pieces: seq<Bytes>, close: u8)
    requires pieces != []
    ensures Join(pieces) + [close] == pieces[0] + Tail(pieces[1..], close)
  {
  }

  lemma TailInjective(ps: seq<Bytes>, qs: seq<Bytes>, close: u8)
    requires IsDelimiter(close) && close != COMMA && Tail(ps, close) == Tail(qs, close)
    ensures ps == [] <==> qs == []
    ensures Join(ps) + [close] == Join(qs) + [close]
  {
    assert ps != [] ==> Tail(ps, close)[1..] == Join(ps) + [close];
    assert qs != [] ==> Tail(qs, close)[1..] == Join(qs) + [close];
  }

  lemma ArrayBody(items: seq<Json>)
    ensures Print(Arr(items))[1..] == Join(ItemPieces(items)) + [CLOSE_BRACKET]
  {
  }

  lemma ObjectBody(members: seq<Member>)
    ensures Print(Obj(members))[1..] == Join(MemberPieces(members)) + [CLOSE_BRACE]
  {
  }

  lemma EmptyBody(pieces: seq<Bytes>, close: u8)
    requires Join(pieces) + [close] == [close]
    requires pieces != [] ==> pieces[0] != []
    ensures pieces == []
  {
  }

  /** No two values share a printing. */
  lemma {:induction false} PrintInjective(v: Json, w: Json)
    requires Print(v) == Print(w)
    ensures v == w
    decreases v, 0
  {
    FirstByteTellsKind(v);
    FirstByteTellsKind(w);
    assert KindOf(v) == KindOf(w);
    if v.Num? {
      DecimalInjective(v.number, w.number);
    } else if v.Str? {
      EscapeInjective(v.text, w.text);
    } else if v.Arr? {
      ArrayBody(v.items);
      ArrayBody(w.items);
      ItemsInjective(v.items, w.items);
    } else if v.Obj? {
      ObjectBody(v.members);
      ObjectBody(w.members);
      MembersInjective(v.members, w.members);
    }
  }

  lemma {:induction false} ItemsInjective(xs: seq<Json>, ys: seq<Json>)
    requires Join(ItemPieces(xs)) + [CLOSE_BRACKET] == Join(ItemPieces(ys)) + [CLOSE_BRACKET]
    ensures xs == ys
    decreases xs, 1
  {
    var ps, qs := ItemPieces(xs), ItemPieces(ys);
    if xs == [] {
      EmptyBody(qs, CLOSE_BRACKET);
    } else if ys == [] {
      EmptyBody(ps, CLOSE_BRACKET);
    } else {
      JoinHead(ps, CLOSE_BRACKET);
      JoinHead(qs, CLOSE_BRACKET);
      PrintPrefixFree(xs[0], Tail(ps[1..], CLOSE_BRACKET), ys[0], Tail(qs[1..], CLOSE_BRACKET));
      PrintInjective(xs[0], ys[0]);
      TailInjective(ps[1..], qs[1..], CLOSE_BRACKET);
      assert ps[1..] == ItemPieces(xs[1..]) && qs[1..] == ItemPieces(ys[1..]);
      ItemsInjective(xs[1..], ys[1..]);
      assert xs == [xs[0]] + xs[1..] && ys == [ys[0]] + ys[1..];
    }
  }

  lemma AroundColon(q: Bytes, p: Bytes, a: Bytes)
    ensures q + [COLON] + p + a == q + ([COLON] + (p + a))
    ensures ([COLON] + (p + a))[1..] == p + a
  {
  }

  lemma MemberPieceSplits(x: Member, a: Bytes, y: Member, b: Bytes)
    requires StartsWithDelimiter(a) && StartsWithDelimiter(b)
    requires PrintMember(x) + a == PrintMember(y) + b
    ensures x.key == y.key && Print(x.value) == Print(y.value) && a == b
  {
    AroundColon(Quoted(x.key), Print(x.value), a);
    AroundColon(Quoted(y.key), Print(y.value), b);
    QuotedPrefixFree(x.key, [COLON] + (Print(x.value) + a), y.key, [COLON] + (Print(y.value) + b));
    PrintPrefixFree(x.value, a, y.value, b);
  }

  lemma {:induction false} MembersInjective(xs: seq<Member>, ys: seq<Member>)
    requires Join(MemberPieces(xs)) + [CLOSE_BRACE] == Join(MemberPieces(ys)) + [CLOSE_BRACE]
    ensures xs == ys
    decreases xs, 1
  {
    var ps, qs := MemberPieces(xs), MemberPieces(ys);
    if xs == [] {
      EmptyBody(qs, CLOSE_BRACE);
    } else if ys == [] {
      EmptyBody(ps, CLOSE_BRACE);
    } else {
      JoinHead(ps, CLOSE_BRACE);
      JoinHead(qs, CLOSE_BRACE);
      MemberPieceSplits(xs[0], Tail(ps[1..], CLOSE_BRACE), ys[0], Tail(qs[1..], CLOSE_BRACE));
      PrintInjective(xs[0].value, ys[0].value);
      TailInjective(ps[1..], qs[1..], CLOSE_BRACE);
      assert ps[1..] == MemberPieces(xs[1..]) && qs[1..] == MemberPieces(ys[1..]);
      MembersInjective(xs[1..], ys[1..]);
      assert xs == [xs[0]] + xs[1..] && ys == [ys[0]] + ys[1..];
    }
  }
}
