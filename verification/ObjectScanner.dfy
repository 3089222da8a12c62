/** The byte scanners of internal/codec/object.go, specified on suffixes of the input, and
    their meaning on the printing of any JSON value. */
module ObjectScanner {
  import opened Bytes
  import opened CanonicalJson
  import opened Wrappers

  function Plus(k: nat, o: Option<nat>): Option<nat> {
    if o.None? then None else Some(k + o.value)
  }

  /** Bytes up to and including the closing quote, counted from just after the opening one. */
  function StringSpan(t: Bytes, escaped: bool): (r: Option<nat>)
    ensures r.Some? ==> 0 < r.value <= |t|
  {
    if t == [] then None
    else if escaped then Plus(1, StringSpan(t[1..], false))
    else if t[0] == BACKSLASH then Plus(1, StringSpan(t[1..], true))
    else if t[0] == QUOTE then Some(1)
    else Plus(1, StringSpan(t[1..], false))
  }

  predicate Opens(b: u8) { b == OPEN_BRACE || b == OPEN_BRACKET }

  predicate Closes(b: u8) { b == CLOSE_BRACE || b == CLOSE_BRACKET }

  /** What one byte does to the scanner's counter and flags. */
  function Depth(depth: int, inString: bool, b: u8): int {
    if inString then depth else if Opens(b) then depth + 1 else if Closes(b) then depth - 1 else depth
  }

  function InString(inString: bool, escaped: bool, b: u8): bool {
    if inString then escaped || b != QUOTE else b == QUOTE
  }

  function Escaped(inString: bool, escaped: bool, b: u8): bool {
    inString && !escaped && b == BACKSLASH
  }

  /** Bytes until the single bracket counter returns to zero. */
  function ContainerSpan(t: Bytes, depth: int, inString: bool, escaped: bool): (r: Option<nat>)
    ensures r.Some? ==> 0 < r.value <= |t|
  {
    if t == [] then None
    else if !inString && Closes(t[0]) && depth == 1 then Some(1)
    else Plus(1, ContainerSpan(t[1..], Depth(depth, inString, t[0]), InString(inString, escaped, t[0]),
                               Escaped(inString, escaped, t[0])))
  }

  function ScalarSpan(t: Bytes): (r: Option<nat>)
    ensures r.Some? ==> r.value < |t| && IsDelimiter(t[r.value])
  {
    if t == [] then None
    else if IsDelimiter(t[0]) then Some(0)
    else Plus(1, ScalarSpan(t[1..]))
  }

  function ValueSpan(t: Bytes): (r: Option<nat>)
    ensures r.Some? ==> 0 < r.value <= |t|
  {
    if t == [] then None
    else if t[0] == QUOTE then Plus(1, StringSpan(t[1..], false))
    else if Opens(t[0]) then ContainerSpan(t, 0, false, false)
    else if IsDelimiter(t[0]) then None
    else ScalarSpan(t)
  }

  // ---- what the scanners find on printed text ----

  /** Scanning across `p` inside a container leaves the counter and the flags as they were. */
  ghost predicate Neutral(p: Bytes) {
    forall rest: Bytes, d: int {:trigger ContainerSpan(p + rest, d, false, false)} | d >= 1 ::
      ContainerSpan(p + rest, d, false, false) == Plus(|p|, ContainerSpan(rest, d, false, false))
  }

  lemma NeutralConcat(p: Bytes, q: Bytes)
    requires Neutral(p) && Neutral(q)
    ensures Neutral(p + q)
  {
    forall rest: Bytes, d: int | d >= 1
      ensures ContainerSpan(p + q + rest, d, false, false) == Plus(|p + q|, ContainerSpan(rest, d, false, false))
    {
      assert p + q + rest == p + (q + rest);
      assert ContainerSpan(p + (q + rest), d, false, false) == Plus(|p|, ContainerSpan(q + rest, d, false, false));
    }
  }

  predicate Plain(p: Bytes) {
    forall i | 0 <= i < |p| :: p[i] != QUOTE && !Opens(p[i]) && !Closes(p[i])
  }

  lemma {:induction false} PlainIsNeutral(p: Bytes)
    requires Plain(p)
    ensures Neutral(p)
  {
    forall rest: Bytes, d: int | d >= 1
      ensures ContainerSpan(p + rest, d, false, false) == Plus(|p|, ContainerSpan(rest, d, false, false))
    {
      if p == [] {
        assert p + rest == rest;
      } else {
        PlainIsNeutral(p[1..]);
        assert (p + rest)[1..] == p[1..] + rest;
        assert ContainerSpan(p[1..] + rest, d, false, false) == Plus(|p| - 1, ContainerSpan(rest, d, false, false));
      }
    }
  }

  lemma {:induction false} PlainInsideString(p: Bytes, rest: Bytes, d: int)
    requires forall i | 0 <= i < |p| :: p[i] != QUOTE && p[i] != BACKSLASH
    ensures StringSpan(p + rest, false) == Plus(|p|, StringSpan(rest, false))
    ensures ContainerSpan(p + rest, d, true, false) == Plus(|p|, ContainerSpan(rest, d, true, false))
  {
    if p == [] {
      assert p + rest == rest;
    } else {
      PlainInsideString(p[1..], rest, d);
      assert (p + rest)[1..] == p[1..] + rest;
    }
  }

  lemma EscapedByteStaysInside(b: u8, rest: Bytes, d: int)
    ensures StringSpan(EscapeByte(b) + rest, false) == Plus(|EscapeByte(b)|, StringSpan(rest, false))
    ensures ContainerSpan(EscapeByte(b) + rest, d, true, false)
         == Plus(|EscapeByte(b)|, ContainerSpan(rest, d, true, false))
  {
    hide StringSpan, ContainerSpan;
    var e := EscapeByte(b);
    if |e| == 1 {
      PlainInsideString(e, rest, d);
    } else {
      PlainInsideString(e[2..], rest, d);
      EscapePair(e[1], e[2..] + rest, d);
      assert e + rest == [BACKSLASH, e[1]] + (e[2..] + rest);
    }
  }

  lemma ClosingQuote(rest: Bytes, d: int)
    ensures StringSpan([QUOTE] + rest, false) == Some(1)
    ensures ContainerSpan([QUOTE] + rest, d, true, false) == Plus(1, ContainerSpan(rest, d, false, false))
  {
    assert ([QUOTE] + rest)[1..] == rest;
  }

  lemma EscapePair(b: u8, rest: Bytes, d: int)
    ensures StringSpan([BACKSLASH, b] + rest, false) == Plus(2, StringSpan(rest, false))
    ensures ContainerSpan([BACKSLASH, b] + rest, d, true, false) == Plus(2, ContainerSpan(rest, d, true, false))
  {
    assert ([BACKSLASH, b] + rest)[1..] == [b] + rest;
    assert ([b] + rest)[1..] == rest;
  }

  lemma FirstOfFour(a: Bytes, b: Bytes, c: Bytes, d: Bytes)
    ensures a + b + c + d == a + (b + c + d)
  {
  }

  /** A literal ends at its own closing quote, never at an escaped one. */
  lemma {:induction false} StringContent(s: Bytes, rest: Bytes, d: int)
    ensures StringSpan(Escape(s) + [QUOTE] + rest, false) == Some(|Escape(s)| + 1)
    ensures ContainerSpan(Escape(s) + [QUOTE] + rest, d, true, false)
         == Plus(|Escape(s)| + 1, ContainerSpan(rest, d, false, false))
  {
    hide StringSpan, ContainerSpan, EscapeByte;
    if s == [] {
      ClosingQuote(rest, d);
      assert Escape(s) + [QUOTE] + rest == [QUOTE] + rest;
    } else {
      var first, others := EscapeByte(s[0]), Escape(s[1..]);
      assert Escape(s) == first + others;
      hide *;
      StringContent(s[1..], rest, d);
      EscapedByteStaysInside(s[0], others + [QUOTE] + rest, d);
      FirstOfFour(first, others, [QUOTE], rest);
    }
  }

  /** One byte of a container scan. */
  lemma ContainerByte(t: Bytes, depth: int, inString: bool, escaped: bool)
    requires t != []
    ensures ContainerSpan(t, depth, inString, escaped) ==
            if !inString && Closes(t[0]) && depth == 1 then Some(1)
            else Plus(1, ContainerSpan(t[1..], Depth(depth, inString, t[0]), InString(inString, escaped, t[0]),
                                       Escaped(inString, escaped, t[0])))
  {
  }

  lemma QuotedParts(s: Bytes, rest: Bytes)
    ensures var t := Quoted(s) + rest;
      t != [] && t[0] == QUOTE && t[1..] == Escape(s) + [QUOTE] + rest && |Quoted(s)| == |Escape(s)| + 2
  {
    hide Escape;
  }

  lemma QuotedIsNeutral(s: Bytes)
    ensures Neutral(Quoted(s))
  {
    hide Quoted, Escape, ContainerSpan;
    forall rest: Bytes, d: int | d >= 1
      ensures ContainerSpan(Quoted(s) + rest, d, false, false) == Plus(|Quoted(s)|, ContainerSpan(rest, d, false, false))
    {
      StringContent(s, rest, d);
      QuotedParts(s, rest);
      ContainerByte(Quoted(s) + rest, d, false, false);
    }
  }

  lemma {:induction false} JoinIsNeutral(pieces: seq<Bytes>)
    requires forall i | 0 <= i < |pieces| :: Neutral(pieces[i])
    ensures Neutral(Join(pieces))
  {
    PlainIsNeutral([]);
    if |pieces| > 1 {
      JoinIsNeutral(pieces[1..]);
      PlainIsNeutral([COMMA]);
      NeutralConcat(pieces[0], [COMMA]);
      NeutralConcat(pieces[0] + [COMMA], Join(pieces[1..]));
    }
  }

  lemma BracketedStep(open: u8, body: Bytes, close: u8, rest: Bytes, d: nat)
    requires Opens(open) && Closes(close) && Neutral(body)
    ensures ContainerSpan([open] + body + [close] + rest, d, false, false)
         == if d == 0 then Some(|body| + 2) else Plus(|body| + 2, ContainerSpan(rest, d, false, false))
  {
    hide ContainerSpan;
    var t, tail := [open] + body + [close] + rest, [close] + rest;
    assert t[0] == open && t[1..] == body + tail && tail[0] == close && tail[1..] == rest;
    ContainerByte(t, d, false, false);
    assert ContainerSpan(body + tail, d + 1, false, false) == Plus(|body|, ContainerSpan(tail, d + 1, false, false));
    ContainerByte(tail, d + 1, false, false);
    hide Neutral;
  }

  /** A bracketed neutral body is itself neutral one level up. */
  lemma BracketedIsNeutral(open: u8, body: Bytes, close: u8)
    requires Opens(open) && Closes(close) && Neutral(body)
    ensures Neutral([open] + body + [close])
  {
    var p := [open] + body + [close];
    forall rest: Bytes, d: int | d >= 1
      ensures ContainerSpan(p + rest, d, false, false) == Plus(|p|, ContainerSpan(rest, d, false, false))
    {
      BracketedStep(open, body, close, rest, d);
    }
  }

  lemma {:induction false} PrintIsNeutral(v: Json)
    ensures Neutral(Print(v))
    decreases v
  {
    hide ContainerSpan, Neutral, Join, Escape;
    match v {
      case Null => PlainIsNeutral(Print(v));
      case Bool(_) => PlainIsNeutral(Print(v));
      case Num(n) => PlainIsNeutral(Print(v));
      case Str(s) => QuotedIsNeutral(s);
      case Arr(items) => ArrayBodyIsNeutral(items); BracketedIsNeutral(OPEN_BRACKET, Join(ItemPieces(items)), CLOSE_BRACKET);
      case Obj(members) => ObjectBodyIsNeutral(members); BracketedIsNeutral(OPEN_BRACE, Join(MemberPieces(members)), CLOSE_BRACE);
    }
  }

  lemma {:induction false} ArrayBodyIsNeutral(items: seq<Json>)
    ensures Neutral(Join(ItemPieces(items)))
    decreases items
  {
    forall i | 0 <= i < |items| ensures Neutral(ItemPieces(items)[i]) { PrintIsNeutral(items[i]); }
    JoinIsNeutral(ItemPieces(items));
  }

  lemma {:induction false} ObjectBodyIsNeutral(members: seq<Member>)
    ensures Neutral(Join(MemberPieces(members)))
    decreases members
  {
    forall i | 0 <= i < |members| ensures Neutral(MemberPieces(members)[i]) {
      PrintIsNeutral(members[i].value);
      QuotedIsNeutral(members[i].key);
      PlainIsNeutral([COLON]);
      NeutralConcat(Quoted(members[i].key), [COLON]);
      NeutralConcat(Quoted(members[i].key) + [COLON], Print(members[i].value));
    }
    JoinIsNeutral(MemberPieces(members));
  }

  lemma {:induction false} ScalarRun(p: Bytes, rest: Bytes)
    requires forall i | 0 <= i < |p| :: !IsDelimiter(p[i])
    requires StartsWithDelimiter(rest)
    ensures ScalarSpan(p + rest) == Some(|p|)
  {
    if p == [] {
      assert p + rest == rest;
    } else {
      ScalarRun(p[1..], rest);
      assert (p + rest)[1..] == p[1..] + rest;
    }
  }

  /** Wherever a printed value stands before a delimiter, the scanner returns exactly its bytes. */
  lemma ValueSpanOfPrint(v: Json, rest: Bytes)
    requires StartsWithDelimiter(rest) || v.Arr? || v.Obj? || v.Str?
    ensures ValueSpan(Print(v) + rest) == Some(|Print(v)|)
  {
    hide StringSpan, ContainerSpan, Escape, Join, Digits, Neutral;
    match v {
      case Null => ScalarRun(Print(v), rest);
      case Bool(_) => ScalarRun(Print(v), rest);
      case Num(n) => ScalarRun(Print(v), rest);
      case Str(s) => QuotedSpan(s, rest);
      case Arr(items) =>
        var body := Join(ItemPieces(items));
        ArrayBodyIsNeutral(items);
        BracketedSpan(OPEN_BRACKET, body, CLOSE_BRACKET, rest);
      case Obj(members) =>
        var body := Join(MemberPieces(members));
        ObjectBodyIsNeutral(members);
        BracketedSpan(OPEN_BRACE, body, CLOSE_BRACE, rest);
    }
  }

  lemma QuotedSpan(s: Bytes, rest: Bytes)
    ensures ValueSpan(Quoted(s) + rest) == Some(|Quoted(s)|)
  {
    hide StringSpan, ContainerSpan, ScalarSpan, Escape;
    StringContent(s, rest, 0);
    assert (Quoted(s) + rest)[1..] == Escape(s) + [QUOTE] + rest;
  }

  lemma BracketedSpan(open: u8, body: Bytes, close: u8, rest: Bytes)
    requires Opens(open) && Closes(close) && Neutral(body)
    ensures ValueSpan([open] + body + [close] + rest) == Some(|body| + 2)
  {
    hide ContainerSpan, StringSpan, ScalarSpan, Neutral;
    BracketedStep(open, body, close, rest, 0);
  }

  /** Printed values are self-delimiting: equal texts cut at the same place. */
  lemma PrintPrefixFree(v: Json, a: Bytes, w: Json, b: Bytes)
    requires StartsWithDelimiter(a) || v.Arr? || v.Obj? || v.Str?
    requires StartsWithDelimiter(b) || w.Arr? || w.Obj? || w.Str?
    requires Print(v) + a == Print(w) + b
    ensures Print(v) == Print(w) && a == b
  {
    ValueSpanOfPrint(v, a);
    ValueSpanOfPrint(w, b);
    SplitEqual(Print(v), a, Print(w), b);
  }
}
