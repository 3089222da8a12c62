/** JSON values of the canonical profile and their compact printing: no insignificant
    white space, integers in plain decimal, strings escaped as RFC 8785 section 3.2.2.2
    prescribes. Member order is whatever the member sequence says. */
module CanonicalJson {
  import opened Bytes
  import opened Wrappers

  datatype Json =
    | Null
    | Bool(flag: bool)
    | Num(number: int)
    | Str(text: Bytes)
    | Arr(items: seq<Json>)
    | Obj(members: seq<Member>)

  datatype Member = Member(key: Bytes, value: Json)

  const QUOTE: u8 := 0x22
  const BACKSLASH: u8 := 0x5c
  const COMMA: u8 := 0x2c
  const COLON: u8 := 0x3a
  const OPEN_BRACKET: u8 := 0x5b
  const CLOSE_BRACKET: u8 := 0x5d
  const OPEN_BRACE: u8 := 0x7b
  const CLOSE_BRACE: u8 := 0x7d
  const NULL_TEXT: Bytes := [0x6e, 0x75, 0x6c, 0x6c]
  const TRUE_TEXT: Bytes := [0x74, 0x72, 0x75, 0x65]
  const FALSE_TEXT: Bytes := [0x66, 0x61, 0x6c, 0x73, 0x65]

  /** Inside a container a value is always followed by one of these bytes. */
  predicate IsDelimiter(b: u8) {
    b == COMMA || b == CLOSE_BRACKET || b == CLOSE_BRACE
  }

  predicate StartsWithDelimiter(s: Bytes) {
    s != [] && IsDelimiter(s[0])
  }

  // ---- strings ----

  function HexDigit(n: u8): u8
    requires n < 16
  {
    if n < 10 then 0x30 + n else 0x57 + n
  }

  function HexValue(b: u8): int {
    if 0x30 <= b <= 0x39 then b as int - 0x30
    else if 0x61 <= b <= 0x66 then b as int - 0x57
    else -1
  }

  /** The letter of a two-byte escape, or 0 when the byte has none. */
  function ShortEscape(b: u8): u8 {
    if b == QUOTE || b == BACKSLASH then b
    else if b == 8 then 0x62
    else if b == 9 then 0x74
    else if b == 10 then 0x6e
    else if b == 12 then 0x66
    else if b == 13 then 0x72
    else 0
  }

  function UnescapeShort(b: u8): u8 {
    if b == QUOTE || b == BACKSLASH then b
    else if b == 0x62 then 8
    else if b == 0x74 then 9
    else if b == 0x6e then 10
    else if b == 0x66 then 12
    else if b == 0x72 then 13
    else 0
  }

  function EscapeByte(b: u8): (r: Bytes) {
    if ShortEscape(b) != 0 then [BACKSLASH, ShortEscape(b)]
    else if b < 0x20 then [BACKSLASH, 0x75, 0x30, 0x30, HexDigit(b / 16), HexDigit(b % 16)]
    else [b]
  }

  function Escape(s: Bytes): Bytes {
    if s == [] then [] else EscapeByte(s[0]) + Escape(s[1..])
  }

  function Prepend(b: u8, rest: Option<Bytes>): Option<Bytes> {
    if rest.None? then None else Some([b] + rest.value)
  }

  /** Decodes the content of a canonically escaped string literal. */
  function Unescape(t: Bytes): Option<Bytes> {
    if t == [] then Some([])
    else if t[0] == QUOTE || t[0] < 0x20 then None
    else if t[0] != BACKSLASH then Prepend(t[0], Unescape(t[1..]))
    else if |t| >= 2 && UnescapeShort(t[1]) != 0 then Prepend(UnescapeShort(t[1]), Unescape(t[2..]))
    else if |t| >= 6 && t[1] == 0x75 && t[2] == 0x30 && t[3] == 0x30
         && 0 <= HexValue(t[4]) < 2 && HexValue(t[5]) >= 0
    then Prepend((16 * HexValue(t[4]) + HexValue(t[5])) as u8, Unescape(t[6..]))
    else None
  }

  lemma UnescapeOne(b: u8, rest: Bytes)
    ensures Unescape(EscapeByte(b) + rest) == Prepend(b, Unescape(rest))
  {
    var e := EscapeByte(b);
    assert (e + rest)[|e|..] == rest;
    if ShortEscape(b) != 0 {
      assert UnescapeShort(ShortEscape(b)) == b;
      assert (e + rest)[1] == ShortEscape(b);
    } else if b < 0x20 {
      assert HexValue(HexDigit(b / 16)) == (b / 16) as int;
      assert HexValue(HexDigit(b % 16)) == (b % 16) as int;
    }
  }

  /** Escaping loses nothing. */
  lemma {:induction false} UnescapeEscape(s: Bytes)
    ensures Unescape(Escape(s)) == Some(s)
  {
    if s != [] {
      UnescapeEscape(s[1..]);
      UnescapeOne(s[0], Escape(s[1..]));
      assert [s[0]] + s[1..] == s;
    }
  }

  function Quoted(s: Bytes): Bytes {
    [QUOTE] + Escape(s) + [QUOTE]
  }

  // ---- numbers ----

  function Digits(n: nat): (r: Bytes)
    ensures r != [] && forall i | 0 <= i < |r| :: 0x30 <= r[i] <= 0x39
  {
    if n < 10 then [0x30 + n as u8] else Digits(n / 10) + [0x30 + (n % 10) as u8]
  }

  function Decimal(n: int): Bytes {
    if n < 0 then [0x2d] + Digits(-n) else Digits(n)
  }

  lemma {:induction false} DigitsInjective(a: nat, b: nat)
    requires Digits(a) == Digits(b)
    ensures a == b
  {
    var x, y := Digits(a), Digits(b);
    assert x[|x| - 1] == 0x30 + (a % 10) as u8 && y[|y| - 1] == 0x30 + (b % 10) as u8;
    if a >= 10 && b >= 10 {
      assert x[..|x| - 1] == Digits(a / 10) && y[..|y| - 1] == Digits(b / 10);
      DigitsInjective(a / 10, b / 10);
    }
  }

  lemma DecimalInjective(a: int, b: int)
    requires Decimal(a) == Decimal(b)
    ensures a == b
  {
    assert a >= 0 ==> Decimal(a)[0] >= 0x30;
    assert b >= 0 ==> Decimal(b)[0] >= 0x30;
    if a < 0 && b < 0 {
      assert Decimal(a)[1..] == Digits(-a) && Decimal(b)[1..] == Digits(-b);
      DigitsInjective(-a, -b);
    } else if a >= 0 && b >= 0 {
      DigitsInjective(a, b);
    }
  }

  // ---- values ----

  function Join(pieces: seq<Bytes>): Bytes {
    if |pieces| == 0 then []
    else if |pieces| == 1 then pieces[0]
    else pieces[0] + [COMMA] + Join(pieces[1..])
  }

  function Print(v: Json): (r: Bytes)
    ensures r != []
    decreases v, 0
  {
    match v
    case Null => NULL_TEXT
    case Bool(flag) => if flag then TRUE_TEXT else FALSE_TEXT
    case Num(n) => Decimal(n)
    case Str(s) => Quoted(s)
    case Arr(items) => [OPEN_BRACKET] + Join(ItemPieces(items)) + [CLOSE_BRACKET]
    case Obj(members) => [OPEN_BRACE] + Join(MemberPieces(members)) + [CLOSE_BRACE]
  }

  function ItemPieces(items: seq<Json>): (r: seq<Bytes>)
    ensures |r| == |items|
    ensures forall i | 0 <= i < |r| :: r[i] == Print(items[i])
    decreases items, 1
  {
    if items == [] then [] else [Print(items[0])] + ItemPieces(items[1..])
  }

  function PrintMember(m: Member): Bytes
    decreases m, 1
  {
    Quoted(m.key) + [COLON] + Print(m.value)
  }

  function MemberPieces(members: seq<Member>): (r: seq<Bytes>)
    ensures |r| == |members|
    ensures forall i | 0 <= i < |r| :: r[i] == PrintMember(members[i])
    decreases members, 2
  {
    if members == [] then [] else [PrintMember(members[0])] + MemberPieces(members[1..])
  }

  predicate DistinctKeys(members: seq<Member>) {
    forall i, j | 0 <= i < j < |members| :: members[i].key != members[j].key
  }
}
