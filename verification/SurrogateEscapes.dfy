/** validateSurrogateEscapes of internal/codec/canonical.go, proved against the grammar of JSON string
    literals in section 7 of RFC 8259. */
module SurrogateEscapes {
  import opened Bytes
  import opened CanonicalJson
  import opened Wrappers

  const LETTER_U: u8 := 0x75

  /** The value of a hexadecimal digit of either case. */
  function HexDigitValue(b: u8): Option<nat> {
    if 0x30 <= b <= 0x39 then Some(b as int - 0x30)
    else if 0x61 <= b <= 0x66 then Some(b as int - 0x57)
    else if 0x41 <= b <= 0x46 then Some(b as int - 0x37)
    else None
  }

  predicate IsHex(b: u8) {
    HexDigitValue(b).Some?
  }

  function CodeUnit(a: u8, b: u8, c: u8, d: u8): nat
    requires IsHex(a) && IsHex(b) && IsHex(c) && IsHex(d)
  {
    0x1000 * HexDigitValue(a).value + 0x100 * HexDigitValue(b).value + 0x10 * HexDigitValue(c).value + HexDigitValue(d).value
  }

  /** One character or escape sequence of a string literal. */
  datatype Unit = Plain(b: u8) | Short(letter: u8) | Hex(h0: u8, h1: u8, h2: u8, h3: u8)

  /** A JSON text seen as bytes outside literals and whole literals. */
  datatype Chunk = Outside(b: u8) | Literal(units: seq<Unit>)

  predicate ValidUnit(u: Unit) {
    match u
    case Plain(b) => b != QUOTE && b != BACKSLASH
    case Short(letter) => letter != LETTER_U
    case Hex(a, b, c, d) => IsHex(a) && IsHex(b) && IsHex(c) && IsHex(d)
  }

  predicate ValidUnits(us: seq<Unit>) {
    forall i | 0 <= i < |us| :: ValidUnit(us[i])
  }

  predicate ValidChunk(c: Chunk) {
    match c
    case Outside(b) => b != QUOTE
    case Literal(units) => ValidUnits(units)
  }

  predicate ValidChunks(cs: seq<Chunk>) {
    forall i | 0 <= i < |cs| :: ValidChunk(cs[i])
  }

  function RenderUnit(u: Unit): Bytes {
    match u
    case Plain(b) => [b]
    case Short(letter) => [BACKSLASH, letter]
    case Hex(a, b, c, d) => [BACKSLASH, LETTER_U, a, b, c, d]
  }

  function RenderUnits(us: seq<Unit>): Bytes {
    if us == [] then [] else RenderUnit(us[0]) + RenderUnits(us[1..])
  }

  function RenderChunk(c: Chunk): Bytes {
    match c
    case Outside(b) => [b]
    case Literal(units) => [QUOTE] + RenderUnits(units) + [QUOTE]
  }

  function Render(cs: seq<Chunk>): Bytes {
    if cs == [] then [] else RenderChunk(cs[0]) + Render(cs[1..])
  }

  predicate High(u: Unit) {
    u.Hex? && ValidUnit(u) && 0xd800 <= CodeUnit(u.h0, u.h1, u.h2, u.h3) <= 0xdbff
  }

  predicate Low(u: Unit) {
    u.Hex? && ValidUnit(u) && 0xdc00 <= CodeUnit(u.h0, u.h1, u.h2, u.h3) <= 0xdfff
  }

  /** Every escaped high surrogate is directly followed by an escaped low one, and no escaped low
      surrogate stands alone. */
  predicate WellPaired(us: seq<Unit>) {
    && (forall i | 0 <= i < |us| && High(us[i]) :: i + 1 < |us| && Low(us[i + 1]))
    && (forall i | 0 <= i < |us| && Low(us[i]) :: i > 0 && High(us[i - 1]))
  }

  predicate AllPaired(cs: seq<Chunk>) {
    forall i | 0 <= i < |cs| && cs[i].Literal? :: WellPaired(cs[i].units)
  }

  // ---- the scan, on the bytes that remain ----

  function UnitAt(t: Bytes, start: nat): Option<nat> {
    if start + 4 > |t| || !IsHex(t[start]) || !IsHex(t[start + 1]) || !IsHex(t[start + 2]) || !IsHex(t[start + 3]) then None
    else Some(CodeUnit(t[start], t[start + 1], t[start + 2], t[start + 3]))
  }

  predicate IsHigh(n: nat) {
    0xd800 <= n <= 0xdbff
  }

  predicate IsLow(n: nat) {
    0xdc00 <= n <= 0xdfff
  }

  function Drop(t: Bytes, n: nat): Bytes {
    if n <= |t| then t[n..] else []
  }

  predicate ScanOutside(t: Bytes)
    decreases |t|
  {
    t == [] || if t[0] == QUOTE then ScanInside(t[1..]) else ScanOutside(t[1..])
  }

  predicate ScanInside(t: Bytes)
    decreases |t|
  {
    if t == [] then true
    else if t[0] == QUOTE then ScanOutside(t[1..])
    else if t[0] != BACKSLASH then ScanInside(t[1..])
    else if |t| < 2 || t[1] != LETTER_U then ScanInside(Drop(t, 2))
    else
      var first := UnitAt(t, 2);
      if first.None? then false
      else if IsHigh(first.value) then
        && |t| >= 12 && t[6] == BACKSLASH && t[7] == LETTER_U
        && UnitAt(t, 8).Some? && IsLow(UnitAt(t, 8).value)
        && ScanInside(t[12..])
      else !IsLow(first.value) && ScanInside(t[6..])
  }

  // ---- the scan accepts exactly well-paired literals ----

  /** The same pairing, read from left to right. */
  predicate Pairs(us: seq<Unit>) {
    if us == [] then true
    else if High(us[0]) then |us| >= 2 && Low(us[1]) && Pairs(us[2..])
    else !Low(us[0]) && Pairs(us[1..])
  }

  lemma NotBoth(u: Unit)
    ensures !(High(u) && Low(u))
  {
  }

  lemma WellPairedTail(us: seq<Unit>, n: nat)
    requires WellPaired(us) && n <= |us| && (n > 0 ==> !High(us[n - 1]))
    ensures WellPaired(us[n..])
  {
    var t := us[n..];
    forall i | 0 <= i < |t| && High(t[i]) ensures i + 1 < |t| && Low(t[i + 1]) {
      assert High(us[n + i]);
    }
    forall i | 0 <= i < |t| && Low(t[i]) ensures i > 0 && High(t[i - 1]) {
      assert Low(us[n + i]) && High(us[n + i - 1]);
    }
  }

  lemma PairedCons(us: seq<Unit>, n: nat)
    requires n <= |us| && WellPaired(us[n..])
    requires n == 1 ==> !High(us[0]) && !Low(us[0])
    requires n == 2 ==> High(us[0]) && Low(us[1])
    requires 1 <= n <= 2
    ensures WellPaired(us)
  {
    hide High, Low;
    var t := us[n..];
    assert forall i | 0 <= i < |t| :: us[n + i] == t[i];
    if n == 2 { assert !High(us[1]) && !Low(us[0]) by { NotBoth(us[0]); NotBoth(us[1]); } }
    forall i | 0 <= i < |us| && High(us[i]) ensures i + 1 < |us| && Low(us[i + 1]) {
      if i >= n { assert High(t[i - n]); assert Low(t[i - n + 1]); }
    }
    forall i | 0 <= i < |us| && Low(us[i]) ensures i > 0 && High(us[i - 1]) {
      if i >= n { assert Low(t[i - n]); assert High(t[i - n - 1]); }
    }
  }

  lemma {:induction false} PairsIsWellPaired(us: seq<Unit>)
    ensures Pairs(us) <==> WellPaired(us)
    decreases |us|
  {
    hide High, Low;
    if us != [] {
      NotBoth(us[0]);
      if High(us[0]) {
        if |us| >= 2 && Low(us[1]) {
          NotBoth(us[1]);
          PairsIsWellPaired(us[2..]);
          if WellPaired(us) { WellPairedTail(us, 2); }
          if WellPaired(us[2..]) { PairedCons(us, 2); }
        }
      } else if !Low(us[0]) {
        PairsIsWellPaired(us[1..]);
        if WellPaired(us) { WellPairedTail(us, 1); }
        if WellPaired(us[1..]) { PairedCons(us, 1); }
      }
    }
  }

  lemma HexUnitAt(t: Bytes, u: Unit, rest: Bytes, start: nat)
    requires u.Hex? && ValidUnit(u) && start <= |t| && t[start..] == RenderUnit(u) + rest
    ensures |t| >= start + 6 && t[start] == BACKSLASH && t[start + 1] == LETTER_U
    ensures UnitAt(t, start + 2) == Some(CodeUnit(u.h0, u.h1, u.h2, u.h3)) && t[start + 6..] == rest
  {
    var r := RenderUnit(u) + rest;
    assert forall i | 0 <= i < 6 :: t[start + i] == t[start..][i] == r[i];
    assert r[6..] == rest;
    assert t[start..][6..] == t[start + 6..];
  }

  lemma PlainInside(u: Unit, rest: Bytes)
    requires ValidUnit(u) && !u.Hex?
    ensures ScanInside(RenderUnit(u) + rest) == ScanInside(rest)
  {
    var t := RenderUnit(u) + rest;
    assert u.Plain? ==> t[1..] == rest;
    assert u.Short? ==> t[2..] == rest && Drop(t, 2) == rest;
  }

  /** After a high surrogate the scan insists on a low one right behind it. */
  lemma HighInside(u: Unit, v: Unit, rest: Bytes)
    requires High(u) && ValidUnit(v)
    ensures ScanInside(RenderUnit(u) + (RenderUnit(v) + rest)) <==> Low(v) && ScanInside(rest)
  {
    var t := RenderUnit(u) + (RenderUnit(v) + rest);
    assert t[0..] == t;
    HexUnitAt(t, u, RenderUnit(v) + rest, 0);
    if v.Hex? {
      HexUnitAt(t, v, rest, 6);
    } else {
      assert RenderUnit(v)[0] == t[6];
      if v.Short? { assert RenderUnit(v)[1] == t[7]; }
    }
    hide CodeUnit, UnitAt, RenderUnit;
  }

  lemma HighAtEnd(u: Unit, rest: Bytes)
    requires High(u)
    ensures !ScanInside(RenderUnit(u) + ([QUOTE] + rest))
  {
    var t := RenderUnit(u) + ([QUOTE] + rest);
    assert t[0..] == t;
    HexUnitAt(t, u, [QUOTE] + rest, 0);
    assert t[6] == QUOTE;
    hide CodeUnit, UnitAt, RenderUnit;
  }

  lemma OtherInside(u: Unit, rest: Bytes)
    requires u.Hex? && ValidUnit(u) && !High(u)
    ensures ScanInside(RenderUnit(u) + rest) <==> !Low(u) && ScanInside(rest)
  {
    var t := RenderUnit(u) + rest;
    assert t[0..] == t;
    HexUnitAt(t, u, rest, 0);
    hide CodeUnit, UnitAt, RenderUnit;
  }

  lemma {:induction false} InsideExact(us: seq<Unit>, rest: Bytes)
    requires ValidUnits(us)
    ensures ScanInside(RenderUnits(us) + ([QUOTE] + rest)) <==> Pairs(us) && ScanOutside(rest)
    decreases |us|
  {
    hide High, Low, RenderUnit, ScanInside, ValidUnit;
    var tail := [QUOTE] + rest;
    if us == [] {
      assert RenderUnits(us) + tail == tail && tail[1..] == rest;
      QuoteCloses(tail);
    } else {
      var u := us[0];
      Regroup(RenderUnit(u), RenderUnits(us[1..]), tail);
      if !u.Hex? {
        PlainNeutral(u);
        PlainInside(u, RenderUnits(us[1..]) + tail);
        InsideExact(us[1..], rest);
      } else if !High(u) {
        OtherInside(u, RenderUnits(us[1..]) + tail);
        InsideExact(us[1..], rest);
      } else if |us| == 1 {
        assert RenderUnits(us[1..]) + tail == tail;
        HighAtEnd(u, rest);
      } else {
        var v := us[1];
        assert us[1..][0] == v && us[1..][1..] == us[2..];
        Regroup(RenderUnit(v), RenderUnits(us[2..]), tail);
        HighInside(u, v, RenderUnits(us[2..]) + tail);
        InsideExact(us[2..], rest);
      }
    }
  }

  lemma QuoteCloses(t: Bytes)
    requires t != [] && t[0] == QUOTE
    ensures ScanInside(t) == ScanOutside(t[1..])
  {
  }

  lemma PlainNeutral(u: Unit)
    requires !u.Hex?
    ensures !High(u) && !Low(u)
  {
  }

  lemma OutsideLiteral(units: seq<Unit>, rest: Bytes)
    requires ValidUnits(units)
    ensures ScanOutside(RenderChunk(Literal(units)) + rest) <==> WellPaired(units) && ScanOutside(rest)
  {
    hide WellPaired, ScanInside, Pairs, ValidUnits, RenderUnits;
    var t := RenderChunk(Literal(units)) + rest;
    InsideExact(units, rest);
    PairsIsWellPaired(units);
    assert t[1..] == RenderUnits(units) + ([QUOTE] + rest);
  }

  lemma OutsideByte(b: u8, rest: Bytes)
    requires b != QUOTE
    ensures ScanOutside([b] + rest) == ScanOutside(rest)
  {
    assert ([b] + rest)[1..] == rest;
  }

  lemma {:induction false} OutsideExact(cs: seq<Chunk>)
    requires ValidChunks(cs)
    ensures ScanOutside(Render(cs)) <==> AllPaired(cs)
    decreases |cs|
  {
    hide WellPaired, ScanOutside, ValidUnits, AllPaired, RenderUnits;
    PairedChunks(cs);
    if cs == [] {
      assert ScanOutside([]) by { NothingLeft(); }
    } else {
      assert ValidChunk(cs[0]);
      OutsideExact(cs[1..]);
      match cs[0]
      case Outside(b) => OutsideByte(b, Render(cs[1..]));
      case Literal(units) => OutsideLiteral(units, Render(cs[1..]));
    }
  }

  lemma NothingLeft()
    ensures ScanOutside([])
  {
  }

  lemma PairedChunks(cs: seq<Chunk>)
    ensures cs == [] ==> AllPaired(cs)
    ensures cs != [] ==> (AllPaired(cs) <==> (cs[0].Literal? ==> WellPaired(cs[0].units)) && AllPaired(cs[1..]))
  {
    hide WellPaired;
    if cs != [] {
      var rest := cs[1..];
      assert forall i | 0 <= i < |rest| :: cs[i + 1] == rest[i];
      if AllPaired(cs) {
        forall i | 0 <= i < |rest| && rest[i].Literal? ensures WellPaired(rest[i].units) { assert cs[i + 1].Literal?; }
      }
    }
  }

  // ---- the loops ----

  /** hexCodeUnit: shifting by four bits and adding a digit cannot leave sixteen bits. */
  method HexCodeUnit(input: Bytes, start: nat) returns (value: nat, ok: bool)
    ensures ok <==> UnitAt(input, start).Some?
    ensures ok ==> value == UnitAt(input, start).value && value < 0x1_0000
  {
    value, ok := 0, false;
    if start + 4 > |input| { return; }
    var four := input[start..start + 4];
    for k := 0 to 4
      invariant AllHex(four[..k]) && value == HexNumber(four[..k])
    {
      assert four[..k + 1][..k] == four[..k];
      var digit := HexDigitValue(four[k]);
      if digit.None? {
        NotAUnit(input, start, k);
        return;
      }
      value := value * 16 + digit.value;
    }
    assert four[..4] == four;
    FourDigits(four);
    IsAUnit(input, start);
    ok := true;
  }

  lemma NotAUnit(t: Bytes, start: nat, k: nat)
    requires start + 4 <= |t| && k < 4 && !IsHex(t[start..start + 4][k])
    ensures UnitAt(t, start).None?
  {
    assert k == 0 || k == 1 || k == 2 || k == 3;
  }

  lemma IsAUnit(t: Bytes, start: nat)
    requires start + 4 <= |t| && AllHex(t[start..start + 4])
    ensures var f := t[start..start + 4]; UnitAt(t, start) == Some(CodeUnit(f[0], f[1], f[2], f[3]))
  {
    hide HexDigitValue;
    var f := t[start..start + 4];
    assert IsHex(f[0]) && IsHex(f[1]) && IsHex(f[2]) && IsHex(f[3]);
  }

  predicate AllHex(t: Bytes) {
    forall i | 0 <= i < |t| :: IsHex(t[i])
  }

  function HexNumber(t: Bytes): nat
    requires AllHex(t)
  {
    if t == [] then 0 else
      assert IsHex(t[|t| - 1]);
      16 * HexNumber(t[..|t| - 1]) + HexDigitValue(t[|t| - 1]).value
  }

  lemma DigitsBelow(t: Bytes)
    requires AllHex(t)
    ensures forall i | 0 <= i < |t| :: HexDigitValue(t[i]).Some? && HexDigitValue(t[i]).value < 16
  {
  }

  lemma FourDigits(t: Bytes)
    requires |t| == 4 && AllHex(t)
    ensures HexNumber(t) == CodeUnit(t[0], t[1], t[2], t[3]) < 0x1_0000
  {
    assert forall i | 0 <= i < 4 :: HexDigitValue(t[i]).Some? && HexDigitValue(t[i]).value < 16 by { DigitsBelow(t); }
    hide HexDigitValue;
    assert t[..3][..2] == t[..2] && t[..2][..1] == t[..1] && t[..1][..0] == [];
    assert HexNumber(t[..1]) == HexDigitValue(t[0]).value;
    assert HexNumber(t[..2]) == 16 * HexNumber(t[..1]) + HexDigitValue(t[1]).value;
    assert HexNumber(t[..3]) == 16 * HexNumber(t[..2]) + HexDigitValue(t[2]).value;
  }

  /** One round of the scan inside a literal, at a byte that is not a quote. */
  lemma InsideRound(t: Bytes)
    requires t != [] && t[0] != QUOTE
    ensures t[0] != BACKSLASH ==> ScanInside(t) == ScanInside(t[1..])
    ensures t[0] == BACKSLASH && (|t| < 2 || t[1] != LETTER_U) ==> ScanInside(t) == ScanInside(Drop(t, 2))
    ensures t[0] == BACKSLASH && |t| >= 2 && t[1] == LETTER_U ==>
              var first := UnitAt(t, 2);
              if first.None? then !ScanInside(t)
              else if IsHigh(first.value) then
                ScanInside(t) == (|t| >= 12 && t[6] == BACKSLASH && t[7] == LETTER_U
                                  && UnitAt(t, 8).Some? && IsLow(UnitAt(t, 8).value) && ScanInside(t[12..]))
              else |t| >= 6 && ScanInside(t) == (!IsLow(first.value) && ScanInside(t[6..]))
  {
    hide CodeUnit;
  }

  lemma DropAt(input: Bytes, i: nat, n: nat)
    requires i < |input|
    ensures Drop(Drop(input, i), n) == Drop(input, i + n) && UnitAt(input, i + n) == UnitAt(Drop(input, i), n)
    ensures i + n <= |input| ==> Drop(input, i)[n..] == Drop(input, i + n)
    ensures |Drop(input, i)| == |input| - i && (i + n < |input| ==> Drop(input, i)[n] == input[i + n])
  {
    hide IsHex, CodeUnit;
  }

  /** The same round in terms of positions. */
  lemma InsideAt(input: Bytes, i: nat)
    requires i < |input| && input[i] != QUOTE
    ensures input[i] != BACKSLASH ==> ScanInside(Drop(input, i)) == ScanInside(Drop(input, i + 1))
    ensures input[i] == BACKSLASH && (i + 1 >= |input| || input[i + 1] != LETTER_U) ==>
              ScanInside(Drop(input, i)) == ScanInside(Drop(input, i + 2))
    ensures input[i] == BACKSLASH && i + 1 < |input| && input[i + 1] == LETTER_U ==>
              var first := UnitAt(input, i + 2);
              if first.None? then !ScanInside(Drop(input, i))
              else if IsHigh(first.value) then
                ScanInside(Drop(input, i)) ==
                (i + 12 <= |input| && input[i + 6] == BACKSLASH && input[i + 7] == LETTER_U
                 && UnitAt(input, i + 8).Some? && IsLow(UnitAt(input, i + 8).value) && ScanInside(Drop(input, i + 12)))
              else ScanInside(Drop(input, i)) == (!IsLow(first.value) && ScanInside(Drop(input, i + 6)))
  {
    var t := Drop(input, i);
    DropAt(input, i, 0);
    DropAt(input, i, 1);
    DropAt(input, i, 2);
    DropAt(input, i, 6);
    DropAt(input, i, 7);
    DropAt(input, i, 8);
    DropAt(input, i, 12);
    InsideRound(t);
    hide *;
  }

  lemma InsideEnds(input: Bytes, i: nat)
    ensures i >= |input| ==> ScanInside(Drop(input, i)) && ScanOutside(Drop(input, i))
    ensures i < |input| && input[i] == QUOTE ==> ScanInside(Drop(input, i)) == ScanOutside(Drop(input, i + 1))
  {
    if i < |input| && input[i] == QUOTE {
      DropAt(input, i, 0);
      DropAt(input, i, 1);
      QuoteCloses(Drop(input, i));
      hide *;
    }
  }

  method ValidateLiteral(input: Bytes, from: nat) returns (ok: bool, i: nat)
    requires from <= |input|
    ensures ok ==> i >= from && ScanInside(Drop(input, from)) == (i >= |input| || ScanOutside(Drop(input, i + 1)))
    ensures ok && i < |input| ==> input[i] == QUOTE
    ensures !ok ==> !ScanInside(Drop(input, from))
  {
    i := from;
    hide UnitAt, ScanInside, Drop, ScanOutside;
    while i < |input| && input[i] != QUOTE
      invariant i >= from
      invariant ScanInside(Drop(input, from)) == ScanInside(Drop(input, i))
      decreases |input| - i
    {
      InsideAt(input, i);
      if input[i] != BACKSLASH {
        i := i + 1;
        continue;
      }
      if i + 1 >= |input| || input[i + 1] != LETTER_U {
        i := i + 2;
        continue;
      }
      var first, found := HexCodeUnit(input, i + 2);
      if !found { return false, i; }
      if IsHigh(first) {
        if i + 12 > |input| || input[i + 6] != BACKSLASH || input[i + 7] != LETTER_U { return false, i; }
        var second, paired := HexCodeUnit(input, i + 8);
        if !paired || !IsLow(second) { return false, i; }
        i := i + 12;
      } else if IsLow(first) {
        return false, i;
      } else {
        i := i + 6;
      }
    }
    InsideEnds(input, i);
    ok := true;
  }

  lemma OutsideAt(input: Bytes, i: nat)
    requires i < |input|
    ensures ScanOutside(Drop(input, i)) == if input[i] == QUOTE then ScanInside(Drop(input, i + 1)) else ScanOutside(Drop(input, i + 1))
  {
    DropAt(input, i, 0);
    DropAt(input, i, 1);
    OutsideRound(Drop(input, i));
    hide *;
  }

  lemma OutsideRound(t: Bytes)
    requires t != []
    ensures ScanOutside(t) == if t[0] == QUOTE then ScanInside(t[1..]) else ScanOutside(t[1..])
  {
    hide ScanInside;
  }

  /** In bounds on every input; on every JSON text, accepts exactly when all literals are well paired. */
  method ValidateSurrogateEscapes(input: Bytes) returns (ok: bool)
    ensures ok <==> ScanOutside(input)
    ensures forall cs :: ValidChunks(cs) && input == Render(cs) ==> (ok <==> AllPaired(cs))
  {
    forall cs | ValidChunks(cs) && input == Render(cs) ensures ScanOutside(input) <==> AllPaired(cs) { OutsideExact(cs); }
    var i := 0;
    assert Drop(input, 0) == input;
    hide ScanInside, ScanOutside, Drop, Render, AllPaired, ValidChunks;
    while i < |input|
      invariant ScanOutside(input) == ScanOutside(Drop(input, i))
      decreases |input| - i
    {
      OutsideAt(input, i);
      if input[i] == QUOTE {
        var valid, end := ValidateLiteral(input, i + 1);
        if !valid { return false; }
        InsideEnds(input, end + 1);
        i := end;
      }
      i := i + 1;
    }
    InsideEnds(input, i);
    return true;
  }
}
