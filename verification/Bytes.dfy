/** Byte strings, 32-byte digests and the fixed-width integer framing used by every commitment. */
module Bytes {

  newtype u8 = x: int | 0 <= x < 256

  type Bytes = seq<u8>

  type Digest = d: Bytes | |d| == 32 witness [0, 0, 0, 0, 0, 0, 0, 0, 0, 0, 0, 0, 0, 0, 0, 0, 0, 0, 0, 0, 0, 0, 0, 0, 0, 0, 0, 0, 0, 0, 0, 0]

  /** SHA-256 is an arbitrary function here: no lemma assumes that it is injective. */
  type Hash = Bytes -> Digest

  const ZERO_DIGEST: Digest :=
    [0, 0, 0, 0, 0, 0, 0, 0, 0, 0, 0, 0, 0, 0, 0, 0, 0, 0, 0, 0, 0, 0, 0, 0, 0, 0, 0, 0, 0, 0, 0, 0]

  const MAX_SAFE_INTEGER: nat := 0x1F_FFFF_FFFF_FFFF

  const TWO_TO_64: nat := 0x1_0000_0000_0000_0000

  /** Two different strings, one hashed by each computation, with equal hashes. A bare
      "there is a collision" would say nothing: every function onto 32 bytes has one. */
  ghost predicate CollisionBetween(H: Hash, p: set<Bytes>, q: set<Bytes>) {
    exists x, y :: x in p && y in q && x != y && H(x) == H(y)
  }

  function BigEndian(n: nat, width: nat): (r: Bytes)
    ensures |r| == width
  {
    if width == 0 then [] else BigEndian(n / 256, width - 1) + [(n % 256) as u8]
  }

  predicate Fits(n: nat, width: nat) {
    if width == 0 then n == 0 else Fits(n / 256, width - 1)
  }

  function Uint64(n: nat): (r: Bytes)
    ensures |r| == 8
  {
    BigEndian(n, 8)
  }

  lemma {:induction false} BigEndianInjective(a: nat, b: nat, width: nat)
    requires Fits(a, width) && Fits(b, width)
    requires BigEndian(a, width) == BigEndian(b, width)
    ensures a == b
  {
    if width != 0 {
      var p, q := BigEndian(a / 256, width - 1), BigEndian(b / 256, width - 1);
      var x, y := (a % 256) as u8, (b % 256) as u8;
      assert (p + [x])[..width - 1] == p && (q + [y])[..width - 1] == q;
      assert (p + [x])[width - 1] == x && (q + [y])[width - 1] == y;
      BigEndianInjective(a / 256, b / 256, width - 1);
    }
  }

  lemma FitsEightBytes(n: nat)
    requires n < TWO_TO_64
    ensures Fits(n, 8)
  {
    var n1 := n / 256; var n2 := n1 / 256; var n3 := n2 / 256; var n4 := n3 / 256;
    var n5 := n4 / 256; var n6 := n5 / 256; var n7 := n6 / 256;
    assert n7 < 256;
    assert Fits(n7, 1);
    assert Fits(n6, 2);
    assert Fits(n5, 3);
    assert Fits(n4, 4);
    assert Fits(n3, 5);
    assert Fits(n2, 6);
    assert Fits(n1, 7);
  }

  /** The framing of integers is exact on the whole uint64 range. */
  lemma Uint64Injective(a: nat, b: nat)
    requires a < TWO_TO_64 && b < TWO_TO_64 && Uint64(a) == Uint64(b)
    ensures a == b
  {
    FitsEightBytes(a);
    FitsEightBytes(b);
    BigEndianInjective(a, b, 8);
  }

  lemma {:induction false} LeadingByte(n: nat, width: nat)
    requires width > 0 && Fits(n, width - 1)
    ensures BigEndian(n, width)[0] == 0
  {
    if width > 1 {
      LeadingByte(n / 256, width - 1);
    }
  }

  /** An exact integer is below 2^56, so its most significant byte is zero. */
  lemma SafeIntegerLeadsWithZero(n: nat)
    requires n <= MAX_SAFE_INTEGER
    ensures Uint64(n)[0] == 0
  {
    var n1 := n / 256; var n2 := n1 / 256; var n3 := n2 / 256;
    var n4 := n3 / 256; var n5 := n4 / 256; var n6 := n5 / 256;
    assert n6 < 256;
    assert Fits(n6, 1);
    assert Fits(n5, 2);
    assert Fits(n4, 3);
    assert Fits(n3, 4);
    assert Fits(n2, 5);
    assert Fits(n1, 6);
    assert Fits(n, 7);
    LeadingByte(n, 8);
  }

  /** Cancelling a field of known length at the front of two equal strings. */
  lemma SplitEqual(a: Bytes, x: Bytes, b: Bytes, y: Bytes)
    requires |a| == |b| && a + x == b + y
    ensures a == b && x == y
  {
    assert a == (a + x)[..|a|] && b == (b + y)[..|b|];
    assert x == (a + x)[|a|..] && y == (b + y)[|b|..];
  }

  lemma Regroup(a: Bytes, b: Bytes, d: Bytes)
    ensures a + (b + d) == a + b + d
  {
  }

  /** bytes.Compare(a, b) < 0. */
  predicate Less(a: Bytes, b: Bytes) {
    b != [] && (a == [] || a[0] < b[0] || (a[0] == b[0] && Less(a[1..], b[1..])))
  }

  lemma {:induction false} LessTransitive(a: Bytes, b: Bytes, c: Bytes)
    requires Less(a, b) && Less(b, c)
    ensures Less(a, c)
  {
    if a != [] && a[0] == b[0] && b[0] == c[0] {
      LessTransitive(a[1..], b[1..], c[1..]);
    }
  }

  lemma {:induction false} LessTrichotomy(a: Bytes, b: Bytes)
    ensures !(Less(a, b) && Less(b, a))
    ensures Less(a, b) || Less(b, a) || a == b
    ensures !Less(a, a)
  {
    if a != [] {
      LessTrichotomy(a[1..], a[1..]);
      if b != [] {
        LessTrichotomy(a[1..], b[1..]);
        if a[1..] == b[1..] && a[0] == b[0] {
          assert a == [a[0]] + a[1..] && b == [b[0]] + b[1..];
        }
      }
    }
  }

  function Ascii(text: string): (r: Bytes)
    ensures |r| == |text|
  {
    seq(|text|, i requires 0 <= i < |text| => (text[i] as int % 256) as u8)
  }

  function Flatten(parts: seq<Bytes>): Bytes {
    if parts == [] then [] else parts[0] + Flatten(parts[1..])
  }
}
