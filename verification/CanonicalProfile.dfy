/** The canonical profile on values: depth, exact integers and key order. */
module CanonicalProfile {
  import opened Bytes
  import opened CanonicalJson
  import opened Wrappers

  const MAX_DEPTH: nat := 32
  const MAX_CANONICAL_BYTES: nat := 0x40_0000
  const MAX_SIGNED_BYTES: nat := 0x10_0000

  /** UTF-16 order on UTF-8 bytes: the lead bytes of U+E000 to U+FFFF come after those of the
      supplementary planes, as section 3.2.3 of RFC 8785 asks. */
  function Rank(b: u8): int {
    if b == 0xee || b == 0xef then b as int + 0x10 else b as int
  }

  predicate KeyLess(a: Bytes, b: Bytes) {
    b != [] && (a == [] || Rank(a[0]) < Rank(b[0]) || (a[0] == b[0] && KeyLess(a[1..], b[1..])))
  }

  /** Within the depth limit, exact integers only, and member keys in strictly increasing order. */
  predicate Canonical(v: Json, depth: nat) {
    match v
    case Num(n) => -(MAX_SAFE_INTEGER as int) <= n <= MAX_SAFE_INTEGER
    case Arr(items) => depth < MAX_DEPTH && forall i | 0 <= i < |items| :: Canonical(items[i], depth + 1)
    case Obj(members) =>
      && depth < MAX_DEPTH
      && (forall i | 0 < i < |members| :: KeyLess(members[i - 1].key, members[i].key))
      && (forall i | 0 <= i < |members| :: Canonical(members[i].value, depth + 1))
    case _ => true
  }

  function Find(members: seq<Member>, key: Bytes): (r: Option<Json>)
    ensures r.Some? ==> exists i :: 0 <= i < |members| && members[i] == Member(key, r.value)
  {
    if members == [] then None else if members[0].key == key then Some(members[0].value) else Find(members[1..], key)
  }

  /** What validateCanonicalObject accepts: the canonical text of an object within the size limit. */
  ghost predicate IsCanonicalObject(text: Bytes) {
    |text| <= MAX_SIGNED_BYTES && exists members :: text == Print(Obj(members)) && Canonical(Obj(members), 0)
  }
}
