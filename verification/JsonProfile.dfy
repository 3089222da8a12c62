/** consumeValue of internal/codec/canonical.go: the recursive validator over decoder tokens. */
module JsonProfile {
  import opened Bytes
  import opened CanonicalJson
  import CanonicalProfile
  import opened Wrappers

  /** A JSON value as written: a number is kept as its text. */
  datatype Value =
    | Null
    | Bool(flag: bool)
    | Number(digits: Bytes)
    | Text(text: Bytes)
    | Array(items: seq<Value>)
    | Object(entries: seq<Entry>)

  datatype Entry = Entry(key: Bytes, value: Value)

  /** What the decoder yields; commas and colons are not tokens. */
  datatype Token = Scalar(value: Value) | OpenObject | CloseObject | OpenArray | CloseArray

  predicate IsScalar(v: Value) {
    !v.Array? && !v.Object?
  }

  function Tokens(v: Value): seq<Token>
    decreases v, 0
  {
    match v
    case Array(items) => [OpenArray] + ItemTokens(items) + [CloseArray]
    case Object(entries) => [OpenObject] + EntryTokens(entries) + [CloseObject]
    case _ => [Scalar(v)]
  }

  function ItemTokens(items: seq<Value>): seq<Token>
    decreases items, 1
  {
    if items == [] then [] else Tokens(items[0]) + ItemTokens(items[1..])
  }

  function EntryTokens(entries: seq<Entry>): seq<Token>
    decreases entries, 1
  {
    if entries == [] then []
    else [Scalar(Text(entries[0].key))] + Tokens(entries[0].value) + EntryTokens(entries[1..])
  }

  // ---- numbers ----

  predicate IsDigit(b: u8) {
    0x30 <= b <= 0x39
  }

  predicate AllDigits(t: Bytes) {
    forall i | 0 <= i < |t| :: IsDigit(t[i])
  }

  function DigitsValue(t: Bytes): nat
    requires AllDigits(t)
  {
    if t == [] then 0 else
      assert IsDigit(t[|t| - 1]);
      10 * DigitsValue(t[..|t| - 1]) + (t[|t| - 1] as int - 0x30)
  }

  function Int64(n: int): Option<int> {
    if -0x8000_0000_0000_0000 <= n <= 0x7fff_ffff_ffff_ffff then Some(n) else None
  }

  /** strconv.ParseInt(text, 10, 64), for texts without a plus sign. */
  function ParseInt(text: Bytes): Option<int> {
    var negative := text != [] && text[0] == 0x2d;
    var digits := if negative then text[1..] else text;
    if digits == [] || !AllDigits(digits) then None
    else Int64(if negative then -(DigitsValue(digits) as int) else DigitsValue(digits) as int)
  }

  /** validateSignedNumber. */
  predicate NumberOk(text: Bytes) {
    && 0x2e !in text && 0x65 !in text && 0x45 !in text
    && ParseInt(text).Some? && -(MAX_SAFE_INTEGER as int) <= ParseInt(text).value <= MAX_SAFE_INTEGER
  }

  lemma {:induction false} DigitsValueOfDigits(n: nat)
    ensures DigitsValue(Digits(n)) == n
  {
    if n >= 10 {
      var t := Digits(n);
      assert t[..|t| - 1] == Digits(n / 10);
      DigitsValueOfDigits(n / 10);
    } else {
      assert Digits(n)[..0] == [];
    }
  }

  lemma DecimalParts(n: int)
    ensures var d := Digits(if n < 0 then -n else n);
      var t := Decimal(n);
      && d != [] && AllDigits(d) && IsDigit(d[0])
      && if n < 0 then t != [] && t[0] == 0x2d && t[1..] == d else t == d
  {
    var d := Digits(if n < 0 then -n else n);
    assert forall i | 0 <= i < |d| :: IsDigit(d[i]);
  }

  lemma ParseIntOfDecimal(n: int)
    ensures ParseInt(Decimal(n)) == Int64(n)
  {
    var m: nat := if n < 0 then -n else n;
    DecimalParts(n);
    DigitsValueOfDigits(m);
    hide Digits, DigitsValue, Decimal, AllDigits, Int64;
  }

  lemma DecimalBytes(n: int, b: u8)
    requires b in Decimal(n)
    ensures b == 0x2d || IsDigit(b)
  {
    var d := Digits(if n < 0 then -n else n);
    assert forall i | 0 <= i < |d| :: IsDigit(d[i]);
  }

  lemma Int64OfSafe(n: int)
    ensures -(MAX_SAFE_INTEGER as int) <= n <= MAX_SAFE_INTEGER ==> Int64(n) == Some(n)
    ensures Int64(n).Some? ==> Int64(n).value == n
  {
  }

  /** A canonical integer passes exactly when it is in the exact range. */
  lemma DecimalNumberOk(n: int)
    ensures NumberOk(Decimal(n)) <==> -(MAX_SAFE_INTEGER as int) <= n <= MAX_SAFE_INTEGER
  {
    ParseIntOfDecimal(n);
    Int64OfSafe(n);
    hide ParseInt, Decimal, Int64;
    forall b | b in Decimal(n) ensures b == 0x2d || IsDigit(b) { DecimalBytes(n, b); }
  }

  // ---- the profile ----

  function Max(a: nat, b: nat): nat {
    if a < b then b else a
  }

  /** Containers on the longest path into the value. */
  function Depth(v: Value): nat
    decreases v, 0
  {
    match v
    case Array(items) => 1 + ItemDepth(items)
    case Object(entries) => 1 + EntryDepth(entries)
    case _ => 0
  }

  function ItemDepth(items: seq<Value>): nat
    decreases items, 1
  {
    if items == [] then 0 else Max(Depth(items[0]), ItemDepth(items[1..]))
  }

  function EntryDepth(entries: seq<Entry>): nat
    decreases entries, 1
  {
    if entries == [] then 0 else Max(Depth(entries[0].value), EntryDepth(entries[1..]))
  }

  /** No object at any level repeats a key, and every number is an exact integer. */
  predicate Tidy(v: Value) {
    match v
    case Number(digits) => NumberOk(digits)
    case Array(items) => forall i | 0 <= i < |items| :: Tidy(items[i])
    case Object(entries) =>
      && (forall i, j | 0 <= i < j < |entries| :: entries[i].key != entries[j].key)
      && (forall i | 0 <= i < |entries| :: Tidy(entries[i].value))
    case _ => true
  }

  // ---- the validator ----

  datatype Parsed<T> = Parsed(value: T, rest: seq<Token>)

  /** dec.More(). */
  predicate More(ts: seq<Token>) {
    ts != [] && !ts[0].CloseObject? && !ts[0].CloseArray?
  }

  function Consume(ts: seq<Token>, depth: nat): (r: Option<Parsed<Value>>)
    ensures r.Some? ==> |r.value.rest| < |ts|
    decreases |ts|, 1
  {
    if ts == [] then None
    else match ts[0]
      case Scalar(v) =>
        if !IsScalar(v) || (v.Number? && !NumberOk(v.digits)) then None else Some(Parsed(v, ts[1..]))
      case OpenObject =>
        if depth + 1 > CanonicalProfile.MAX_DEPTH then None
        else
          var body := ConsumeEntries(ts[1..], depth + 1, {});
          if body.None? then None else Some(Parsed(Object(body.value.value), body.value.rest))
      case OpenArray =>
        if depth + 1 > CanonicalProfile.MAX_DEPTH then None
        else
          var body := ConsumeItems(ts[1..], depth + 1);
          if body.None? then None else Some(Parsed(Array(body.value.value), body.value.rest))
      case _ => None
  }

  function ConsumeItems(ts: seq<Token>, depth: nat): (r: Option<Parsed<seq<Value>>>)
    ensures r.Some? ==> |r.value.rest| < |ts|
    decreases |ts|, 2
  {
    if !More(ts) then
      if ts != [] && ts[0].CloseArray? then Some(Parsed([], ts[1..])) else None
    else
      var first := Consume(ts, depth);
      if first.None? then None
      else
        var others := ConsumeItems(first.value.rest, depth);
        if others.None? then None else Some(Parsed([first.value.value] + others.value.value, others.value.rest))
  }

  function ConsumeEntries(ts: seq<Token>, depth: nat, seen: set<Bytes>): (r: Option<Parsed<seq<Entry>>>)
    ensures r.Some? ==> |r.value.rest| < |ts|
    decreases |ts|, 2
  {
    if !More(ts) then
      if ts != [] && ts[0].CloseObject? then Some(Parsed([], ts[1..])) else None
    else if !(ts[0].Scalar? && ts[0].value.Text?) || ts[0].value.text in seen then None
    else
      var first := Consume(ts[1..], depth);
      if first.None? then None
      else
        var others := ConsumeEntries(first.value.rest, depth, seen + {ts[0].value.text});
        if others.None? then None
        else Some(Parsed([Entry(ts[0].value.text, first.value.value)] + others.value.value, others.value.rest))
  }

  // ---- soundness: what is accepted is in the profile ----

  predicate FreshKeys(entries: seq<Entry>, seen: set<Bytes>) {
    && (forall i, j | 0 <= i < j < |entries| :: entries[i].key != entries[j].key)
    && (forall i | 0 <= i < |entries| :: entries[i].key !in seen)
  }

  predicate TidyItems(items: seq<Value>) {
    forall i | 0 <= i < |items| :: Tidy(items[i])
  }

  predicate TidyEntries(entries: seq<Entry>) {
    forall i | 0 <= i < |entries| :: Tidy(entries[i].value)
  }

  predicate Fits(depth: nat, inner: nat) {
    inner == 0 || depth + inner <= CanonicalProfile.MAX_DEPTH
  }

  lemma FreshCons(e: Entry, rest: seq<Entry>, seen: set<Bytes>)
    ensures FreshKeys([e] + rest, seen) <==> e.key !in seen && FreshKeys(rest, seen + {e.key})
  {
    var all := [e] + rest;
    assert all[0] == e && all[1..] == rest;
    if FreshKeys(all, seen) { FreshTail(all, seen); }
    if e.key !in seen && FreshKeys(rest, seen + {e.key}) { FreshHead(all, seen); }
    hide FreshKeys;
  }

  lemma FreshHead(all: seq<Entry>, seen: set<Bytes>)
    requires all != [] && all[0].key !in seen && FreshKeys(all[1..], seen + {all[0].key})
    ensures FreshKeys(all, seen)
  {
    var rest := all[1..];
    assert forall i | 0 < i < |all| :: all[i] == rest[i - 1];
    forall i, j | 0 <= i < j < |all| ensures all[i].key != all[j].key {
      assert all[j] == rest[j - 1];
    }
    forall i | 0 <= i < |all| ensures all[i].key !in seen {
      if i > 0 { assert rest[i - 1].key !in seen + {all[0].key}; }
    }
  }

  lemma FreshTail(all: seq<Entry>, seen: set<Bytes>)
    requires all != [] && FreshKeys(all, seen)
    ensures all[0].key !in seen && FreshKeys(all[1..], seen + {all[0].key})
  {
    var rest := all[1..];
    forall i, j | 0 <= i < j < |rest| ensures rest[i].key != rest[j].key {
      assert all[i + 1].key != all[j + 1].key;
    }
    forall i | 0 <= i < |rest| ensures rest[i].key !in seen + {all[0].key} {
      assert all[0].key != all[i + 1].key && all[i + 1].key !in seen;
    }
  }

  lemma TidyItemsCons(v: Value, rest: seq<Value>)
    ensures TidyItems([v] + rest) <==> Tidy(v) && TidyItems(rest)
  {
    var all := [v] + rest;
    assert all[0] == v && forall i | 0 <= i < |rest| :: all[i + 1] == rest[i];
    if TidyItems(all) {
      forall i | 0 <= i < |rest| ensures Tidy(rest[i]) { assert Tidy(all[i + 1]); }
    }
  }

  lemma TidyEntriesCons(e: Entry, rest: seq<Entry>)
    ensures TidyEntries([e] + rest) <==> Tidy(e.value) && TidyEntries(rest)
  {
    var all := [e] + rest;
    assert all[0] == e && forall i | 0 <= i < |rest| :: all[i + 1] == rest[i];
    if TidyEntries(all) {
      forall i | 0 <= i < |rest| ensures Tidy(rest[i].value) { assert Tidy(all[i + 1].value); }
    }
  }

  lemma TidyObject(entries: seq<Entry>)
    ensures Tidy(Object(entries)) <==> TidyEntries(entries) && FreshKeys(entries, {})
  {
  }

  lemma TidyArray(items: seq<Value>)
    ensures Tidy(Array(items)) <==> TidyItems(items)
  {
  }

  lemma {:induction false} ConsumeSound(ts: seq<Token>, depth: nat)
    ensures var r := Consume(ts, depth);
      r.Some? ==>
        ts == Tokens(r.value.value) + r.value.rest && Tidy(r.value.value) && Fits(depth, Depth(r.value.value))
    decreases |ts|, 1
  {
    hide NumberOk, ConsumeItems, ConsumeEntries, ItemTokens, EntryTokens, ItemDepth, EntryDepth, TidyItems, TidyEntries, FreshKeys;
    var r := Consume(ts, depth);
    if r.Some? {
      match ts[0]
      case Scalar(v) =>
        assert Tokens(v) == [ts[0]];
      case OpenObject =>
        EntriesSound(ts[1..], depth + 1, {});
        TidyObject(r.value.value.entries);
        hide Consume, Tidy;
        Wrapped(ts, EntryTokens(r.value.value.entries), CloseObject, r.value.rest);
      case OpenArray =>
        ItemsSound(ts[1..], depth + 1);
        TidyArray(r.value.value.items);
        hide Consume, Tidy;
        Wrapped(ts, ItemTokens(r.value.value.items), CloseArray, r.value.rest);
    }
  }

  lemma Wrapped(ts: seq<Token>, body: seq<Token>, close: Token, rest: seq<Token>)
    requires ts != [] && ts[1..] == body + [close] + rest
    ensures ts == [ts[0]] + body + [close] + rest
  {
    assert ts == [ts[0]] + ts[1..];
  }

  lemma {:induction false} ItemsSound(ts: seq<Token>, depth: nat)
    requires depth <= CanonicalProfile.MAX_DEPTH
    ensures var r := ConsumeItems(ts, depth);
      r.Some? ==>
        && ts == ItemTokens(r.value.value) + [CloseArray] + r.value.rest
        && TidyItems(r.value.value) && depth + ItemDepth(r.value.value) <= CanonicalProfile.MAX_DEPTH
    decreases |ts|, 2
  {
    hide NumberOk, Consume, Tidy;
    var r := ConsumeItems(ts, depth);
    if r.Some? {
      if !More(ts) {
        assert r.value.value == [];
      } else {
        ConsumeSound(ts, depth);
        var first := Consume(ts, depth).value;
        ItemsSound(first.rest, depth);
        var others := ConsumeItems(first.rest, depth).value;
        hide ConsumeItems;
        ItemsTokensCons(first.value, others.value);
        TidyItemsCons(first.value, others.value);
        var a, b, c := Tokens(first.value), ItemTokens(others.value), others.rest;
        assert a + (b + [CloseArray] + c) == (a + b) + [CloseArray] + c;
      }
    }
  }

  lemma ItemsTokensCons(v: Value, rest: seq<Value>)
    ensures ItemTokens([v] + rest) == Tokens(v) + ItemTokens(rest)
    ensures ItemDepth([v] + rest) == Max(Depth(v), ItemDepth(rest))
  {
    assert ([v] + rest)[1..] == rest;
  }

  lemma EntryTokensCons(e: Entry, rest: seq<Entry>)
    ensures EntryTokens([e] + rest) == [Scalar(Text(e.key))] + Tokens(e.value) + EntryTokens(rest)
    ensures EntryDepth([e] + rest) == Max(Depth(e.value), EntryDepth(rest))
  {
    assert ([e] + rest)[1..] == rest;
  }

  lemma {:induction false} EntriesSound(ts: seq<Token>, depth: nat, seen: set<Bytes>)
    requires depth <= CanonicalProfile.MAX_DEPTH
    ensures var r := ConsumeEntries(ts, depth, seen);
      r.Some? ==>
        && ts == EntryTokens(r.value.value) + [CloseObject] + r.value.rest
        && TidyEntries(r.value.value) && FreshKeys(r.value.value, seen) && depth + EntryDepth(r.value.value) <= CanonicalProfile.MAX_DEPTH
    decreases |ts|, 2
  {
    hide NumberOk, Consume, Tidy;
    var r := ConsumeEntries(ts, depth, seen);
    if r.Some? {
      if !More(ts) {
        assert r.value.value == [];
      } else {
        var key := ts[0].value.text;
        ConsumeSound(ts[1..], depth);
        var first := Consume(ts[1..], depth).value;
        EntriesSound(first.rest, depth, seen + {key});
        var others := ConsumeEntries(first.rest, depth, seen + {key}).value;
        hide ConsumeEntries;
        var e := Entry(key, first.value);
        EntryTokensCons(e, others.value);
        TidyEntriesCons(e, others.value);
        FreshCons(e, others.value, seen);
        hide FreshKeys, TidyEntries;
        var k, a, b, c := [ts[0]], Tokens(first.value), EntryTokens(others.value), others.rest;
        assert ts == k + ts[1..];
        assert k + (a + (b + [CloseObject] + c)) == (k + a + b) + [CloseObject] + c;
      }
    }
  }

  // ---- completeness: everything in the profile is accepted ----

  lemma TokensStart(v: Value)
    ensures Tokens(v) != [] && !Tokens(v)[0].CloseObject? && !Tokens(v)[0].CloseArray?
  {
  }

  lemma Unwrapped(open: Token, body: seq<Token>, close: Token, rest: seq<Token>)
    ensures var ts := [open] + body + [close] + rest; ts[0] == open && ts[1..] == body + [close] + rest
  {
  }

  lemma {:induction false} ConsumeComplete(v: Value, rest: seq<Token>, depth: nat)
    requires Tidy(v) && Fits(depth, Depth(v))
    ensures Consume(Tokens(v) + rest, depth) == Some(Parsed(v, rest))
    decreases v, 0
  {
    hide NumberOk, ConsumeItems, ConsumeEntries, ItemTokens, EntryTokens, ItemDepth, EntryDepth, TidyItems, TidyEntries, FreshKeys;
    var ts := Tokens(v) + rest;
    match v
    case Array(items) =>
      TidyArray(items);
      ItemsComplete(items, rest, depth + 1);
      Unwrapped(OpenArray, ItemTokens(items), CloseArray, rest);
    case Object(entries) =>
      TidyObject(entries);
      EntriesComplete(entries, rest, depth + 1, {});
      Unwrapped(OpenObject, EntryTokens(entries), CloseObject, rest);
    case _ =>
      assert ts[1..] == rest;
  }

  lemma {:induction false} ItemsComplete(items: seq<Value>, rest: seq<Token>, depth: nat)
    requires TidyItems(items) && depth + ItemDepth(items) <= CanonicalProfile.MAX_DEPTH
    ensures ConsumeItems(ItemTokens(items) + [CloseArray] + rest, depth) == Some(Parsed(items, rest))
    decreases items, 1
  {
    hide NumberOk, Consume, Tidy;
    var ts := ItemTokens(items) + [CloseArray] + rest;
    if items == [] {
      assert ts[1..] == rest;
    } else {
      var v, others := items[0], items[1..];
      assert items == [v] + others;
      ItemsTokensCons(v, others);
      TidyItemsCons(v, others);
      var tail := ItemTokens(others) + [CloseArray] + rest;
      assert ts == Tokens(v) + tail;
      TokensStart(v);
      assert More(ts);
      ConsumeComplete(v, tail, depth);
      ItemsComplete(others, rest, depth);
      hide Tokens, ItemTokens;
    }
  }

  lemma {:induction false} EntriesComplete(entries: seq<Entry>, rest: seq<Token>, depth: nat, seen: set<Bytes>)
    requires TidyEntries(entries) && FreshKeys(entries, seen) && depth + EntryDepth(entries) <= CanonicalProfile.MAX_DEPTH
    ensures ConsumeEntries(EntryTokens(entries) + [CloseObject] + rest, depth, seen) == Some(Parsed(entries, rest))
    decreases entries, 1
  {
    hide NumberOk, Consume, Tidy;
    var ts := EntryTokens(entries) + [CloseObject] + rest;
    if entries == [] {
      assert ts[1..] == rest;
    } else {
      var e, others := entries[0], entries[1..];
      assert entries == [e] + others;
      EntryTokensCons(e, others);
      TidyEntriesCons(e, others);
      FreshCons(e, others, seen);
      hide FreshKeys, TidyEntries;
      var tail := EntryTokens(others) + [CloseObject] + rest;
      assert ts == [Scalar(Text(e.key))] + (Tokens(e.value) + tail);
      assert ts[1..] == Tokens(e.value) + tail;
      ConsumeComplete(e.value, tail, depth);
      EntriesComplete(others, rest, depth, seen + {e.key});
      hide Tokens, EntryTokens;
    }
  }

  /** consumeValue accepts exactly the values of the profile and leaves exactly what follows them. */
  lemma ConsumeExact(ts: seq<Token>, v: Value, rest: seq<Token>)
    ensures Consume(ts, 0) == Some(Parsed(v, rest)) <==> ts == Tokens(v) + rest && Tidy(v) && Depth(v) <= CanonicalProfile.MAX_DEPTH
  {
    ConsumeSound(ts, 0);
    if ts == Tokens(v) + rest && Tidy(v) && Depth(v) <= CanonicalProfile.MAX_DEPTH { ConsumeComplete(v, rest, 0); }
    hide Consume, Tokens, Tidy, Depth;
  }

  /** Token streams of values in the profile are self-delimiting. */
  lemma TokensPrefixFree(v: Value, x: seq<Token>, w: Value, y: seq<Token>)
    requires Tokens(v) + x == Tokens(w) + y && Tidy(v) && Tidy(w) && Depth(v) <= CanonicalProfile.MAX_DEPTH && Depth(w) <= CanonicalProfile.MAX_DEPTH
    ensures v == w && x == y
  {
    ConsumeComplete(v, x, 0);
    ConsumeComplete(w, y, 0);
    hide Consume, Tokens, Tidy, Depth;
  }

  // ---- the loops ----

  function After<T>(done: seq<T>, r: Option<Parsed<seq<T>>>): Option<Parsed<seq<T>>> {
    if r.None? then None else Some(Parsed(done + r.value.value, r.value.rest))
  }

  lemma AfterNothing<T>(r: Option<Parsed<seq<T>>>)
    ensures After([], r) == r
  {
    if r.Some? { assert [] + r.value.value == r.value.value; }
  }

  method ConsumeValue(ts: seq<Token>, depth: nat) returns (r: Option<Parsed<Value>>)
    ensures r == Consume(ts, depth)
    decreases |ts|, 1
  {
    hide NumberOk;
    if ts == [] { return None; }
    match ts[0]
    case Scalar(v) =>
      if !IsScalar(v) || (v.Number? && !NumberOk(v.digits)) { return None; }
      return Some(Parsed(v, ts[1..]));
    case OpenObject =>
      if depth + 1 > CanonicalProfile.MAX_DEPTH { return None; }
      var body := ConsumeObject(ts[1..], depth + 1);
      return if body.None? then None else Some(Parsed(Object(body.value.value), body.value.rest));
    case OpenArray =>
      if depth + 1 > CanonicalProfile.MAX_DEPTH { return None; }
      var body := ConsumeArray(ts[1..], depth + 1);
      return if body.None? then None else Some(Parsed(Array(body.value.value), body.value.rest));
    case _ => return None;
  }

  method ConsumeArray(ts: seq<Token>, depth: nat) returns (r: Option<Parsed<seq<Value>>>)
    ensures r == ConsumeItems(ts, depth)
    decreases |ts|, 2
  {
    hide Consume;
    var items: seq<Value>, rest := [], ts;
    AfterNothing(ConsumeItems(ts, depth));
    while More(rest)
      invariant |rest| <= |ts|
      invariant ConsumeItems(ts, depth) == After(items, ConsumeItems(rest, depth))
      decreases |rest|
    {
      var first := ConsumeValue(rest, depth);
      if first.None? { return None; }
      ghost var others := ConsumeItems(first.value.rest, depth);
      assert others.Some? ==> items + ([first.value.value] + others.value.value) == items + [first.value.value] + others.value.value;
      items := items + [first.value.value];
      rest := first.value.rest;
    }
    if rest == [] || !rest[0].CloseArray? { return None; }
    assert items + [] == items;
    return Some(Parsed(items, rest[1..]));
  }

  method ConsumeObject(ts: seq<Token>, depth: nat) returns (r: Option<Parsed<seq<Entry>>>)
    ensures r == ConsumeEntries(ts, depth, {})
    decreases |ts|, 2
  {
    hide Consume;
    var keys: set<Bytes>, entries: seq<Entry>, rest := {}, [], ts;
    AfterNothing(ConsumeEntries(ts, depth, {}));
    while More(rest)
      invariant |rest| <= |ts|
      invariant ConsumeEntries(ts, depth, {}) == After(entries, ConsumeEntries(rest, depth, keys))
      decreases |rest|
    {
      if !(rest[0].Scalar? && rest[0].value.Text?) { return None; }
      var key := rest[0].value.text;
      if key in keys { return None; }
      var first := ConsumeValue(rest[1..], depth);
      if first.None? { return None; }
      var e := Entry(key, first.value.value);
      ghost var others := ConsumeEntries(first.value.rest, depth, keys + {key});
      assert others.Some? ==> entries + ([e] + others.value.value) == entries + [e] + others.value.value;
      keys := keys + {key};
      entries := entries + [e];
      rest := first.value.rest;
    }
    if rest == [] || !rest[0].CloseObject? { return None; }
    assert entries + [] == entries;
    return Some(Parsed(entries, rest[1..]));
  }

  /** validateJSON after tokenising: one value of the profile and nothing after it. */
  method ValidateTokens(ts: seq<Token>) returns (r: Option<Value>)
    ensures r.Some? ==> ts == Tokens(r.value) && Tidy(r.value) && Depth(r.value) <= CanonicalProfile.MAX_DEPTH
    ensures forall v :: ts == Tokens(v) && Tidy(v) && Depth(v) <= CanonicalProfile.MAX_DEPTH ==> r == Some(v)
  {
    hide Tokens, Tidy, Depth, Consume;
    var parsed := ConsumeValue(ts, 0);
    forall v | ts == Tokens(v) && Tidy(v) && Depth(v) <= CanonicalProfile.MAX_DEPTH ensures parsed == Some(Parsed(v, [])) {
      assert ts == Tokens(v) + [];
      ConsumeExact(ts, v, []);
    }
    if parsed.None? || parsed.value.rest != [] { return None; }
    ConsumeExact(ts, parsed.value.value, []);
    assert Tokens(parsed.value.value) + [] == Tokens(parsed.value.value);
    return Some(parsed.value.value);
  }
}
