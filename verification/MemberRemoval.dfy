/** RemoveCanonicalObjectMember and the scanning loops it runs (internal/codec/object.go). */
module MemberRemoval {
  import opened Bytes
  import opened CanonicalJson
  import opened Wrappers
  import opened ObjectScanner
  import opened ObjectMembers

  function StringEnd(input: Bytes, start: nat): (r: Option<nat>)
    ensures r.Some? ==> start + 2 <= r.value <= |input|
  {
    if start >= |input| || input[start] != QUOTE then None
    else Plus(start + 1, StringSpan(input[start + 1..], false))
  }

  function ValueEnd(input: Bytes, start: nat): (r: Option<nat>)
    ensures r.Some? ==> start < r.value <= |input|
  {
    if start >= |input| then None else Plus(start, ValueSpan(input[start..]))
  }

  method ScanString(input: Bytes, start: nat) returns (end: Option<nat>)
    ensures end == StringEnd(input, start)
  {
    if start >= |input| || input[start] != QUOTE { return None; }
    var escaped := false;
    var index := start + 1;
    while index < |input|
      invariant start < index <= |input|
      invariant StringEnd(input, start) == Plus(index, StringSpan(input[index..], escaped))
    {
      assert input[index..][1..] == input[index + 1..];
      if escaped {
        escaped := false;
      } else if input[index] == BACKSLASH {
        escaped := true;
      } else if input[index] == QUOTE {
        return Some(index + 1);
      }
      index := index + 1;
    }
    return None;
  }

  method ScanContainer(input: Bytes, start: nat) returns (end: Option<nat>)
    requires start < |input| && Opens(input[start])
    ensures end == ValueEnd(input, start)
  {
    var depth, inString, escaped := 0, false, false;
    var index := start;
    ghost var whole := ValueEnd(input, start);
    assert whole == Plus(start, ContainerSpan(input[start..], 0, false, false));
    hide ValueEnd, ContainerSpan;
    while index < |input|
      invariant start <= index <= |input|
      invariant if index == start then depth == 0 && !inString else depth >= 1
      invariant !inString ==> !escaped
      invariant whole == Plus(index, ContainerSpan(input[index..], depth, inString, escaped))
    {
      var character := input[index];
      assert input[index..][0] == character && input[index..][1..] == input[index + 1..];
      ContainerByte(input[index..], depth, inString, escaped);
      if inString {
        if escaped {
          escaped := false;
        } else if character == BACKSLASH {
          escaped := true;
        } else if character == QUOTE {
          inString := false;
        }
      } else if character == QUOTE {
        inString := true;
      } else if Opens(character) {
        depth := depth + 1;
      } else if Closes(character) {
        depth := depth - 1;
        if depth == 0 { return Some(index + 1); }
      }
      index := index + 1;
    }
    ContainerEnds(depth, inString, escaped);
    return None;
  }

  lemma ContainerEnds(depth: int, inString: bool, escaped: bool)
    ensures ContainerSpan([], depth, inString, escaped).None?
  {
  }

  method ScanScalar(input: Bytes, start: nat) returns (end: Option<nat>)
    requires start < |input| && input[start] != QUOTE && !Opens(input[start])
    ensures end == ValueEnd(input, start)
  {
    hide ContainerSpan, StringSpan;
    var index := start;
    while index < |input|
      invariant start <= index <= |input|
      invariant Plus(start, ScalarSpan(input[start..])) == Plus(index, ScalarSpan(input[index..]))
      invariant index > start ==> !IsDelimiter(input[start])
    {
      if IsDelimiter(input[index]) {
        if index == start { return None; }
        return Some(index);
      }
      assert input[index..][1..] == input[index + 1..];
      index := index + 1;
    }
    return None;
  }

  method ScanValue(input: Bytes, start: nat) returns (end: Option<nat>)
    ensures end == ValueEnd(input, start)
  {
    hide ContainerSpan, StringSpan, ScalarSpan;
    if start >= |input| { return None; }
    if input[start] == QUOTE {
      assert input[start..][1..] == input[start + 1..];
      end := ScanString(input, start);
    } else if Opens(input[start]) {
      end := ScanContainer(input, start);
    } else {
      end := ScanScalar(input, start);
    }
  }

  // ---- the member list ----

  datatype Span = Span(key: Bytes, start: nat, end: nat, valueStart: nat)

  /** `OutOfRange` is the index panic that the scan reaches on some texts that no
      canonicality check lets through, such as an object cut before its last brace. */
  datatype Scan = Spans(members: seq<Span>) | Malformed | OutOfRange

  function WithFirst(first: Span, rest: Scan): Scan {
    if rest.Spans? then Spans([first] + rest.members) else rest
  }

  /** One member: a string literal, a colon and a value. */
  function ReadMember(input: Bytes, index: nat): (r: Option<Span>)
    ensures r.Some? ==> index < r.value.end <= |input|
  {
    var keyEnd := StringEnd(input, index);
    if keyEnd.None? then None
    else
      var key := Unescape(input[index + 1..keyEnd.value - 1]);
      if key.None? || keyEnd.value >= |input| || input[keyEnd.value] != COLON then None
      else
        var end := ValueEnd(input, keyEnd.value + 1);
        if end.None? then None else Some(Span(key.value, index, end.value, keyEnd.value + 1))
  }

  method ScanMember(input: Bytes, index: nat) returns (r: Option<Span>)
    ensures r == ReadMember(input, index)
  {
    hide StringEnd, ValueEnd, Unescape;
    var keyEnd := ScanString(input, index);
    if keyEnd.None? { return None; }
    var key := Unescape(input[index + 1..keyEnd.value - 1]);
    if key.None? || keyEnd.value >= |input| || input[keyEnd.value] != COLON { return None; }
    var end := ScanValue(input, keyEnd.value + 1);
    if end.None? { return None; }
    return Some(Span(key.value, index, end.value, keyEnd.value + 1));
  }

  function ScanFrom(input: Bytes, index: nat): Scan
    decreases |input| - index
  {
    if index + 1 >= |input| then Malformed
    else
      var span := ReadMember(input, index);
      if span.None? then Malformed
      else if span.value.end >= |input| then OutOfRange
      else if input[span.value.end] == COMMA then WithFirst(span.value, ScanFrom(input, span.value.end + 1))
      else if input[span.value.end] == CLOSE_BRACE && span.value.end == |input| - 1 then Spans([span.value])
      else Malformed
  }

  function ScanObject(input: Bytes): Scan {
    if |input| < 2 || input[0] != OPEN_BRACE || input[|input| - 1] != CLOSE_BRACE then Malformed
    else if |input| == 2 then Spans([])
    else ScanFrom(input, 1)
  }

  /** The scanning loop computes exactly ScanObject, on every byte string. */
  method ScanObjectMembers(input: Bytes) returns (r: Scan)
    ensures r == ScanObject(input)
  {
    if |input| < 2 || input[0] != OPEN_BRACE || input[|input| - 1] != CLOSE_BRACE { return Malformed; }
    if |input| == 2 { return Spans([]); }
    var members: seq<Span> := [];
    var index := 1;
    assert ScanFrom(input, 1) == Prefixed(members, ScanFrom(input, index));
    while index < |input| - 1
      invariant 1 <= index <= |input|
      invariant ScanObject(input) == Prefixed(members, ScanFrom(input, index))
    {
      hide ReadMember, ScanObject;
      var span := ScanMember(input, index);
      if span.None? { return Malformed; }
      var end := span.value.end;
      if end >= |input| { return OutOfRange; }
      if input[end] == COMMA {
        assert ScanFrom(input, index) == WithFirst(span.value, ScanFrom(input, end + 1));
        hide *;
        PrefixedStep(members, span.value, ScanFrom(input, end + 1));
        members := members + [span.value];
        index := end + 1;
      } else if input[end] == CLOSE_BRACE && end == |input| - 1 {
        return Spans(members + [span.value]);
      } else {
        return Malformed;
      }
    }
    return Malformed;
  }

  function Prefixed(members: seq<Span>, rest: Scan): Scan {
    if rest.Spans? then Spans(members + rest.members) else rest
  }

  lemma PrefixedStep(members: seq<Span>, span: Span, rest: Scan)
    ensures Prefixed(members, WithFirst(span, rest)) == Prefixed(members + [span], rest)
  {
    if rest.Spans? {
      assert members + ([span] + rest.members) == members + [span] + rest.members;
    }
  }

  /** The grammar's own spans: where each printed member lies in the printed object. */
  function SpansOf(members: seq<Member>, at: nat): (r: seq<Span>)
    ensures |r| == |members|
  {
    if members == [] then []
    else
      var end := at + |PrintMember(members[0])|;
      [Span(members[0].key, at, end, at + |Quoted(members[0].key)| + 1)] + SpansOf(members[1..], end + 1)
  }

  lemma Cut(s: Bytes, i: nat, p: Bytes, rest: Bytes)
    requires i <= |s| && s[i..] == p + rest
    ensures i + |p| <= |s| && s[i..i + |p|] == p && s[i + |p|..] == rest
  {
    assert s[i..i + |p|] == s[i..][..|p|];
    assert s[i + |p|..] == s[i..][|p|..];
  }

  lemma LiteralParts(e: Bytes, rest: Bytes)
    ensures [QUOTE] + e + [QUOTE] + rest == [QUOTE] + (e + [QUOTE] + rest)
    ensures e + [QUOTE] + rest == e + ([QUOTE] + rest)
  {
  }

  lemma KeyEnds(input: Bytes, index: nat, key: Bytes, rest: Bytes)
    requires index < |input| && input[index..] == Quoted(key) + rest
    ensures StringEnd(input, index) == Some(index + |Quoted(key)|)
  {
    assert input[index] == QUOTE && input[index + 1..] == Escape(key) + [QUOTE] + rest by {
      LiteralParts(Escape(key), rest);
      Cut(input, index, [QUOTE], Escape(key) + [QUOTE] + rest);
    }
    StringContent(key, rest, 0);
  }

  lemma KeyDecodes(input: Bytes, index: nat, key: Bytes, rest: Bytes)
    requires index < |input| && input[index..] == Quoted(key) + rest
    ensures index + |Quoted(key)| <= |input|
    ensures Unescape(input[index + 1..index + |Quoted(key)| - 1]) == Some(key)
  {
    Cut(input, index, Quoted(key), rest);
    assert input[index + 1..index + |Quoted(key)| - 1] == Escape(key) by {
      var e := Escape(key);
      LiteralParts(e, rest);
      Cut(input, index, [QUOTE], e + [QUOTE] + rest);
      Cut(input, index + 1, e, [QUOTE] + rest);
    }
    UnescapeEscape(key);
  }

  lemma ValueEnds(input: Bytes, start: nat, v: Json, rest: Bytes)
    requires start < |input| && input[start..] == Print(v) + rest && StartsWithDelimiter(rest)
    ensures ValueEnd(input, start) == Some(start + |Print(v)|)
  {
    ValueSpanOfPrint(v, rest);
  }

  lemma MemberParts(input: Bytes, index: nat, q: Bytes, p: Bytes, rest: Bytes)
    requires index < |input| && input[index..] == q + [COLON] + p + rest
    ensures input[index..] == q + ([COLON] + (p + rest))
    ensures index + |q| < |input| && input[index + |q|] == COLON
    ensures input[index + |q| + 1..] == p + rest
  {
    AroundColon(q, p, rest);
    Cut(input, index, q, [COLON] + (p + rest));
    Cut(input, index + |q|, [COLON], p + rest);
  }

  lemma MemberScan(input: Bytes, index: nat, m: Member, rest: Bytes)
    requires index < |input| && input[index..] == PrintMember(m) + rest
    requires StartsWithDelimiter(rest)
    ensures ReadMember(input, index)
         == Some(Span(m.key, index, index + |PrintMember(m)|, index + |Quoted(m.key)| + 1))
  {
    hide StringEnd, ValueEnd, Unescape, Escape, Print;
    var q, p := Quoted(m.key), Print(m.value);
    MemberParts(input, index, q, p, rest);
    KeyEnds(input, index, m.key, [COLON] + (p + rest));
    KeyDecodes(input, index, m.key, [COLON] + (p + rest));
    ValueEnds(input, index + |q| + 1, m.value, rest);
  }

  lemma AfterFirstPiece(input: Bytes, index: nat, pieces: seq<Bytes>, close: u8)
    requires pieces != [] && index < |input| && input[index..] == Join(pieces) + [close]
    ensures var end := index + |pieces[0]|;
            && input[index..] == pieces[0] + Tail(pieces[1..], close)
            && end < |input|
            && if |pieces| == 1 then input[end] == close && end == |input| - 1
               else input[end] == COMMA && input[end + 1..] == Join(pieces[1..]) + [close]
  {
    var end := index + |pieces[0]|;
    var rest := Tail(pieces[1..], close);
    JoinHead(pieces, close);
    Cut(input, index, pieces[0], rest);
    assert input[end] == rest[0];
    if |pieces| > 1 {
      assert rest == [COMMA] + (Join(pieces[1..]) + [close]);
      Cut(input, end, [COMMA], Join(pieces[1..]) + [close]);
    }
  }

  /** One round of the scan that met a member. */
  lemma ScanRound(input: Bytes, index: nat, span: Span)
    requires index + 1 < |input| && ReadMember(input, index) == Some(span) && span.end < |input|
    ensures input[span.end] == COMMA ==> ScanFrom(input, index) == WithFirst(span, ScanFrom(input, span.end + 1))
    ensures input[span.end] == CLOSE_BRACE && span.end == |input| - 1 ==> ScanFrom(input, index) == Spans([span])
  {
    hide ReadMember;
  }

  lemma SpansFirst(members: seq<Member>, at: nat)
    requires members != []
    ensures var end := at + |PrintMember(members[0])|;
      SpansOf(members, at) == [Span(members[0].key, at, end, at + |Quoted(members[0].key)| + 1)] + SpansOf(members[1..], end + 1)
  {
    hide PrintMember, Quoted;
  }

  lemma {:induction false} ScanFromPrinted(input: Bytes, index: nat, members: seq<Member>)
    requires members != [] && index < |input|
    requires input[index..] == Join(MemberPieces(members)) + [CLOSE_BRACE]
    ensures ScanFrom(input, index) == Spans(SpansOf(members, index))
    decreases members
  {
    hide ReadMember, ScanFrom, SpansOf, Join, Tail, Print, PrintMember, Quoted, MemberPieces;
    var pieces := MemberPieces(members);
    AfterFirstPiece(input, index, pieces, CLOSE_BRACE);
    MemberScan(input, index, members[0], Tail(pieces[1..], CLOSE_BRACE));
    var end := index + |PrintMember(members[0])|;
    ScanRound(input, index, ReadMember(input, index).value);
    SpansFirst(members, index);
    if |members| == 1 {
      NoSpans(members[1..], end + 1);
    } else {
      assert pieces[1..] == MemberPieces(members[1..]);
      ScanFromPrinted(input, end + 1, members[1..]);
    }
  }

  lemma NoSpans(members: seq<Member>, at: nat)
    requires members == []
    ensures SpansOf(members, at) == []
  {
  }

  /** On every compact object the scan stays in range and finds exactly the grammar's spans. */
  lemma ScanFindsGrammarSpans(members: seq<Member>)
    ensures ScanObject(Print(Obj(members))) == Spans(SpansOf(members, 1))
  {
    var input := Print(Obj(members));
    ObjectBody(members);
    if members != [] {
      assert MemberPieces(members)[0] != [];
      JoinHead(MemberPieces(members), CLOSE_BRACE);
      ScanFromPrinted(input, 1, members);
    }
  }

  /** Without the canonicality check the same scan can run off the end. */
  lemma UncheckedScanRunsOffTheEnd()
    ensures exists input :: ScanObject(input) == OutOfRange
  {
    var input: Bytes := [OPEN_BRACE, QUOTE, 0x61, QUOTE, COLON, OPEN_BRACE, CLOSE_BRACE];
    assert input[2..][1..] == input[3..];
    assert StringSpan(input[3..], false) == Some(1);
    assert StringEnd(input, 1) == Some(4);
    assert input[2..3] == [0x61];
    assert Unescape([]) == Some([]);
    assert Unescape(input[2..3]).Some? by { assert input[2..3][1..] == []; }
    assert input[5..][1..] == input[6..];
    assert ContainerSpan(input[6..], 1, false, false) == Some(1);
    assert ValueEnd(input, 5) == Some(7);
    assert ScanObject(input) == OutOfRange;
  }

  // ---- removal ----

  function Without(members: seq<Member>, key: Bytes): seq<Member> {
    if members == [] then []
    else (if members[0].key == key then [] else [members[0]]) + Without(members[1..], key)
  }

  lemma {:induction false} WithoutSnoc(members: seq<Member>, m: Member, key: Bytes)
    ensures Without(members + [m], key) == Without(members, key) + (if m.key == key then [] else [m])
  {
    if members != [] {
      WithoutSnoc(members[1..], m, key);
      assert (members + [m])[1..] == members[1..] + [m];
    }
  }

  lemma {:induction false} JoinSnoc(pieces: seq<Bytes>, p: Bytes)
    ensures Join(pieces + [p]) == if pieces == [] then p else Join(pieces) + [COMMA] + p
  {
    if |pieces| == 1 {
      assert (pieces + [p])[1..] == [p];
    } else if |pieces| > 1 {
      JoinSnoc(pieces[1..], p);
      assert (pieces + [p])[1..] == pieces[1..] + [p];
      assert pieces[0] + [COMMA] + (Join(pieces[1..]) + [COMMA] + p) == pieces[0] + [COMMA] + Join(pieces[1..]) + [COMMA] + p;
    }
  }

  lemma MemberPiecesSnoc(members: seq<Member>, m: Member)
    ensures MemberPieces(members + [m]) == MemberPieces(members) + [PrintMember(m)]
  {
  }

  lemma MemberTexts(input: Bytes, at: nat, m: Member, rest: Bytes)
    requires at < |input| && input[at..] == PrintMember(m) + rest
    ensures var valueStart, end := at + |Quoted(m.key)| + 1, at + |PrintMember(m)|;
            && at <= valueStart <= end <= |input|
            && input[at..end] == PrintMember(m)
            && input[valueStart..end] == Print(m.value)
  {
    hide Print, Quoted;
    Cut(input, at, PrintMember(m), rest);
    MemberParts(input, at, Quoted(m.key), Print(m.value), rest);
    Cut(input, at + |Quoted(m.key)| + 1, Print(m.value), rest);
  }

  /** The text that each span of the grammar selects. */
  lemma {:induction false} SpanTexts(input: Bytes, at: nat, members: seq<Member>, i: nat)
    requires i < |members| && at < |input|
    requires input[at..] == Join(MemberPieces(members)) + [CLOSE_BRACE]
    ensures var s := SpansOf(members, at)[i];
            && s.key == members[i].key
            && s.start <= s.valueStart <= s.end <= |input|
            && input[s.start..s.end] == PrintMember(members[i])
            && input[s.valueStart..s.end] == Print(members[i].value)
    decreases members
  {
    hide Join, Tail, Print, Quoted, PrintMember, MemberPieces;
    var pieces := MemberPieces(members);
    AfterFirstPiece(input, at, pieces, CLOSE_BRACE);
    if i == 0 {
      MemberTexts(input, at, members[0], Tail(pieces[1..], CLOSE_BRACE));
    } else {
      assert pieces[1..] == MemberPieces(members[1..]);
      SpanTexts(input, at + |pieces[0]| + 1, members[1..], i - 1);
    }
  }

  datatype Removal =
    | Removed(unsigned: Bytes, value: Bytes)
    | InvalidTarget
    | NotCanonical
    | Absent

  /** What the copying loop has written after the first `k` members. */
  ghost function Written(members: seq<Member>, k: nat, target: Bytes): Bytes
    requires k <= |members|
  {
    Join(MemberPieces(Without(members[..k], target)))
  }

  ghost predicate WroteAny(members: seq<Member>, k: nat, target: Bytes)
    requires k <= |members|
  {
    Without(members[..k], target) != []
  }

  lemma WrittenNothing(members: seq<Member>, target: Bytes)
    ensures Written(members, 0, target) == [] && !WroteAny(members, 0, target)
  {
  }

  lemma WrittenAll(members: seq<Member>, target: Bytes)
    ensures Written(members, |members|, target) == Join(MemberPieces(Without(members, target)))
  {
    assert members[..|members|] == members;
  }

  lemma WrittenStep(members: seq<Member>, k: nat, target: Bytes)
    requires k < |members|
    ensures members[k].key == target ==>
              && Written(members, k + 1, target) == Written(members, k, target)
              && WroteAny(members, k + 1, target) == WroteAny(members, k, target)
    ensures members[k].key != target ==>
              && WroteAny(members, k + 1, target)
              && Written(members, k + 1, target)
              == Written(members, k, target) + (if WroteAny(members, k, target) then [COMMA] else []) + PrintMember(members[k])
  {
    hide PrintMember;
    var kept := Without(members[..k], target);
    assert kept + [] == kept;
    assert kept == [] ==> Join(MemberPieces(kept)) == [];
    assert members[..k + 1] == members[..k] + [members[k]];
    WithoutSnoc(members[..k], members[k], target);
    hide Without, Join, MemberPieces;
    MemberPiecesSnoc(kept, members[k]);
    JoinSnoc(MemberPieces(kept), PrintMember(members[k]));
  }

  /** The copying loop: everything but the target's member, comma separated. */
  method CopyOthers(input: Bytes, spans: seq<Span>, target: Bytes, ghost members: seq<Member>)
      returns (found: bool, body: Bytes, value: Bytes)
    requires |input| > 1 && input[1..] == Join(MemberPieces(members)) + [CLOSE_BRACE]
    requires spans == SpansOf(members, 1)
    ensures !found ==> forall i | 0 <= i < |members| :: members[i].key != target
    ensures found ==> exists i :: 0 <= i < |members| && members[i].key == target && value == Print(members[i].value)
    ensures body == Join(MemberPieces(Without(members, target)))
  {
    hide *;
    body, value, found := [], [], false;
    var wrote := false;
    ghost var at := 0;
    WrittenNothing(members, target);
    for k := 0 to |spans|
      invariant !found ==> forall i | 0 <= i < k :: members[i].key != target
      invariant found ==> 0 <= at < k && members[at].key == target && value == Print(members[at].value)
      invariant wrote <==> WroteAny(members, k, target)
      invariant body == Written(members, k, target)
    {
      var span := spans[k];
      SpanTexts(input, 1, members, k);
      WrittenStep(members, k, target);
      if span.key == target {
        found, at := true, k;
        value := input[span.valueStart..span.end];
      } else {
        if wrote { body := body + [COMMA]; }
        body := body + input[span.start..span.end];
        wrote := true;
      }
    }
    WrittenAll(members, target);
  }

  /** `canonical` is the outcome of canonicalising the input and comparing the two texts;
      `members` is what that canonicalisation decoded. */
  method RemoveCanonicalObjectMember(input: Bytes, target: Bytes, targetIsUtf8: bool, canonical: bool,
                                     ghost members: seq<Member>) returns (r: Removal)
    requires canonical ==> input == Print(Obj(members)) && DistinctKeys(members)
    ensures r.InvalidTarget? <==> target == [] || !targetIsUtf8
    ensures r.NotCanonical? <==> !r.InvalidTarget? && !canonical
    ensures r.Absent? <==> !r.InvalidTarget? && canonical && forall i | 0 <= i < |members| :: members[i].key != target
    ensures r.Removed? ==>
              && r.unsigned == Print(Obj(Without(members, target)))
              && exists i :: 0 <= i < |members| && members[i].key == target && r.value == Print(members[i].value)
  {
    if target == [] || !targetIsUtf8 { return InvalidTarget; }
    if !canonical { return NotCanonical; }
    var scan := ScanObjectMembers(input);
    ScanFindsGrammarSpans(members);
    ObjectText(members);
    hide *;
    assert input[1..] == Join(MemberPieces(members)) + [CLOSE_BRACE];
    var found, body, value := CopyOthers(input, scan.members, target, members);
    if !found { return Absent; }
    ObjectText(Without(members, target));
    return Removed([OPEN_BRACE] + body + [CLOSE_BRACE], value);
  }

  lemma ObjectText(members: seq<Member>)
    ensures Print(Obj(members)) == [OPEN_BRACE] + Join(MemberPieces(members)) + [CLOSE_BRACE]
  {
  }

  ghost predicate SortedBy(less: (Bytes, Bytes) -> bool, members: seq<Member>) {
    forall i, j | 0 <= i < j < |members| ::
      less(members[i].key, members[j].key) && !less(members[j].key, members[i].key)
  }

  function Insert(less: (Bytes, Bytes) -> bool, members: seq<Member>, m: Member): seq<Member> {
    if members == [] || less(m.key, members[0].key) then [m] + members
    else [members[0]] + Insert(less, members[1..], m)
  }

  lemma {:induction false} WithoutAbsent(members: seq<Member>, key: Bytes)
    requires forall m <- members :: m.key != key
    ensures Without(members, key) == members
  {
    if members != [] {
      WithoutAbsent(members[1..], key);
    }
  }

  lemma InsertAfterHead(less: (Bytes, Bytes) -> bool, head: Member, rest: seq<Member>, m: Member)
    requires !less(m.key, head.key)
    ensures Insert(less, [head] + rest, m) == [head] + Insert(less, rest, m)
  {
    assert ([head] + rest)[1..] == rest;
  }

  /** Putting a removed member back at its place in key order restores the object. */
  lemma {:induction false} InsertUndoesRemoval(less: (Bytes, Bytes) -> bool, members: seq<Member>, i: nat)
    requires i < |members| && SortedBy(less, members) && DistinctKeys(members)
    ensures Insert(less, Without(members, members[i].key), members[i]) == members
  {
    var head, rest := members[0], members[1..];
    assert members == [head] + rest;
    if i == 0 {
      WithoutAbsent(rest, head.key);
      assert Without(members, head.key) == rest;
      assert rest == [] || less(head.key, rest[0].key);
    } else {
      InsertUndoesRemoval(less, rest, i - 1);
      assert Without(members, members[i].key) == [head] + Without(rest, members[i].key);
      hide Without, Insert;
      InsertAfterHead(less, head, Without(rest, members[i].key), members[i]);
    }
  }
}
