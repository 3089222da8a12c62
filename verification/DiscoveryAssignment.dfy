/** The address assignment of cmd/codecommd/discovery_runtime.go: each discovery selector gets at most
    one address of its interface, family and scope, and keeps its previous address when it can. */
module DiscoveryAssignment {
  import opened Bytes
  import opened Wrappers
  import opened Mapping

  datatype Address = Address(ipv6: bool, linkLocal: bool, value: nat)

  datatype Selector = Selector(iface: Bytes, ipv6: bool, linkLocal: bool, ordinal: nat)

  /** An interface and its usable addresses. */
  datatype Interface = Interface(index: nat, up: bool, loopback: bool, addresses: seq<Address>)

  /** An interface as the operating system lists it; `addresses` is None when they cannot be read. */
  datatype Device = Device(name: Bytes, index: int, up: bool, loopback: bool, addresses: Option<seq<Address>>)

  type Assignment = map<Selector, Address>

  function Select(s: Selector, addresses: seq<Address>): (r: seq<Address>)
    ensures forall a :: a in r <==> a in addresses && a.ipv6 == s.ipv6 && a.linkLocal == s.linkLocal
  {
    if addresses == [] then []
    else (if addresses[0].ipv6 == s.ipv6 && addresses[0].linkLocal == s.linkLocal then [addresses[0]] else []) + Select(s, addresses[1..])
  }

  /** The addresses a selector may take: none when its interface is missing, down or loopback. */
  function Eligible(interfaces: map<Bytes, Interface>, s: Selector): seq<Address> {
    if s.iface !in interfaces || !interfaces[s.iface].up || interfaces[s.iface].loopback then []
    else Select(s, interfaces[s.iface].addresses)
  }

  // ---- the order of selectors ----

  predicate Before(a: Selector, b: Selector) {
    if a.iface != b.iface then Less(a.iface, b.iface)
    else if a.ipv6 != b.ipv6 then !a.ipv6
    else if a.linkLocal != b.linkLocal then !a.linkLocal
    else a.ordinal < b.ordinal
  }

  predicate Ordered(ss: seq<Selector>) {
    forall i, j | 0 <= i < j < |ss| :: Before(ss[i], ss[j]) || ss[i] == ss[j]
  }

  lemma BeforeTransitive(a: Selector, b: Selector, c: Selector)
    requires Before(a, b) && Before(b, c)
    ensures Before(a, c)
  {
    if a.iface != b.iface && b.iface != c.iface {
      LessTransitive(a.iface, b.iface, c.iface);
      LessTrichotomy(a.iface, b.iface);
    }
  }

  lemma BeforeTotal(a: Selector, b: Selector)
    ensures Before(a, b) || Before(b, a) || a == b
    ensures !(Before(a, b) && Before(b, a))
  {
    LessTrichotomy(a.iface, b.iface);
  }

  method InsertSelector(ss: seq<Selector>, s: Selector) returns (r: seq<Selector>)
    requires Ordered(ss)
    ensures Ordered(r) && multiset(r) == multiset(ss) + multiset{s}
  {
    var k := 0;
    while k < |ss| && Before(ss[k], s)
      invariant k <= |ss| && forall i | 0 <= i < k :: Before(ss[i], s)
    {
      k := k + 1;
    }
    assert ss == ss[..k] + ss[k..];
    forall j | k <= j < |ss| ensures Before(s, ss[j]) || s == ss[j] {
      BeforeTotal(s, ss[k]);
      if j > k && Before(s, ss[k]) && Before(ss[k], ss[j]) { BeforeTransitive(s, ss[k], ss[j]); }
    }
    hide Before;
    r := ss[..k] + [s] + ss[k..];
  }

  method SortSelectors(ss: seq<Selector>) returns (r: seq<Selector>)
    ensures Ordered(r) && multiset(r) == multiset(ss)
  {
    r := [];
    for i := 0 to |ss|
      invariant Ordered(r) && multiset(r) == multiset(ss[..i])
    {
      assert ss[..i + 1] == ss[..i] + [ss[i]];
      r := InsertSelector(r, ss[i]);
    }
    assert ss[..|ss|] == ss;
  }

  predicate Distinct<T(==)>(ss: seq<T>) {
    forall i, j | 0 <= i < j < |ss| :: ss[i] != ss[j]
  }

  // ---- the two phases ----

  /** First phase: still-eligible previous addresses, unless an earlier selector holds the same. */
  function Keep(interfaces: map<Bytes, Interface>, previous: Assignment, ss: seq<Selector>): (r: Assignment)
    ensures forall s | s in r :: s in ss && s in previous && r[s] == previous[s]
  {
    if ss == [] then map[]
    else
      var s, c := ss[|ss| - 1], Keep(interfaces, previous, ss[..|ss| - 1]);
      if s in previous && previous[s] in Eligible(interfaces, s) && previous[s] !in c.Values then c[s := previous[s]] else c
  }

  function FirstFree(candidates: seq<Address>, used: set<Address>): (r: Option<Address>)
    ensures r.Some? ==> r.value in candidates && r.value !in used
    ensures r.None? ==> forall a | a in candidates :: a in used
  {
    if candidates == [] then None
    else if candidates[0] !in used then Some(candidates[0]) else FirstFree(candidates[1..], used)
  }

  /** Second phase: the first unused eligible address for every selector left without one. */
  function Fill(interfaces: map<Bytes, Interface>, kept: Assignment, ss: seq<Selector>): (r: Assignment)
    ensures forall s | s in kept :: s in r && r[s] == kept[s]
    ensures forall s | s in r :: s in kept || s in ss
  {
    if ss == [] then kept
    else
      var s, c := ss[|ss| - 1], Fill(interfaces, kept, ss[..|ss| - 1]);
      if s in c then c
      else
        var free := FirstFree(Eligible(interfaces, s), c.Values);
        if free.Some? then c[s := free.value] else c
  }

  function Refreshed(interfaces: map<Bytes, Interface>, previous: Assignment, ordered: seq<Selector>): Assignment {
    Fill(interfaces, Keep(interfaces, previous, ordered), ordered)
  }

  // ---- properties ----

  ghost predicate Injective(c: Assignment) {
    forall a, b | a in c && b in c && a != b :: c[a] != c[b]
  }

  ghost predicate AllEligible(interfaces: map<Bytes, Interface>, c: Assignment) {
    forall s | s in c :: c[s] in Eligible(interfaces, s)
  }

  lemma AssignFresh(interfaces: map<Bytes, Interface>, c: Assignment, s: Selector, a: Address)
    requires Injective(c) && AllEligible(interfaces, c) && a !in c.Values && a in Eligible(interfaces, s)
    ensures Injective(c[s := a]) && AllEligible(interfaces, c[s := a])
  {
    hide Eligible;
    assert forall b | b in c :: c[b] in c.Values;
  }

  lemma {:induction false} KeepSound(interfaces: map<Bytes, Interface>, previous: Assignment, ss: seq<Selector>)
    ensures Injective(Keep(interfaces, previous, ss)) && AllEligible(interfaces, Keep(interfaces, previous, ss))
  {
    if ss != [] {
      KeepSound(interfaces, previous, ss[..|ss| - 1]);
      var s, c := ss[|ss| - 1], Keep(interfaces, previous, ss[..|ss| - 1]);
      if s in previous && previous[s] in Eligible(interfaces, s) && previous[s] !in c.Values {
        AssignFresh(interfaces, c, s, previous[s]);
      }
    }
  }

  lemma {:induction false} FillSound(interfaces: map<Bytes, Interface>, kept: Assignment, ss: seq<Selector>)
    requires Injective(kept) && AllEligible(interfaces, kept)
    ensures Injective(Fill(interfaces, kept, ss)) && AllEligible(interfaces, Fill(interfaces, kept, ss))
  {
    if ss != [] {
      FillSound(interfaces, kept, ss[..|ss| - 1]);
      var s, c := ss[|ss| - 1], Fill(interfaces, kept, ss[..|ss| - 1]);
      var free := FirstFree(Eligible(interfaces, s), c.Values);
      if s !in c && free.Some? { AssignFresh(interfaces, c, s, free.value); }
    }
  }

  /** No address is given twice and every address given is eligible, whatever came before. */
  lemma RefreshedSound(interfaces: map<Bytes, Interface>, previous: Assignment, ordered: seq<Selector>)
    ensures Injective(Refreshed(interfaces, previous, ordered)) && AllEligible(interfaces, Refreshed(interfaces, previous, ordered))
    ensures forall s | s in Refreshed(interfaces, previous, ordered) :: s in ordered
  {
    KeepSound(interfaces, previous, ordered);
    FillSound(interfaces, Keep(interfaces, previous, ordered), ordered);
  }

  lemma {:induction false} KeepLoses(interfaces: map<Bytes, Interface>, previous: Assignment, ss: seq<Selector>, s: Selector)
    requires s in ss && s in previous && previous[s] in Eligible(interfaces, s) && s !in Keep(interfaces, previous, ss)
    ensures exists x :: x in Keep(interfaces, previous, ss) && x != s && previous[x] == previous[s]
  {
    hide Eligible;
    var n := |ss| - 1;
    var c, d := Keep(interfaces, previous, ss[..n]), Keep(interfaces, previous, ss);
    assert ss == ss[..n] + [ss[n]];
    var x;
    if s == ss[n] {
      x :| x in c && c[x] == previous[s];
    } else {
      KeepLoses(interfaces, previous, ss[..n], s);
      x :| x in c && x != s && previous[x] == previous[s];
    }
    assert x in d && x != s && previous[x] == previous[s];
  }

  /** A still-eligible address is lost exactly to another selector that kept the same one. */
  lemma KeepExact(interfaces: map<Bytes, Interface>, previous: Assignment, ss: seq<Selector>, s: Selector)
    requires s in ss && s in previous && previous[s] in Eligible(interfaces, s)
    ensures s in Keep(interfaces, previous, ss) <==>
            !exists x :: x in Keep(interfaces, previous, ss) && x != s && previous[x] == previous[s]
  {
    hide Eligible;
    KeepSound(interfaces, previous, ss);
    if s !in Keep(interfaces, previous, ss) { KeepLoses(interfaces, previous, ss, s); }
  }

  /** Every still-eligible previous binding is kept when the previous bindings are injective. */
  lemma PreviousBindingsKept(interfaces: map<Bytes, Interface>, previous: Assignment, ordered: seq<Selector>, s: Selector)
    requires Injective(previous) && s in ordered && s in previous && previous[s] in Eligible(interfaces, s)
    ensures s in Refreshed(interfaces, previous, ordered) && Refreshed(interfaces, previous, ordered)[s] == previous[s]
  {
    hide Eligible;
    KeepExact(interfaces, previous, ordered, s);
  }

  lemma {:induction false} FillSaturates(interfaces: map<Bytes, Interface>, kept: Assignment, ss: seq<Selector>, s: Selector)
    requires s in ss && s !in Fill(interfaces, kept, ss)
    ensures forall a | a in Eligible(interfaces, s) :: a in Fill(interfaces, kept, ss).Values
  {
    hide Eligible;
    var n := |ss| - 1;
    var c, d := Fill(interfaces, kept, ss[..n]), Fill(interfaces, kept, ss);
    assert forall b | b in c :: b in d && d[b] == c[b];
    assert forall a | a in c.Values :: a in d.Values;
    if s != ss[n] {
      FillSaturates(interfaces, kept, ss[..n], s);
    }
  }

  // ---- maximum per class ----

  predicate SameClass(a: Selector, b: Selector) {
    a.iface == b.iface && a.ipv6 == b.ipv6 && a.linkLocal == b.linkLocal
  }

  ghost function ClassOf(c: Assignment, s: Selector): set<Selector> {
    set x | x in c && SameClass(x, s)
  }

  ghost function Taken(c: Assignment, xs: set<Selector>): set<Address> {
    set x | x in xs && x in c :: c[x]
  }

  ghost predicate ShareNothing(interfaces: map<Bytes, Interface>) {
    forall i, j, a | i in interfaces && j in interfaces && i != j && a in interfaces[i].addresses :: a !in interfaces[j].addresses
  }

  lemma {:induction false} InjectiveSize(c: Assignment, xs: set<Selector>)
    requires Injective(c) && xs <= c.Keys
    ensures |Taken(c, xs)| == |xs|
    decreases |xs|
  {
    if xs == {} {
      assert Taken(c, xs) == {};
    } else {
      var x :| x in xs;
      InjectiveSize(c, xs - {x});
      assert Taken(c, xs) == Taken(c, xs - {x}) + {c[x]};
      assert c[x] !in Taken(c, xs - {x});
    }
  }

  lemma EligibleOnlyInClass(interfaces: map<Bytes, Interface>, s: Selector, x: Selector, a: Address)
    requires ShareNothing(interfaces) && a in Eligible(interfaces, s) && a in Eligible(interfaces, x)
    ensures SameClass(x, s)
  {
  }

  /** An assignment of eligible addresses to given selectors, no address twice. */
  ghost predicate Legal(interfaces: map<Bytes, Interface>, ordered: seq<Selector>, c: Assignment) {
    Injective(c) && AllEligible(interfaces, c) && forall x | x in c :: x in ordered
  }

  /** A selector of the class goes without an address while another class holds one it could take. */
  ghost predicate Poached(interfaces: map<Bytes, Interface>, ordered: seq<Selector>, c: Assignment, s: Selector) {
    exists x, y :: x in ordered && SameClass(x, s) && x !in c && y in c && !SameClass(y, s) && c[y] in Eligible(interfaces, x)
  }

  /** A class with an unserved selector that is not poached has used up every eligible address itself. */
  lemma ClassSaturated(interfaces: map<Bytes, Interface>, c: Assignment, s: Selector, other: Assignment)
    requires AllEligible(interfaces, other)
    requires forall a | a in Eligible(interfaces, s) :: a in c.Values
    requires forall y | y in c && c[y] in Eligible(interfaces, s) :: SameClass(y, s)
    ensures Taken(other, ClassOf(other, s)) <= Taken(c, ClassOf(c, s))
  {
    forall a | a in Taken(other, ClassOf(other, s)) ensures a in Taken(c, ClassOf(c, s)) {
      var x :| x in ClassOf(other, s) && other[x] == a;
      ClassEligible(interfaces, s, x);
      assert a in Eligible(interfaces, s);
      var y :| y in c && c[y] == a;
      assert y in ClassOf(c, s);
    }
  }

  lemma ClassEligible(interfaces: map<Bytes, Interface>, s: Selector, x: Selector)
    requires SameClass(x, s)
    ensures forall a :: a in Eligible(interfaces, x) <==> a in Eligible(interfaces, s)
  {
  }

  lemma UnpoachedIsMaximum(interfaces: map<Bytes, Interface>, previous: Assignment, ordered: seq<Selector>, other: Assignment, s: Selector)
    requires s in ordered && Legal(interfaces, ordered, other)
    requires !Poached(interfaces, ordered, Refreshed(interfaces, previous, ordered), s)
    ensures |ClassOf(other, s)| <= |ClassOf(Refreshed(interfaces, previous, ordered), s)|
  {
    hide Eligible;
    var c := Refreshed(interfaces, previous, ordered);
    RefreshedSound(interfaces, previous, ordered);
    if x :| x in ordered && SameClass(x, s) && x !in c {
      FillSaturates(interfaces, Keep(interfaces, previous, ordered), ordered, x);
      ClassSaturated(interfaces, c, x, other);
      SameClassOf(c, x, s);
      SameClassOf(other, x, s);
      InjectiveSize(other, ClassOf(other, s));
      InjectiveSize(c, ClassOf(c, s));
      SubsetSize(Taken(other, ClassOf(other, s)), Taken(c, ClassOf(c, s)));
    } else {
      SubsetSize(ClassOf(other, s), ClassOf(c, s));
    }
  }

  /** Giving a poached address back to its class serves one selector more. */
  lemma PoachedIsNotMaximum(interfaces: map<Bytes, Interface>, ordered: seq<Selector>, c: Assignment, s: Selector) returns (other: Assignment)
    requires Legal(interfaces, ordered, c) && Poached(interfaces, ordered, c, s)
    ensures Legal(interfaces, ordered, other) && |ClassOf(other, s)| > |ClassOf(c, s)|
  {
    hide Eligible;
    var x, y :| x in ordered && SameClass(x, s) && x !in c && y in c && !SameClass(y, s) && c[y] in Eligible(interfaces, x);
    var kept: Assignment := map z | z in c && SameClass(z, s) :: c[z];
    assert c[y] !in kept.Values;
    AssignFresh(interfaces, kept, x, c[y]);
    other := kept[x := c[y]];
    assert ClassOf(other, s) == ClassOf(c, s) + {x};
  }

  /** Among all legal assignments this one serves a class maximally exactly when the class is not poached. */
  lemma MaximumPerClassExactly(interfaces: map<Bytes, Interface>, previous: Assignment, ordered: seq<Selector>, s: Selector)
    requires s in ordered
    ensures var c := Refreshed(interfaces, previous, ordered);
      (forall other | Legal(interfaces, ordered, other) :: |ClassOf(other, s)| <= |ClassOf(c, s)|)
      <==> !Poached(interfaces, ordered, c, s)
  {
    var c := Refreshed(interfaces, previous, ordered);
    RefreshedSound(interfaces, previous, ordered);
    hide Refreshed, Eligible;
    if Poached(interfaces, ordered, c, s) {
      var other := PoachedIsNotMaximum(interfaces, ordered, c, s);
    } else {
      forall other | Legal(interfaces, ordered, other) ensures |ClassOf(other, s)| <= |ClassOf(c, s)| {
        UnpoachedIsMaximum(interfaces, previous, ordered, other, s);
      }
    }
    hide Legal, Poached, ClassOf;
  }

  /** When interfaces share no address, no class is poached, so no assignment serves more of any class. */
  lemma MaximumPerClass(interfaces: map<Bytes, Interface>, previous: Assignment, ordered: seq<Selector>, other: Assignment, s: Selector)
    requires ShareNothing(interfaces) && s in ordered && Legal(interfaces, ordered, other)
    ensures |ClassOf(other, s)| <= |ClassOf(Refreshed(interfaces, previous, ordered), s)|
  {
    var c := Refreshed(interfaces, previous, ordered);
    RefreshedSound(interfaces, previous, ordered);
    hide Eligible, Refreshed;
    forall x, y | SameClass(x, s) && y in c && c[y] in Eligible(interfaces, x) ensures SameClass(y, s) {
      EligibleOnlyInClass(interfaces, x, y, c[y]);
    }
    UnpoachedIsMaximum(interfaces, previous, ordered, other, s);
  }

  // ---- when every refresh is maximal ----

  /** Some address is eligible in two different classes. */
  ghost predicate ClassesShare(interfaces: map<Bytes, Interface>) {
    exists x: Selector, y: Selector, a :: Shared(interfaces, x, y, a)
  }

  ghost predicate Shared(interfaces: map<Bytes, Interface>, x: Selector, y: Selector, a: Address) {
    !SameClass(x, y) && a in Eligible(interfaces, x) && a in Eligible(interfaces, y)
  }

  /** Whatever was bound before and whichever selectors are asked for, no assignment serves more of any class. */
  ghost predicate AlwaysMaximum(interfaces: map<Bytes, Interface>) {
    forall previous, ordered, other, s | Ordered(ordered) && Distinct(ordered) && s in ordered && Legal(interfaces, ordered, other) ::
      |ClassOf(other, s)| <= |ClassOf(Refreshed(interfaces, previous, ordered), s)|
  }

  /** `n` selectors of one class. */
  function Copies(y: Selector, n: nat): (r: seq<Selector>)
    ensures |r| == n && forall i | 0 <= i < n :: r[i] == y.(ordinal := i)
  {
    seq(n, i requires 0 <= i < n => y.(ordinal := i))
  }

  lemma CopiesOrdered(y: Selector, n: nat)
    ensures Ordered(Copies(y, n)) && Distinct(Copies(y, n))
  {
    var c := Copies(y, n);
    forall i, j | 0 <= i < j < n ensures Before(c[i], c[j]) && c[i] != c[j] {}
  }

  /** A selector of another class stands before all copies or behind them all. */
  lemma BesideCopies(x: Selector, y: Selector, n: nat) returns (ordered: seq<Selector>)
    requires !SameClass(x, y)
    ensures Ordered(ordered) && Distinct(ordered) && x in ordered
    ensures forall i | 0 <= i < n :: y.(ordinal := i) in ordered
  {
    var c := Copies(y, n);
    CopiesOrdered(y, n);
    BeforeTotal(x, y);
    ordered := if Before(x, y) then [x] + c else c + [x];
    forall i | 0 <= i < n ensures (Before(x, y) ==> Before(x, c[i])) && (!Before(x, y) ==> Before(c[i], x)) && x != c[i] {
      assert !SameClass(x, c[i]);
    }
    forall i | 0 <= i < n ensures y.(ordinal := i) in ordered { assert c[i] in c; }
    hide Before;
  }

  lemma {:induction false} ElementsSize(s: seq<Address>)
    ensures |(set a | a in s)| <= |s|
  {
    if s != [] {
      ElementsSize(s[1..]);
      assert s == [s[0]] + s[1..];
      assert (set a | a in s) == (set a | a in s[1..]) + {s[0]};
    }
  }

  lemma {:induction false} CopiesSize(c: Assignment, y: Selector, n: nat)
    requires forall i | 0 <= i < n :: y.(ordinal := i) in c
    ensures |(set x | x in c && SameClass(x, y) && x.ordinal < n)| >= n
  {
    if n > 0 {
      CopiesSize(c, y, n - 1);
      var smaller := set x | x in c && SameClass(x, y) && x.ordinal < n - 1;
      var larger := set x | x in c && SameClass(x, y) && x.ordinal < n;
      SubsetSize(smaller + {y.(ordinal := n - 1)}, larger);
    }
  }

  /** As many copies as a class has addresses cannot all be served while another class holds one of them. */
  lemma SomeCopyUnserved(interfaces: map<Bytes, Interface>, c: Assignment, x: Selector, y: Selector)
    requires Injective(c) && AllEligible(interfaces, c) && x in c && !SameClass(x, y) && c[x] in Eligible(interfaces, y)
    ensures exists i :: 0 <= i < |Eligible(interfaces, y)| && y.(ordinal := i) !in c
  {
    hide Eligible;
    var e := Eligible(interfaces, y);
    var n := |e|;
    if forall i | 0 <= i < n :: y.(ordinal := i) in c {
      CopiesSize(c, y, n);
      var all := set a | a in e;
      ElementsSize(e);
      SubsetSize((set z | z in c && SameClass(z, y) && z.ordinal < n), ClassOf(c, y));
      InjectiveSize(c, ClassOf(c, y));
      forall a | a in Taken(c, ClassOf(c, y)) ensures a in all - {c[x]} {
        var z :| z in ClassOf(c, y) && c[z] == a;
        ClassEligible(interfaces, y, z);
        assert z != x;
      }
      assert |all - {c[x]}| == |all| - 1;
      SubsetSize(Taken(c, ClassOf(c, y)), all - {c[x]});
    }
  }

  /** A shared address can be bound to one class while the other is asked for in full. */
  lemma SharingPoaches(interfaces: map<Bytes, Interface>, x: Selector, y: Selector, a: Address)
    returns (previous: Assignment, ordered: seq<Selector>, z: Selector)
    requires Shared(interfaces, x, y, a)
    ensures Ordered(ordered) && Distinct(ordered) && z in ordered
    ensures Poached(interfaces, ordered, Refreshed(interfaces, previous, ordered), z)
  {
    hide Refreshed, Eligible, Ordered, Distinct;
    previous := map[x := a];
    ordered := BesideCopies(x, y, |Eligible(interfaces, y)|);
    PreviousBindingsKept(interfaces, previous, ordered, x);
    RefreshedSound(interfaces, previous, ordered);
    var c := Refreshed(interfaces, previous, ordered);
    SomeCopyUnserved(interfaces, c, x, y);
    var i :| 0 <= i < |Eligible(interfaces, y)| && y.(ordinal := i) !in c;
    z := y.(ordinal := i);
    ClassEligible(interfaces, y, z);
    hide Injective, AllEligible;
    assert z in ordered && SameClass(z, z) && z !in c && x in c && !SameClass(x, z) && c[x] in Eligible(interfaces, z);
  }

  lemma SharingLoses(interfaces: map<Bytes, Interface>, x: Selector, y: Selector, a: Address)
    requires Shared(interfaces, x, y, a)
    ensures !AlwaysMaximum(interfaces)
  {
    var previous, ordered, z := SharingPoaches(interfaces, x, y, a);
    RefreshedSound(interfaces, previous, ordered);
    hide Refreshed, Ordered, Distinct, ClassOf, Poached, Shared;
    var other := PoachedIsNotMaximum(interfaces, ordered, Refreshed(interfaces, previous, ordered), z);
  }

  lemma NothingSharedNothingPoached(interfaces: map<Bytes, Interface>, previous: Assignment, ordered: seq<Selector>, s: Selector)
    requires !ClassesShare(interfaces)
    ensures !Poached(interfaces, ordered, Refreshed(interfaces, previous, ordered), s)
  {
    RefreshedSound(interfaces, previous, ordered);
    hide Refreshed, Eligible;
    var c := Refreshed(interfaces, previous, ordered);
    forall x, y | SameClass(x, s) && y in c && c[y] in Eligible(interfaces, x) ensures SameClass(y, s) {
      assert !Shared(interfaces, x, y, c[y]);
    }
  }

  /** On given interfaces every refresh serves every class maximally exactly when no address is eligible in two classes. */
  lemma AlwaysMaximumExactly(interfaces: map<Bytes, Interface>)
    ensures AlwaysMaximum(interfaces) <==> !ClassesShare(interfaces)
  {
    if ClassesShare(interfaces) {
      var x, y, a :| Shared(interfaces, x, y, a);
      SharingLoses(interfaces, x, y, a);
    } else {
      hide Refreshed, Legal, ClassOf, Poached, Ordered, Distinct, ClassesShare;
      forall previous, ordered, other, s | Ordered(ordered) && Distinct(ordered) && s in ordered && Legal(interfaces, ordered, other)
        ensures |ClassOf(other, s)| <= |ClassOf(Refreshed(interfaces, previous, ordered), s)|
      {
        NothingSharedNothingPoached(interfaces, previous, ordered, s);
        UnpoachedIsMaximum(interfaces, previous, ordered, other, s);
      }
    }
  }

  lemma SameClassOf(c: Assignment, x: Selector, s: Selector)
    requires SameClass(x, s)
    ensures ClassOf(c, x) == ClassOf(c, s)
  {
  }

  /** Without that condition the greedy second phase can leave a selector unserved. */
  lemma SharedAddressLosesASelector()
    ensures var x, y := Address(false, false, 1), Address(false, false, 2);
      var a, b := Selector([1], false, false, 0), Selector([2], false, false, 0);
      var interfaces := map[[1] := Interface(1, true, false, [x, y]), [2] := Interface(2, true, false, [x])];
      var other := map[a := y, b := x];
      && Injective(other) && AllEligible(interfaces, other) && Ordered([a, b])
      && b !in Refreshed(interfaces, map[], [a, b]) && b in other
  {
    var x, y := Address(false, false, 1), Address(false, false, 2);
    var a, b := Selector([1], false, false, 0), Selector([2], false, false, 0);
    var interfaces: map<Bytes, Interface> := map[[1] := Interface(1, true, false, [x, y]), [2] := Interface(2, true, false, [x])];
    SelectOne(b, x);
    SelectTwo(a, x, y);
    assert Eligible(interfaces, a) == [x, y] && Eligible(interfaces, b) == [x];
    hide Eligible, Select;
    FirstTakesIt(interfaces, a, b, x, y);
    hide Refreshed;
  }

  lemma SelectOne(s: Selector, x: Address)
    requires x.ipv6 == s.ipv6 && x.linkLocal == s.linkLocal
    ensures Select(s, [x]) == [x]
  {
    assert [x][1..] == [] && Select(s, []) == [];
  }

  lemma SelectTwo(s: Selector, x: Address, y: Address)
    requires x.ipv6 == y.ipv6 == s.ipv6 && x.linkLocal == y.linkLocal == s.linkLocal
    ensures Select(s, [x, y]) == [x, y]
  {
    SelectOne(s, y);
    assert [x, y][1..] == [y];
  }

  /** The first selector in order takes the first address of both. */
  lemma FirstTakesIt(interfaces: map<Bytes, Interface>, a: Selector, b: Selector, x: Address, y: Address)
    requires a != b && Eligible(interfaces, a) == [x, y] && Eligible(interfaces, b) == [x]
    ensures Refreshed(interfaces, map[], [a, b]) == map[a := x]
  {
    hide Eligible;
    assert [a, b][..1] == [a] && [a][..0] == [];
    assert Keep(interfaces, map[], [a, b]) == map[];
    var one := Fill(interfaces, map[], [a]);
    assert one == map[a := x];
    assert x in one.Values;
    hide Keep;
    assert FirstFree([x], one.Values).None? by { assert [x][1..] == []; }
  }

  // ---- fixpoint ----

  lemma {:induction false} KeepAll(interfaces: map<Bytes, Interface>, c: Assignment, ss: seq<Selector>)
    requires Injective(c) && AllEligible(interfaces, c)
    ensures forall s :: s in Keep(interfaces, c, ss) <==> s in ss && s in c
  {
    hide Eligible;
    if ss != [] {
      KeepAll(interfaces, c, ss[..|ss| - 1]);
      var s, d := ss[|ss| - 1], Keep(interfaces, c, ss[..|ss| - 1]);
      assert ss == ss[..|ss| - 1] + [s];
      if s in c && c[s] in d.Values {
        var b :| b in d && d[b] == c[s];
      }
    }
  }

  lemma {:induction false} FillNothing(interfaces: map<Bytes, Interface>, c: Assignment, ss: seq<Selector>)
    requires forall s | s in ss && s !in c :: forall a | a in Eligible(interfaces, s) :: a in c.Values
    ensures Fill(interfaces, c, ss) == c
  {
    hide Eligible;
    if ss != [] {
      FillNothing(interfaces, c, ss[..|ss| - 1]);
    }
  }

  /** Refreshing again on the same interfaces changes nothing. */
  lemma RefreshIsAFixpoint(interfaces: map<Bytes, Interface>, previous: Assignment, ordered: seq<Selector>)
    ensures var c := Refreshed(interfaces, previous, ordered);
      Refreshed(interfaces, c, ordered) == c
  {
    var c := Refreshed(interfaces, previous, ordered);
    RefreshedSound(interfaces, previous, ordered);
    KeepAll(interfaces, c, ordered);
    assert Keep(interfaces, c, ordered) == c;
    forall s | s in ordered && s !in c ensures forall a | a in Eligible(interfaces, s) :: a in c.Values {
      FillSaturates(interfaces, Keep(interfaces, previous, ordered), ordered, s);
    }
    FillNothing(interfaces, c, ordered);
  }

  // ---- the method ----

  method RepeatedSelector(ordered: seq<Selector>) returns (repeated: bool)
    ensures repeated <==> !Distinct(ordered)
  {
    var seen: set<Selector> := {};
    for k := 0 to |ordered|
      invariant Distinct(ordered[..k]) && forall s :: s in seen <==> s in ordered[..k]
    {
      assert ordered[..k + 1] == ordered[..k] + [ordered[k]];
      if ordered[k] in seen {
        var i :| 0 <= i < k && ordered[..k][i] == ordered[k];
        assert ordered[i] == ordered[k];
        return true;
      }
      seen := seen + {ordered[k]};
    }
    assert ordered[..|ordered|] == ordered;
    return false;
  }

  method FirstFreeLoop(candidates: seq<Address>, used: set<Address>) returns (r: Option<Address>)
    ensures r == FirstFree(candidates, used)
  {
    for k := 0 to |candidates|
      invariant FirstFree(candidates, used) == FirstFree(candidates[k..], used)
    {
      if candidates[k] !in used { return Some(candidates[k]); }
      assert candidates[k..][1..] == candidates[k + 1..];
    }
    return None;
  }

  lemma KeepNext(interfaces: map<Bytes, Interface>, previous: Assignment, ordered: seq<Selector>, k: nat)
    requires k < |ordered|
    ensures var s, c := ordered[k], Keep(interfaces, previous, ordered[..k]);
      Keep(interfaces, previous, ordered[..k + 1]) ==
      if s in previous && previous[s] in Eligible(interfaces, s) && previous[s] !in c.Values then c[s := previous[s]] else c
  {
    hide Eligible;
    assert ordered[..k + 1][..k] == ordered[..k];
  }

  method KeepLoop(interfaces: map<Bytes, Interface>, previous: Assignment, ordered: seq<Selector>)
    returns (chosen: Assignment, used: set<Address>)
    ensures chosen == Keep(interfaces, previous, ordered) && used == chosen.Values
  {
    chosen, used := map[], {};
    assert Keep(interfaces, previous, ordered[..0]) == map[];
    hide Keep, Eligible;
    for k := 0 to |ordered|
      invariant chosen == Keep(interfaces, previous, ordered[..k]) && used == chosen.Values
    {
      KeepNext(interfaces, previous, ordered, k);
      var s := ordered[k];
      if s in previous && previous[s] in Eligible(interfaces, s) && previous[s] !in used {
        ValuesAfter(chosen, s, previous[s]);
        chosen := chosen[s := previous[s]];
        used := used + {previous[s]};
      }
    }
    assert ordered[..|ordered|] == ordered;
  }

  lemma ValuesAfter(c: Assignment, s: Selector, a: Address)
    requires s in c ==> c[s] == a
    ensures c[s := a].Values == c.Values + {a}
  {
    var d := c[s := a];
    assert s in d && d[s] == a;
    forall b | b in c.Values ensures b in d.Values {
      var x :| x in c && c[x] == b;
      assert x in d && d[x] == b;
    }
  }

  lemma FillNext(interfaces: map<Bytes, Interface>, kept: Assignment, ordered: seq<Selector>, k: nat)
    requires k < |ordered|
    ensures var s, c := ordered[k], Fill(interfaces, kept, ordered[..k]);
      var free := FirstFree(Eligible(interfaces, s), c.Values);
      Fill(interfaces, kept, ordered[..k + 1]) == if s !in c && free.Some? then c[s := free.value] else c
  {
    hide Eligible, FirstFree;
    assert ordered[..k + 1][..k] == ordered[..k];
  }

  method FillLoop(interfaces: map<Bytes, Interface>, kept: Assignment, taken: set<Address>, ordered: seq<Selector>)
    returns (chosen: Assignment)
    requires taken == kept.Values
    ensures chosen == Fill(interfaces, kept, ordered)
  {
    chosen := kept;
    var used := taken;
    assert Fill(interfaces, kept, ordered[..0]) == kept;
    hide Fill, Eligible, FirstFree;
    for k := 0 to |ordered|
      invariant chosen == Fill(interfaces, kept, ordered[..k]) && used == chosen.Values
    {
      FillNext(interfaces, kept, ordered, k);
      var s := ordered[k];
      if s !in chosen {
        var free := FirstFreeLoop(Eligible(interfaces, s), used);
        if free.Some? {
          ValuesAfter(chosen, s, free.value);
          chosen := chosen[s := free.value];
          used := used + {free.value};
        }
      }
    }
    assert ordered[..|ordered|] == ordered;
  }

  // ---- the interfaces ----

  /** Entries without an index or a name are skipped. */
  predicate Listed(d: Device) {
    d.index >= 1 && d.name != []
  }

  ghost predicate NamesClash(devices: seq<Device>) {
    exists i, j :: 0 <= i < j < |devices| && Listed(devices[i]) && Listed(devices[j]) && devices[i].name == devices[j].name
  }

  /** `byName` holds exactly the listed devices. */
  ghost predicate Indexes(byName: map<Bytes, Device>, devices: seq<Device>) {
    && (forall n | n in byName :: byName[n].name == n && byName[n] in devices && Listed(byName[n]))
    && (forall d | d in devices && Listed(d) :: d.name in byName && byName[d.name] == d)
  }

  lemma IndexMore(byName: map<Bytes, Device>, devices: seq<Device>, d: Device)
    requires Indexes(byName, devices) && !NamesClash(devices)
    ensures !Listed(d) ==> Indexes(byName, devices + [d]) && !NamesClash(devices + [d])
    ensures Listed(d) && d.name !in byName ==> Indexes(byName[d.name := d], devices + [d]) && !NamesClash(devices + [d])
    ensures Listed(d) && d.name in byName ==> NamesClash(devices + [d])
  {
    var more := devices + [d];
    assert more[|devices|] == d && forall i | 0 <= i < |devices| :: more[i] == devices[i];
    if Listed(d) && d.name in byName {
      var i :| 0 <= i < |devices| && devices[i] == byName[d.name];
      assert Listed(more[i]) && Listed(more[|devices|]) && more[i].name == more[|devices|].name;
    }
  }

  lemma ClashGrows(devices: seq<Device>, k: nat)
    requires k <= |devices| && NamesClash(devices[..k])
    ensures NamesClash(devices)
  {
    var i, j :| 0 <= i < j < k && Listed(devices[..k][i]) && Listed(devices[..k][j]) && devices[..k][i].name == devices[..k][j].name;
    assert Listed(devices[i]) && Listed(devices[j]) && devices[i].name == devices[j].name;
  }

  method IndexByName(devices: seq<Device>) returns (r: Option<map<Bytes, Device>>)
    ensures r.None? <==> NamesClash(devices)
    ensures r.Some? ==> Indexes(r.value, devices)
  {
    var byName: map<Bytes, Device> := map[];
    assert Indexes(byName, devices[..0]) && !NamesClash(devices[..0]);
    hide Indexes, NamesClash;
    for k := 0 to |devices|
      invariant Indexes(byName, devices[..k]) && !NamesClash(devices[..k])
    {
      var d := devices[k];
      IndexMore(byName, devices[..k], d);
      assert devices[..k + 1] == devices[..k] + [d];
      if Listed(d) {
        if d.name in byName {
          ClashGrows(devices, k + 1);
          return None;
        }
        byName := byName[d.name := d];
      }
    }
    assert devices[..|devices|] == devices;
    return Some(byName);
  }

  /** A selector's interface is up and not loopback, and its addresses cannot be read. */
  predicate Unreadable(byName: map<Bytes, Device>, s: Selector) {
    s.iface in byName && byName[s.iface].up && !byName[s.iface].loopback && byName[s.iface].addresses.None?
  }

  function Usable(byName: map<Bytes, Device>): map<Bytes, Interface>
    requires forall n | n in byName :: byName[n].index >= 1
  {
    map n | n in byName ::
      var d := byName[n]; Interface(d.index, d.up, d.loopback, if d.addresses.Some? then d.addresses.value else [])
  }

  method AnyUnreadable(byName: map<Bytes, Device>, ordered: seq<Selector>) returns (r: bool)
    ensures r <==> exists s :: s in ordered && Unreadable(byName, s)
  {
    for k := 0 to |ordered|
      invariant forall i | 0 <= i < k :: !Unreadable(byName, ordered[i])
    {
      if Unreadable(byName, ordered[k]) { return true; }
    }
    return false;
  }

  // ---- what is advertised ----

  datatype Key = Key(index: nat, ipv6: bool, linkLocal: bool)

  function KeyOf(interfaces: map<Bytes, Interface>, s: Selector): Key
    requires s.iface in interfaces
  {
    Key(interfaces[s.iface].index, s.ipv6, s.linkLocal)
  }

  ghost predicate OnInterfaces(interfaces: map<Bytes, Interface>, c: Assignment) {
    forall s | s in c :: s.iface in interfaces
  }

  /** For every interface, family and scope with a binding, the least bound address, and nothing else. */
  ghost predicate AdvertisesLeast(interfaces: map<Bytes, Interface>, c: Assignment, done: set<Selector>, advertised: map<Key, Address>)
    requires OnInterfaces(interfaces, c)
  {
    && (forall s | s in c && s in done ::
          KeyOf(interfaces, s) in advertised && advertised[KeyOf(interfaces, s)].value <= c[s].value)
    && (forall k | k in advertised :: exists s :: s in c && s in done && KeyOf(interfaces, s) == k && c[s] == advertised[k])
  }

  method Advertise(interfaces: map<Bytes, Interface>, c: Assignment, ordered: seq<Selector>) returns (advertised: map<Key, Address>)
    requires OnInterfaces(interfaces, c) && forall s | s in c :: s in ordered
    ensures AdvertisesLeast(interfaces, c, c.Keys, advertised)
  {
    advertised := map[];
    ghost var done: set<Selector> := {};
    for i := 0 to |ordered|
      invariant AdvertisesLeast(interfaces, c, done, advertised)
      invariant done == set k | 0 <= k < i :: ordered[k]
    {
      var s := ordered[i];
      ghost var before := advertised;
      if s in c {
        var key := KeyOf(interfaces, s);
        if key !in advertised || c[s].value < advertised[key].value {
          advertised := advertised[key := c[s]];
        }
      }
      AdvertiseMore(interfaces, c, done, s, before, advertised);
      done := done + {s};
    }
    assert forall s | s in c :: s in done;
  }

  lemma AdvertiseMore(interfaces: map<Bytes, Interface>, c: Assignment, done: set<Selector>, s: Selector,
                      before: map<Key, Address>, after: map<Key, Address>)
    requires OnInterfaces(interfaces, c) && AdvertisesLeast(interfaces, c, done, before)
    requires if s !in c then after == before
             else var key := KeyOf(interfaces, s);
               after == if key !in before || c[s].value < before[key].value then before[key := c[s]] else before
    ensures AdvertisesLeast(interfaces, c, done + {s}, after)
  {
    forall k | k in after ensures exists x :: x in c && x in done + {s} && KeyOf(interfaces, x) == k && c[x] == after[k] {
      if k in before && after[k] == before[k] {
        var x :| x in c && x in done && KeyOf(interfaces, x) == k && c[x] == before[k];
        assert x in done + {s};
      } else {
        assert s in c && s in done + {s} && KeyOf(interfaces, s) == k && c[s] == after[k];
      }
    }
  }

  // ---- the refresh ----

  datatype Selection = Selection(bindings: Assignment, advertised: map<Key, Address>)

  /** The assignment proper, for sorted selectors. */
  method Assign(selectors: seq<Selector>, ordered: seq<Selector>, previous: Assignment, interfaces: map<Bytes, Interface>)
    returns (chosen: Assignment)
    requires multiset(ordered) == multiset(selectors)
    ensures chosen == Refreshed(interfaces, previous, ordered)
    ensures Injective(chosen) && AllEligible(interfaces, chosen) && forall s | s in chosen :: s in selectors && s in ordered
    ensures Injective(previous) ==>
              forall s | s in selectors && s in previous && previous[s] in Eligible(interfaces, s) ::
                s in chosen && chosen[s] == previous[s]
  {
    var kept, used := KeepLoop(interfaces, previous, ordered);
    chosen := FillLoop(interfaces, kept, used, ordered);
    RefreshedSound(interfaces, previous, ordered);
    hide Eligible, Before, Keep, Fill, Distinct;
    assert forall s :: s in ordered <==> s in multiset(ordered);
    assert forall s :: s in selectors <==> s in multiset(selectors);
    if Injective(previous) {
      forall s | s in selectors && s in previous && previous[s] in Eligible(interfaces, s)
        ensures s in chosen && chosen[s] == previous[s]
      {
        PreviousBindingsKept(interfaces, previous, ordered, s);
      }
    }
  }

  lemma EligibleOnInterfaces(interfaces: map<Bytes, Interface>, c: Assignment)
    requires AllEligible(interfaces, c)
    ensures OnInterfaces(interfaces, c)
  {
    forall s | s in c ensures s.iface in interfaces { assert c[s] in Eligible(interfaces, s); }
  }

  /** The refresh: every refusal, and otherwise the sorted selectors' assignment with the least address of each
      interface, family and scope. */
  method RefreshSelection(selectors: seq<Selector>, previous: Assignment, port: nat, devices: seq<Device>)
    returns (r: Option<Selection>, ghost byName: map<Bytes, Device>)
    ensures r.Some? ==> Indexes(byName, devices)
    ensures selectors == [] || port == 0 || NamesClash(devices) || !Distinct(selectors) ==> r.None?
    ensures r.None? ==>
              || selectors == [] || port == 0 || NamesClash(devices) || !Distinct(selectors)
              || (Indexes(byName, devices) && exists s :: s in selectors && Unreadable(byName, s))
    ensures r.Some? ==> forall s | s in selectors :: !Unreadable(byName, s)
    ensures r.Some? ==>
              && var interfaces := Usable(byName);
              && var c := r.value.bindings;
              && (exists ordered :: Ordered(ordered) && multiset(ordered) == multiset(selectors) && c == Refreshed(interfaces, previous, ordered))
              && Injective(c) && AllEligible(interfaces, c) && (forall s | s in c :: s in selectors)
              && OnInterfaces(interfaces, c) && AdvertisesLeast(interfaces, c, c.Keys, r.value.advertised)
              && (Injective(previous) ==>
                    forall s | s in selectors && s in previous && previous[s] in Eligible(interfaces, s) :: s in c && c[s] == previous[s])
  {
    byName := map[];
    if selectors == [] || port == 0 { return None, byName; }
    var index := IndexByName(devices);
    if index.None? { return None, byName; }
    byName := index.value;
    var ordered := SortSelectors(selectors);
    hide Before, Eligible, Select, Keep, Fill, Refreshed, AdvertisesLeast, NamesClash;
    SameElements(ordered, selectors);
    var repeated := RepeatedSelector(ordered);
    if Distinct(ordered) { DistinctPermutation(ordered, selectors); }
    if Distinct(selectors) { DistinctPermutation(selectors, ordered); }
    if repeated { return None, byName; }
    var unreadable := AnyUnreadable(index.value, ordered);
    if unreadable { return None, byName; }
    var interfaces := Usable(index.value);
    var chosen := Assign(selectors, ordered, previous, interfaces);
    EligibleOnInterfaces(interfaces, chosen);
    var advertised := Advertise(interfaces, chosen, ordered);
    return Some(Selection(chosen, advertised)), byName;
  }

  lemma SameElements<T>(a: seq<T>, b: seq<T>)
    requires multiset(a) == multiset(b)
    ensures forall x :: x in a <==> x in b
  {
    assert forall x :: x in a <==> x in multiset(a);
    assert forall x :: x in b <==> x in multiset(b);
  }

  lemma DistinctPermutation<T>(a: seq<T>, b: seq<T>)
    requires multiset(a) == multiset(b) && Distinct(a)
    ensures Distinct(b)
  {
    forall i, j | 0 <= i < j < |b| ensures b[i] != b[j] {
      if b[i] == b[j] {
        assert b == b[..j] + [b[j]] + b[j + 1..];
        assert b[i] in multiset(b[..j]);
        assert multiset(b)[b[i]] >= 2;
        OnceAtMost(a, b[i]);
      }
    }
  }

  lemma {:induction false} OnceAtMost<T>(a: seq<T>, x: T)
    requires Distinct(a)
    ensures multiset(a)[x] <= 1
  {
    if a != [] {
      OnceAtMost(a[1..], x);
      assert a == [a[0]] + a[1..];
      assert a[0] !in a[1..];
    }
  }
}
