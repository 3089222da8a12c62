/** Records ordered by covered-table position and then by primary-key bytes. */
module KeyedOrder {
  import opened Bytes
  import opened Mapping

  datatype Keyed<T> = Keyed(table: nat, key: Bytes, payload: T)

  predicate Before<T>(a: Keyed<T>, b: Keyed<T>) {
    a.table < b.table || (a.table == b.table && Less(a.key, b.key))
  }

  predicate SameKey<T>(a: Keyed<T>, b: Keyed<T>) {
    a.table == b.table && a.key == b.key
  }

  lemma BeforeTransitive<T>(a: Keyed<T>, b: Keyed<T>, c: Keyed<T>)
    requires Before(a, b) && Before(b, c)
    ensures Before(a, c)
  {
    if a.table == b.table == c.table {
      LessTransitive(a.key, b.key, c.key);
    }
  }

  lemma BeforeTrichotomy<T>(a: Keyed<T>, b: Keyed<T>)
    ensures !(Before(a, b) && Before(b, a)) && !Before(a, a)
    ensures Before(a, b) || Before(b, a) || SameKey(a, b)
    ensures SameKey(a, b) ==> !Before(a, b)
  {
    LessTrichotomy(a.key, b.key);
    LessTrichotomy(a.key, a.key);
  }

  predicate StrictlySorted<T>(s: seq<Keyed<T>>) {
    forall i, j | 0 <= i < j < |s| :: Before(s[i], s[j])
  }

  /** What sorting promises even when keys repeat. */
  predicate Sorted<T>(s: seq<Keyed<T>>) {
    forall i, j | 0 <= i < j < |s| :: Before(s[i], s[j]) || SameKey(s[i], s[j])
  }

  predicate DistinctKeys<T>(s: seq<Keyed<T>>) {
    forall i, j | 0 <= i < j < |s| :: !SameKey(s[i], s[j])
  }

  function InsertSorted<T>(x: Keyed<T>, s: seq<Keyed<T>>): (r: seq<Keyed<T>>)
    ensures multiset(r) == multiset(s) + multiset{x}
  {
    if s == [] || Before(x, s[0]) then [x] + s
    else
      assert s == [s[0]] + s[1..];
      [s[0]] + InsertSorted(x, s[1..])
  }

  /** The order sort.Slice establishes; ties are impossible once keys are distinct. */
  function Sort<T>(s: seq<Keyed<T>>): (r: seq<Keyed<T>>)
    ensures multiset(r) == multiset(s)
  {
    if s == [] then []
    else
      assert s == [s[0]] + s[1..];
      InsertSorted(s[0], Sort(s[1..]))
  }

  lemma SortedSplit<T>(x: Keyed<T>, s: seq<Keyed<T>>)
    ensures Sorted([x] + s) <==> Sorted(s) && forall y | y in s :: Before(x, y) || SameKey(x, y)
  {
    var t := [x] + s;
    assert forall i | 0 <= i < |s| :: t[i + 1] == s[i];
    if Sorted(t) {
      forall i, j | 0 <= i < j < |s| ensures Before(s[i], s[j]) || SameKey(s[i], s[j]) {
        assert t[i + 1] == s[i] && t[j + 1] == s[j];
      }
      forall y | y in s ensures Before(x, y) || SameKey(x, y) {
        var i :| 0 <= i < |s| && s[i] == y;
        assert t[0] == x && t[i + 1] == y;
      }
    }
  }

  lemma {:induction false} InsertKeepsSorted<T>(x: Keyed<T>, s: seq<Keyed<T>>)
    requires Sorted(s)
    ensures Sorted(InsertSorted(x, s))
  {
    if s != [] {
      var head, rest := s[0], s[1..];
      assert s == [head] + rest;
      SortedSplit(head, rest);
      if Before(x, head) {
        forall y | y in s ensures Before(x, y) {
          if y != head && Before(head, y) { BeforeTransitive(x, head, y); }
        }
        SortedSplit(x, s);
      } else {
        InsertKeepsSorted(x, rest);
        BeforeTrichotomy(x, head);
        var r := InsertSorted(x, rest);
        forall y | y in r ensures Before(head, y) || SameKey(head, y) {
          assert y in multiset(r);
        }
        SortedSplit(head, r);
      }
    } else {
      SortedSplit(x, s);
    }
  }

  lemma {:induction false} SortSorts<T>(s: seq<Keyed<T>>)
    ensures Sorted(Sort(s))
  {
    if s != [] {
      SortSorts(s[1..]);
      InsertKeepsSorted(s[0], Sort(s[1..]));
    }
  }

  /** Checking neighbours is enough to find every repeated key. */
  lemma NeighboursSuffice<T>(s: seq<Keyed<T>>)
    requires Sorted(s)
    ensures StrictlySorted(s) <==> forall i | 1 <= i < |s| :: !SameKey(s[i - 1], s[i])
    ensures StrictlySorted(s) <==> DistinctKeys(s)
  {
    if StrictlySorted(s) {
      forall i, j | 0 <= i < j < |s| ensures !SameKey(s[i], s[j]) { BeforeTrichotomy(s[i], s[j]); }
    } else {
      var i, j :| 0 <= i < j < |s| && !Before(s[i], s[j]);
      var k := i + 1;
      assert SameKey(s[i], s[j]);
      BeforeTrichotomy(s[i], s[k]);
      if !SameKey(s[i], s[k]) && k < j {
        assert Before(s[i], s[k]);
        if Before(s[k], s[j]) { BeforeTransitive(s[i], s[k], s[j]); }
      }
    }
  }

  lemma DistinctKeysOfPermutation<T>(s: seq<Keyed<T>>, t: seq<Keyed<T>>)
    requires multiset(s) == multiset(t) && DistinctKeys(s)
    ensures DistinctKeys(t)
  {
    forall i, j | 0 <= i < j < |t| ensures !SameKey(t[i], t[j]) {
      if SameKey(t[i], t[j]) {
        if t[i] == t[j] {
          TwiceInMultiset(t, i, j);
          OnceInMultiset(s, t[i]);
        } else {
          assert t[i] in multiset(s) && t[j] in multiset(s);
          var a :| 0 <= a < |s| && s[a] == t[i];
          var b :| 0 <= b < |s| && s[b] == t[j];
        }
      }
    }
  }

  lemma TwiceInMultiset<T>(t: seq<Keyed<T>>, i: nat, j: nat)
    requires i < j < |t| && t[i] == t[j]
    ensures multiset(t)[t[i]] >= 2
  {
    assert t == t[..j] + [t[j]] + t[j + 1..];
    assert t[i] == t[..j][i];
    assert t[i] in multiset(t[..j]);
  }

  lemma {:induction false} OnceInMultiset<T>(s: seq<Keyed<T>>, x: Keyed<T>)
    requires DistinctKeys(s)
    ensures multiset(s)[x] <= 1
  {
    if s != [] {
      assert s == [s[0]] + s[1..];
      OnceInMultiset(s[1..], x);
      forall i | 0 <= i < |s| - 1 ensures s[1..][i] != s[0] { assert !SameKey(s[0], s[i + 1]); }
    }
  }

  lemma SameFirst<T>(s: seq<Keyed<T>>, t: seq<Keyed<T>>)
    requires StrictlySorted(s) && StrictlySorted(t) && multiset(s) == multiset(t) && s != [] && t != []
    ensures s[0] == t[0]
  {
    assert s[0] in multiset(t) && t[0] in multiset(s);
    var i :| 0 <= i < |t| && t[i] == s[0];
    var j :| 0 <= j < |s| && s[j] == t[0];
    BeforeTrichotomy(s[0], t[0]);
  }

  /** A strictly sorted arrangement of given records is unique, so input order cannot matter. */
  lemma {:induction false} SortedArrangementUnique<T>(s: seq<Keyed<T>>, t: seq<Keyed<T>>)
    requires StrictlySorted(s) && StrictlySorted(t) && multiset(s) == multiset(t)
    ensures s == t
  {
    SameLength(s, t);
    if s != [] {
      SameFirst(s, t);
      SortedTail(s);
      SortedTail(t);
      hide *;
      WithoutFirst(s);
      WithoutFirst(t);
      SortedArrangementUnique(s[1..], t[1..]);
    }
  }

  lemma SortedTail<T>(s: seq<Keyed<T>>)
    requires StrictlySorted(s) && s != []
    ensures StrictlySorted(s[1..])
  {
    hide Before;
    forall i, j | 0 <= i < j < |s| - 1 ensures Before(s[1..][i], s[1..][j]) {
      assert Before(s[i + 1], s[j + 1]);
    }
  }

  lemma WithoutFirst<T>(s: seq<Keyed<T>>)
    requires s != []
    ensures s == [s[0]] + s[1..] && multiset(s[1..]) == multiset(s) - multiset{s[0]}
  {
    assert s == [s[0]] + s[1..];
  }

  lemma SortIgnoresOrder<T>(s: seq<Keyed<T>>, t: seq<Keyed<T>>)
    requires multiset(s) == multiset(t) && DistinctKeys(s)
    ensures Sort(s) == Sort(t) && StrictlySorted(Sort(s))
  {
    SortSorts(s);
    SortSorts(t);
    DistinctKeysOfPermutation(s, Sort(s));
    DistinctKeysOfPermutation(s, Sort(t));
    NeighboursSuffice(Sort(s));
    NeighboursSuffice(Sort(t));
    SortedArrangementUnique(Sort(s), Sort(t));
  }
}
