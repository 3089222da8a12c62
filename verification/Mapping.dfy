/** Element-wise maps over sequences, what they do to multisets, and a fact about set sizes. */
module Mapping {

  function Map<A, B>(f: A -> B, s: seq<A>): (r: seq<B>)
    ensures |r| == |s|
    ensures forall i | 0 <= i < |s| :: r[i] == f(s[i])
  {
    if s == [] then [] else [f(s[0])] + Map(f, s[1..])
  }

  function Remove<A>(t: seq<A>, i: nat): (r: seq<A>)
    requires i < |t|
    ensures |r| == |t| - 1 && multiset(t) == multiset(r) + multiset{t[i]}
  {
    assert t == t[..i] + [t[i]] + t[i + 1..];
    t[..i] + t[i + 1..]
  }

  lemma MapRemove<A, B>(f: A -> B, t: seq<A>, i: nat)
    requires i < |t|
    ensures Map(f, Remove(t, i)) == Remove(Map(f, t), i)
  {
    var left, right := Map(f, Remove(t, i)), Remove(Map(f, t), i);
    hide *;
    forall k | 0 <= k < |t| - 1 ensures left[k] == right[k] {
      RemovedAt(t, i, k);
      RemovedAt(Map(f, t), i, k);
    }
    assert left == right;
  }

  lemma RemovedAt<A>(t: seq<A>, i: nat, k: nat)
    requires i < |t| && k < |t| - 1
    ensures Remove(t, i)[k] == if k < i then t[k] else t[k + 1]
  {
    RemoveIs(t, i);
    hide *;
  }

  lemma RemoveIs<A>(t: seq<A>, i: nat)
    requires i < |t|
    ensures Remove(t, i) == t[..i] + t[i + 1..]
  {
  }

  lemma SameLength<A>(s: seq<A>, t: seq<A>)
    requires multiset(s) == multiset(t)
    ensures |s| == |t|
  {
    assert |s| == |multiset(s)| && |t| == |multiset(t)|;
  }

  lemma RemoveBoth<A>(s: seq<A>, t: seq<A>) returns (i: nat)
    requires multiset(s) == multiset(t) && s != []
    ensures i < |t| && t[i] == s[0] && multiset(Remove(s, 0)) == multiset(Remove(t, i))
  {
    assert s[0] in multiset(t);
    i :| 0 <= i < |t| && t[i] == s[0];
    assert multiset(Remove(s, 0)) == multiset(s) - multiset{s[0]};
    assert multiset(Remove(t, i)) == multiset(t) - multiset{s[0]};
  }

  /** Mapping carries permutations to permutations. */
  lemma {:induction false} MapPermutes<A, B>(f: A -> B, s: seq<A>, t: seq<A>)
    requires multiset(s) == multiset(t)
    ensures multiset(Map(f, s)) == multiset(Map(f, t))
    decreases |s|
  {
    SameLength(s, t);
    hide Remove;
    if s != [] {
      var i := RemoveBoth(s, t);
      MapPermutes(f, Remove(s, 0), Remove(t, i));
      MapRemove(f, s, 0);
      MapRemove(f, t, i);
      hide Map;
      assert Map(f, s)[0] == Map(f, t)[i];
    }
  }

  lemma MapInverts<A, B>(f: A -> B, g: B -> A, s: seq<A>)
    requires forall i | 0 <= i < |s| :: g(f(s[i])) == s[i]
    ensures Map(g, Map(f, s)) == s
  {
  }

  lemma SubsetSize<T>(a: set<T>, b: set<T>)
    requires a <= b
    ensures |a| <= |b|
  {
    assert b == a + (b - a);
  }
}
