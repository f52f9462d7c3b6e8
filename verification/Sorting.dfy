/** The contract of the standard library's unstable sort, for a strict weak order. */
module Sorting {
  /** `before` is asymmetric and its complement is transitive. */
  ghost predicate WeakOrder<T(!new)>(before: (T, T) -> bool) {
    && (forall a, b :: before(a, b) ==> !before(b, a))
    && (forall a, b, c :: !before(b, a) && !before(c, b) ==> !before(c, a))
  }

  ghost predicate Sorted<T(!new)>(s: seq<T>, before: (T, T) -> bool) {
    forall i, j :: 0 <= i < j < |s| ==> !before(s[j], s[i])
  }

  method Sort<T(==, !new)>(s: seq<T>, before: (T, T) -> bool) returns (t: seq<T>)
    requires WeakOrder(before)
    ensures Sorted(t, before) && multiset(t) == multiset(s)
  {
    t := [];
    for k := 0 to |s|
      invariant Sorted(t, before) && multiset(t) == multiset(s[..k])
    {
      var p := 0;
      while p < |t| && !before(s[k], t[p])
        invariant p <= |t|
        invariant forall i :: 0 <= i < p ==> !before(s[k], t[i])
      {
        p := p + 1;
      }
      InsertSorted(t, p, s[k], before);
      InsertMultiset(t, p, s[k]);
      assert s[..k + 1] == s[..k] + [s[k]];
      t := t[..p] + [s[k]] + t[p..];
    }
    assert s[..|s|] == s;
  }

  lemma InsertMultiset<T>(t: seq<T>, p: nat, x: T)
    requires p <= |t|
    ensures multiset(t[..p] + [x] + t[p..]) == multiset(t) + multiset{x}
  {
    assert t == t[..p] + t[p..];
  }

  lemma InsertSorted<T(!new)>(t: seq<T>, p: nat, x: T, before: (T, T) -> bool)
    requires WeakOrder(before) && Sorted(t, before) && p <= |t|
    requires forall i :: 0 <= i < p ==> !before(x, t[i])
    requires p < |t| ==> before(x, t[p])
    ensures Sorted(t[..p] + [x] + t[p..], before)
  {
    forall i | p <= i < |t| ensures !before(t[i], x) {
      assert !before(t[p], x);
      assert i > p ==> !before(t[i], t[p]);
    }
  }

  /** Two sorted arrangements of the same elements agree at every position up to ties. */
  lemma SortedAgree<T(!new)>(s: seq<T>, t: seq<T>, before: (T, T) -> bool, i: nat)
    requires WeakOrder(before) && Sorted(s, before) && Sorted(t, before)
    requires multiset(s) == multiset(t) && i < |s|
    ensures |s| == |t| && !before(s[i], t[i]) && !before(t[i], s[i])
  {
    assert |s| == |multiset(s)| == |t|;
    NotBefore(s, t, before, i);
    NotBefore(t, s, before, i);
  }

  lemma NotBefore<T(!new)>(s: seq<T>, t: seq<T>, before: (T, T) -> bool, i: nat)
    requires WeakOrder(before) && Sorted(s, before) && Sorted(t, before)
    requires multiset(s) == multiset(t) && |s| == |t| && i < |s|
    ensures !before(s[i], t[i])
  {
    var x := Shared(s, t, i);
    var j, k :| 0 <= j <= i <= k < |t| && s[j] == x == t[k];
    assert !before(s[i], x) && !before(x, t[i]);
  }

  /** `i + 1` elements of `s` cannot all be among the first `i` of `t`. */
  lemma Shared<T>(s: seq<T>, t: seq<T>, i: nat) returns (x: T)
    requires multiset(s) == multiset(t) && |s| == |t| && i < |s|
    ensures x in s[..i + 1] && x in t[i..]
  {
    var few, many := multiset(t[..i]), multiset(s[..i + 1]);
    SubMultiset(many, few);
    x :| many[x] > few[x];
    assert s == s[..i + 1] + s[i + 1..] && t == t[..i] + t[i..];
    assert multiset(s)[x] == many[x] + multiset(s[i + 1..])[x];
    assert multiset(t)[x] == few[x] + multiset(t[i..])[x];
    assert x in many && x in multiset(t[i..]);
  }

  lemma SubMultiset<T>(a: multiset<T>, b: multiset<T>)
    ensures a <= b ==> |a| <= |b|
  {
    assert a <= b ==> b == a + (b - a);
  }
}
