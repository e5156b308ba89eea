/** Sequences kept in order of an integer sort key, as an ordered query returns them. */
module Listing {

  ghost predicate SortedBy<T>(s: seq<T>, key: T -> int) {
    forall i, j :: 0 <= i < j < |s| ==> key(s[i]) <= key(s[j])
  }

  /** Where x goes in s: after every element with a smaller key. */
  function InsertionPoint<T>(x: T, s: seq<T>, key: T -> int): (p: nat)
    ensures p <= |s|
    ensures forall j :: 0 <= j < p ==> key(s[j]) < key(x)
    ensures p < |s| ==> key(x) <= key(s[p])
  {
    if s == [] || key(x) <= key(s[0]) then 0 else 1 + InsertionPoint(x, s[1..], key)
  }

  /** s with x inserted in key order. */
  function InsertBy<T>(x: T, s: seq<T>, key: T -> int): (r: seq<T>)
    requires SortedBy(s, key)
    ensures SortedBy(r, key)
    ensures |r| == |s| + 1
    ensures multiset(r) == multiset(s) + multiset{x}
  {
    var p := InsertionPoint(x, s, key);
    InsertAtPoint(x, s, key, p);
    s[..p] + [x] + s[p..]
  }

  /** Inserting at the insertion point keeps the order and adds exactly x. */
  lemma InsertAtPoint<T>(x: T, s: seq<T>, key: T -> int, p: nat)
    requires SortedBy(s, key) && p == InsertionPoint(x, s, key)
    ensures SortedBy(s[..p] + [x] + s[p..], key)
    ensures multiset(s[..p] + [x] + s[p..]) == multiset(s) + multiset{x}
  {
    InsertKeepsOrder(x, s, key, p);
    InsertAddsOne(x, s, p);
  }

  lemma InsertKeepsOrder<T>(x: T, s: seq<T>, key: T -> int, p: nat)
    requires SortedBy(s, key) && p == InsertionPoint(x, s, key)
    ensures SortedBy(s[..p] + [x] + s[p..], key)
  {
    var r := s[..p] + [x] + s[p..];
    forall i, j | 0 <= i < j < |r|
      ensures key(r[i]) <= key(r[j])
    {
      InsertedAt(x, s, p, i);
      InsertedAt(x, s, p, j);
      if i < p && p < j {
        assert key(s[i]) < key(x) <= key(s[p]) <= key(s[j - 1]);
      } else if i == p {
        assert key(x) <= key(s[p]) <= key(s[j - 1]);
      }
    }
  }

  lemma InsertAddsOne<T>(x: T, s: seq<T>, p: nat)
    requires p <= |s|
    ensures multiset(s[..p] + [x] + s[p..]) == multiset(s) + multiset{x}
  {
    assert s == s[..p] + s[p..];
  }

  /** The element at position j of s with x inserted at position p. */
  lemma InsertedAt<T>(x: T, s: seq<T>, p: nat, j: int)
    requires p <= |s| && 0 <= j <= |s|
    ensures (s[..p] + [x] + s[p..])[j] == if j < p then s[j] else if j == p then x else s[j - 1]
  {
  }

  /** The elements of an insertion are those of s and x. */
  lemma InsertByMembers<T>(x: T, s: seq<T>, key: T -> int, y: T)
    requires SortedBy(s, key)
    ensures y in InsertBy(x, s, key) <==> y in s || y == x
  {
    assert y in InsertBy(x, s, key) <==> y in multiset(InsertBy(x, s, key));
    assert y in s <==> y in multiset(s);
  }
}
