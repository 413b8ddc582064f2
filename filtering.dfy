/** Removal by identifier from an ordered list: the `xs.filter(x => x.id !== id)`
    that the application uses both for its session history and for its click
    effects. The key function picks the identifier out of an element. */
module Filtering {

  /** The elements of `s` whose key differs from `id`, in their original order.
      The length bound below is not the whole specification: together,
      `RejectMultiplicity` (each other element keeps its number of occurrences,
      those with the id have none) and `RejectIsSubsequence` (the order is
      kept) determine the result uniquely. */
  function Reject<T>(s: seq<T>, key: T -> int, id: int): (r: seq<T>)
    ensures |r| <= |s|
  {
    if s == [] then []
    else if key(s[0]) == id then Reject(s[1..], key, id)
    else [s[0]] + Reject(s[1..], key, id)
  }

  /** `r` can be obtained from `s` by deleting elements, without reordering. */
  ghost predicate IsSubsequence<T>(r: seq<T>, s: seq<T>)
    decreases |s|
  {
    if r == [] then true
    else if s == [] then false
    else (r[0] == s[0] && IsSubsequence(r[1..], s[1..])) || IsSubsequence(r, s[1..])
  }

  /** Every element whose key is `id` disappears and every other element keeps
      exactly the number of occurrences it had. */
  lemma {:induction false} RejectMultiplicity<T>(s: seq<T>, key: T -> int, id: int, x: T)
    ensures multiset(Reject(s, key, id))[x] == if key(x) == id then 0 else multiset(s)[x]
  {
    if s != [] {
      RejectMultiplicity(s[1..], key, id, x);
      assert s == [s[0]] + s[1..];
    }
  }

  /** An element survives exactly when it was there and its key is not `id`. */
  lemma RejectMembership<T>(s: seq<T>, key: T -> int, id: int, x: T)
    ensures x in Reject(s, key, id) <==> x in s && key(x) != id
  {
    RejectMultiplicity(s, key, id, x);
  }

  /** The survivors are in their original relative order. */
  lemma {:induction false} RejectIsSubsequence<T>(s: seq<T>, key: T -> int, id: int)
    ensures IsSubsequence(Reject(s, key, id), s)
  {
    if s != [] {
      RejectIsSubsequence(s[1..], key, id);
      var r := Reject(s[1..], key, id);
      if key(s[0]) == id {
        if r != [] {
          assert IsSubsequence(r, s[1..]);
        }
      } else {
        assert ([s[0]] + r)[1..] == r;
      }
    }
  }

  /** Removing leaves the list unchanged exactly when no element carries `id`. */
  lemma RejectUnchangedIffAbsent<T>(s: seq<T>, key: T -> int, id: int)
    ensures Reject(s, key, id) == s <==> forall i :: 0 <= i < |s| ==> key(s[i]) != id
  {
    if forall i :: 0 <= i < |s| ==> key(s[i]) != id {
      RejectOfAbsent(s, key, id);
    } else {
      var i :| 0 <= i < |s| && key(s[i]) == id;
      RejectMembership(s, key, id, s[i]);
    }
  }

  lemma {:induction false} RejectOfAbsent<T>(s: seq<T>, key: T -> int, id: int)
    requires forall i :: 0 <= i < |s| ==> key(s[i]) != id
    ensures Reject(s, key, id) == s
  {
    if s != [] {
      RejectOfAbsent(s[1..], key, id);
      assert s == [s[0]] + s[1..];
    }
  }

  /** Removing twice is the same as removing once. */
  lemma RejectIdempotent<T>(s: seq<T>, key: T -> int, id: int)
    ensures Reject(Reject(s, key, id), key, id) == Reject(s, key, id)
  {
    var r := Reject(s, key, id);
    forall i | 0 <= i < |r|
      ensures key(r[i]) != id
    {
      RejectMembership(s, key, id, r[i]);
    }
    RejectOfAbsent(r, key, id);
  }

  /** Removal distributes over concatenation: what happens to one part of the
      list does not depend on the other part. */
  lemma {:induction false} RejectAppend<T>(a: seq<T>, b: seq<T>, key: T -> int, id: int)
    ensures Reject(a + b, key, id) == Reject(a, key, id) + Reject(b, key, id)
  {
    if a == [] {
      assert a + b == b;
    } else {
      RejectAppend(a[1..], b, key, id);
      assert (a + b)[1..] == a[1..] + b;
    }
  }
}
