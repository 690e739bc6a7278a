/**
 The chorus keeps its active modes in a JavaScript `Set<number>`. Such a set
 iterates in insertion order, so it is an ordered list without duplicates.
 This module models the set's `delete` and `add` on a `seq<int>` whose order
 is the insertion order; `has` is sequence membership (`in`).
 */
module InsertionOrderedSet {

  /** The representation invariant of a JavaScript set: no value occurs twice. */
  predicate Distinct(s: seq<int>) {
    |s| == 0 || (s[0] !in s[1..] && Distinct(s[1..]))
  }

  /** `set.delete(x)`: drops `x` and keeps every other value in its insertion order. */
  function Delete(s: seq<int>, x: int): (r: seq<int>)
    ensures forall y :: y in r <==> y in s && y != x
    ensures |r| <= |s|
    ensures x in s ==> |r| < |s|
    ensures x !in s ==> r == s
    ensures Distinct(s) ==> Distinct(r)
    ensures |s| > 0 && s[|s| - 1] != x ==> |r| > 0 && r[|r| - 1] == s[|s| - 1]
  {
    if |s| == 0 then []
    else if s[0] == x then Delete(s[1..], x)
    else
      var rest := Delete(s[1..], x);
      assert ([s[0]] + rest)[1..] == rest;
      [s[0]] + rest
  }

  /** `set.add(x)`: a new value goes to the end of the iteration order; an existing one stays where it is. */
  function Add(s: seq<int>, x: int): (r: seq<int>)
    ensures forall y :: y in r <==> y in s || y == x
    ensures x in s ==> r == s
    ensures x !in s ==> |r| == |s| + 1 && r[..|s|] == s && r[|s|] == x
    ensures Distinct(s) ==> Distinct(r)
  {
    if x in s then s
    else
      AppendKeepsDistinct(s, x);
      s + [x]
  }

  /** Appending a value that is not yet present keeps a list duplicate-free. */
  lemma {:induction false} AppendKeepsDistinct(s: seq<int>, x: int)
    requires x !in s
    ensures Distinct(s) ==> Distinct(s + [x])
  {
    if |s| > 0 && Distinct(s) {
      AppendKeepsDistinct(s[1..], x);
      assert (s + [x])[1..] == s[1..] + [x];
    }
  }

  /** Deleting the value at position `i` of a duplicate-free set closes the gap and changes nothing else. */
  lemma {:induction false} DeleteAt(s: seq<int>, i: nat)
    requires Distinct(s)
    requires i < |s|
    ensures Delete(s, s[i]) == s[..i] + s[i + 1..]
  {
    if i == 0 {
      DeleteFirst(s);
    } else {
      DeleteAt(s[1..], i - 1);
      DeleteKeepsHead(s, i);
    }
  }

  /** Deleting the first value of a duplicate-free set leaves the rest. */
  lemma DeleteFirst(s: seq<int>)
    requires Distinct(s) && 0 < |s|
    ensures Delete(s, s[0]) == s[..0] + s[1..]
  {
    assert s[..0] + s[1..] == s[1..];
  }

  /** One step of `DeleteAt`: the head, which differs from the deleted value, stays in front of the tail's result. */
  lemma DeleteKeepsHead(s: seq<int>, i: nat)
    requires Distinct(s) && 0 < i < |s|
    requires Delete(s[1..], s[1..][i - 1]) == s[1..][..i - 1] + s[1..][i..]
    ensures Delete(s, s[i]) == s[..i] + s[i + 1..]
  {
    assert s[1..][i - 1] == s[i];
    assert s[0] != s[i];
    RejoinHead(s, i);
  }

  /** Putting the head back in front of the tail with its `(i-1)`-th element cut out cuts out the `i`-th element. */
  lemma RejoinHead(s: seq<int>, i: nat)
    requires 0 < i < |s|
    ensures [s[0]] + (s[1..][..i - 1] + s[1..][i..]) == s[..i] + s[i + 1..]
  {
    var front, back := s[1..][..i - 1], s[1..][i..];
    assert front == s[1..i] && back == s[i + 1..];
    assert [s[0]] + (front + back) == ([s[0]] + front) + back;
    assert [s[0]] + front == s[..i];
  }
}
