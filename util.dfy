/** Small helpers shared by every module: an optional value and Python's list
    operations as they are used by the game (remove-first-equal, delete-at). */
module Util {

  datatype Option<+T> = None | Some(value: T)

  /** Python's `list.remove(x)`: drops the first element equal to `x`. */
  function Remove<T(==)>(s: seq<T>, x: T): (r: seq<T>)
    requires x in s
    ensures |r| == |s| - 1
  {
    assert s == [s[0]] + s[1..];
    if s[0] == x then s[1..]
    else [s[0]] + Remove(s[1..], x)
  }

  /** `Remove` takes exactly one `x` out of the sequence's elements. */
  lemma {:induction false} RemoveCount<T>(s: seq<T>, x: T)
    requires x in s
    ensures multiset(Remove(s, x)) == multiset(s) - multiset{x}
  {
    assert s == [s[0]] + s[1..];
    if s[0] != x {
      RemoveCount(s[1..], x);
      assert Remove(s, x) == [s[0]] + Remove(s[1..], x);
    }
  }

  /** `del s[i]`: the sequence without its `i`-th element. */
  function RemoveAt<T>(s: seq<T>, i: nat): (r: seq<T>)
    requires i < |s|
    ensures |r| == |s| - 1
    ensures forall j :: 0 <= j < i ==> r[j] == s[j]
    ensures forall j :: i <= j < |r| ==> r[j] == s[j + 1]
  {
    s[..i] + s[i + 1..]
  }

  /** Removing the first element equal to `s[i]`, when no earlier element
      equals it, is deleting position `i`. */
  lemma {:induction false} RemoveFirstIsRemoveAt<T>(s: seq<T>, i: nat)
    requires i < |s|
    requires forall j :: 0 <= j < i ==> s[j] != s[i]
    ensures Remove(s, s[i]) == RemoveAt(s, i)
  {
    if i > 0 {
      RemoveFirstIsRemoveAt(s[1..], i - 1);
    }
  }

  /** `s` with the first occurrence of each element of `xs` removed, in turn. */
  function RemoveEach<T(==)>(s: seq<T>, xs: seq<T>): (r: seq<T>)
    requires multiset(xs) <= multiset(s)
    ensures multiset(r) == multiset(s) - multiset(xs)
    decreases |xs|
  {
    if xs == [] then s
    else
      assert xs == [xs[0]] + xs[1..];
      assert multiset(xs) == multiset{xs[0]} + multiset(xs[1..]);
      assert xs[0] in multiset(s);
      RemoveCount(s, xs[0]);
      RemoveEach(Remove(s, xs[0]), xs[1..])
  }

  lemma RemoveEachStep<T>(s: seq<T>, xs: seq<T>)
    requires xs != [] && multiset(xs) <= multiset(s)
    ensures xs[0] in s
    ensures multiset(xs[1..]) <= multiset(Remove(s, xs[0]))
    ensures RemoveEach(s, xs) == RemoveEach(Remove(s, xs[0]), xs[1..])
  {
    assert xs == [xs[0]] + xs[1..];
    assert multiset(xs) == multiset{xs[0]} + multiset(xs[1..]);
    assert xs[0] in multiset(s);
    RemoveCount(s, xs[0]);
  }

  /** Every element left by `Remove` was in the original sequence. */
  lemma RemoveKeeps<T>(s: seq<T>, x: T)
    requires x in s
    ensures forall y :: y in Remove(s, x) ==> y in s
  {
    RemoveCount(s, x);
    forall y | y in Remove(s, x) ensures y in s {
      assert y in multiset(Remove(s, x));
    }
  }

  /** Removing the first element equal to `s[i]` leaves the elements after
      position `i` where they were, shifted down by one. */
  lemma {:induction false} RemoveShiftsTail<T>(s: seq<T>, i: nat)
    requires i < |s|
    ensures Remove(s, s[i])[i..] == s[i + 1..]
  {
    if s[0] != s[i] {
      RemoveShiftsTail(s[1..], i - 1);
      assert Remove(s, s[i]) == [s[0]] + Remove(s[1..], s[i]);
    }
  }
}
