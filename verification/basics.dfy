/** Failure-compatible wrappers and small sequence helpers shared by the combat model. */
module Basics {

  /** An optional value (Java's `Optional`). */
  datatype Option<+T> = None | Some(value: T)

  /** The outcome of an operation that can throw in the original program. */
  datatype Result<+T, +E> = Ok(value: T) | Err(error: E)

  /** `xs` without its first occurrence of `x` (Java's `List.remove(Object)`). */
  function RemoveFirst<T(==)>(xs: seq<T>, x: T): (r: seq<T>)
    ensures x in xs ==> |r| == |xs| - 1
    ensures x !in xs ==> r == xs
    ensures multiset(r) == multiset(xs) - multiset{x}
    ensures forall y :: y in r ==> y in xs
  {
    if |xs| == 0 then xs
    else if xs[0] == x then
      RemoveFirstHead(xs, x);
      xs[1..]
    else
      var rest := RemoveFirst(xs[1..], x);
      RemoveFirstCons(xs, x, rest);
      [xs[0]] + rest
  }

  lemma RemoveFirstHead<T>(xs: seq<T>, x: T)
    requires |xs| > 0 && xs[0] == x
    ensures multiset(xs[1..]) == multiset(xs) - multiset{x}
    ensures forall y :: y in xs[1..] ==> y in xs
  {
    assert xs == [xs[0]] + xs[1..];
  }

  /** Keeping a head other than `x` in front of a removal from the tail is a removal from the whole. */
  lemma RemoveFirstCons<T>(xs: seq<T>, x: T, rest: seq<T>)
    requires |xs| > 0 && xs[0] != x
    requires x in xs[1..] ==> |rest| == |xs[1..]| - 1
    requires x !in xs[1..] ==> rest == xs[1..]
    requires multiset(rest) == multiset(xs[1..]) - multiset{x}
    requires forall y :: y in rest ==> y in xs[1..]
    ensures x in xs ==> |[xs[0]] + rest| == |xs| - 1
    ensures x !in xs ==> [xs[0]] + rest == xs
    ensures multiset([xs[0]] + rest) == multiset(xs) - multiset{x}
    ensures forall y :: y in [xs[0]] + rest ==> y in xs
  {
    assert xs == [xs[0]] + xs[1..];
    RemoveFirstConsContent(xs, x, rest);
  }

  lemma RemoveFirstConsContent<T>(xs: seq<T>, x: T, rest: seq<T>)
    requires |xs| > 0 && xs[0] != x
    requires multiset(rest) == multiset(xs[1..]) - multiset{x}
    requires forall y :: y in rest ==> y in xs[1..]
    ensures multiset([xs[0]] + rest) == multiset(xs) - multiset{x}
    ensures forall y :: y in [xs[0]] + rest ==> y in xs
  {
    assert multiset(xs) == multiset{xs[0]} + multiset(xs[1..]) by {
      assert xs == [xs[0]] + xs[1..];
    }
    assert multiset([xs[0]] + rest) == multiset{xs[0]} + multiset(rest);
    forall y | y in [xs[0]] + rest ensures y in xs {
      if y != xs[0] {
        assert y in rest;
        assert y in xs[1..];
      }
    }
  }

  /** Removing the first occurrence of a present element cuts it out at some position. */
  lemma {:induction false} RemoveFirstIsSplice<T>(xs: seq<T>, x: T) returns (i: nat)
    requires x in xs
    ensures i < |xs| && xs[i] == x
    ensures RemoveFirst(xs, x) == xs[..i] + xs[i + 1..]
  {
    if xs[0] == x {
      i := 0;
      assert xs[..0] + xs[1..] == xs[1..];
    } else {
      assert x in xs[1..] by {
        assert xs == [xs[0]] + xs[1..];
      }
      var j := RemoveFirstIsSplice(xs[1..], x);
      i := j + 1;
      SpliceCons(xs, j);
    }
  }

  /** Cutting position `j` out of the tail and keeping the head cuts position `j + 1` out of the whole. */
  lemma SpliceCons<T>(xs: seq<T>, j: nat)
    requires j + 1 < |xs|
    ensures [xs[0]] + (xs[1..][..j] + xs[1..][j + 1..]) == xs[..j + 1] + xs[j + 2..]
  {
    assert [xs[0]] + xs[1..][..j] == xs[..j + 1];
    assert xs[1..][j + 1..] == xs[j + 2..];
  }
}
