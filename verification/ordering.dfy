/**
 * Ordering of actors in the executor's turn queue.
 *
 * Actors are arena indices; `keys[i]` is the sort key of actor `i`.  Larger
 * keys come first.  Java's `List.sort` is stable, so the model is a stable
 * insertion sort, characterised by: the output is sorted by non-increasing
 * key, and for every key value the subsequence of elements carrying that key
 * (its "class") is the same as in the input.
 */
module Ordering {
  import opened Basics

  function KeyOf(keys: seq<int>, x: nat): int {
    if x < |keys| then keys[x] else 0
  }

  ghost predicate SortedDesc(xs: seq<nat>, keys: seq<int>) {
    forall i, j :: 0 <= i < j < |xs| ==> KeyOf(keys, xs[i]) >= KeyOf(keys, xs[j])
  }

  /** The subsequence of `xs` whose elements carry key `k`, in order. */
  function Class(xs: seq<nat>, keys: seq<int>, k: int): seq<nat>
  {
    if |xs| == 0 then []
    else (if KeyOf(keys, xs[0]) == k then [xs[0]] else []) + Class(xs[1..], keys, k)
  }

  lemma {:induction false} ClassConcat(a: seq<nat>, b: seq<nat>, keys: seq<int>, k: int)
    ensures Class(a + b, keys, k) == Class(a, keys, k) + Class(b, keys, k)
  {
    if |a| == 0 {
      assert a + b == b;
    } else {
      var h := if KeyOf(keys, a[0]) == k then [a[0]] else [];
      assert (a + b)[0] == a[0] && (a + b)[1..] == a[1..] + b;
      ClassConcat(a[1..], b, keys, k);
      calc {
        Class(a + b, keys, k);
        h + Class(a[1..] + b, keys, k);
        h + (Class(a[1..], keys, k) + Class(b, keys, k));
        (h + Class(a[1..], keys, k)) + Class(b, keys, k);
        Class(a, keys, k) + Class(b, keys, k);
      }
    }
  }

  lemma ClassSingleton(x: nat, keys: seq<int>, k: int)
    ensures Class([x], keys, k) == if KeyOf(keys, x) == k then [x] else []
  {
    assert [x][1..] == [];
  }

  /**
   * Inserts `x` into a sorted queue after every element whose key is at
   * least `x`'s: a newcomer lands behind the incumbents of equal key.
   */
  function Insert(xs: seq<nat>, keys: seq<int>, x: nat): (r: seq<nat>)
    requires SortedDesc(xs, keys)
    ensures SortedDesc(r, keys)
    ensures multiset(r) == multiset(xs) + multiset{x}
    ensures forall k :: Class(r, keys, k) == Class(xs, keys, k) + (if KeyOf(keys, x) == k then [x] else [])
  {
    if |xs| == 0 then
      InsertEmptyClasses(keys, x);
      [x]
    else if KeyOf(keys, xs[0]) >= KeyOf(keys, x) then
      var rest := Insert(xs[1..], keys, x);
      InsertConsMultiset(xs, x, rest);
      InsertConsSorted(xs, keys, x, rest);
      InsertConsClasses(xs, keys, x, rest);
      [xs[0]] + rest
    else
      InsertFrontClasses(xs, keys, x);
      [x] + xs
  }

  lemma InsertEmptyClasses(keys: seq<int>, x: nat)
    ensures forall k :: Class([x], keys, k) == Class([], keys, k) + (if KeyOf(keys, x) == k then [x] else [])
  {
    forall k ensures Class([x], keys, k) == Class([], keys, k) + (if KeyOf(keys, x) == k then [x] else []) {
      ClassSingleton(x, keys, k);
    }
  }

  lemma InsertConsMultiset(xs: seq<nat>, x: nat, rest: seq<nat>)
    requires |xs| > 0 && multiset(rest) == multiset(xs[1..]) + multiset{x}
    ensures multiset([xs[0]] + rest) == multiset(xs) + multiset{x}
  {
    assert xs == [xs[0]] + xs[1..];
  }

  lemma InsertConsSorted(xs: seq<nat>, keys: seq<int>, x: nat, rest: seq<nat>)
    requires SortedDesc(xs, keys) && |xs| > 0
    requires KeyOf(keys, xs[0]) >= KeyOf(keys, x)
    requires SortedDesc(rest, keys)
    requires multiset(rest) == multiset(xs[1..]) + multiset{x}
    ensures SortedDesc([xs[0]] + rest, keys)
  {
    forall i | 0 <= i < |rest| ensures KeyOf(keys, xs[0]) >= KeyOf(keys, rest[i]) {
      assert rest[i] in multiset(rest);
      if rest[i] != x {
        assert rest[i] in multiset(xs[1..]);
        var j :| 0 <= j < |xs[1..]| && xs[1..][j] == rest[i];
        assert xs[j + 1] == rest[i];
      }
    }
    var r := [xs[0]] + rest;
    forall a, b | 0 <= a < b < |r| ensures KeyOf(keys, r[a]) >= KeyOf(keys, r[b]) {
      if a == 0 {
        assert r[b] == rest[b - 1];
      } else {
        assert r[a] == rest[a - 1] && r[b] == rest[b - 1];
      }
    }
  }

  lemma InsertConsClasses(xs: seq<nat>, keys: seq<int>, x: nat, rest: seq<nat>)
    requires |xs| > 0
    requires forall k :: Class(rest, keys, k) == Class(xs[1..], keys, k) + (if KeyOf(keys, x) == k then [x] else [])
    ensures forall k :: Class([xs[0]] + rest, keys, k) == Class(xs, keys, k) + (if KeyOf(keys, x) == k then [x] else [])
  {
    forall k ensures Class([xs[0]] + rest, keys, k) == Class(xs, keys, k) + (if KeyOf(keys, x) == k then [x] else []) {
      var head := Class([xs[0]], keys, k);
      var tail := Class(xs[1..], keys, k);
      var extra: seq<nat> := if KeyOf(keys, x) == k then [x] else [];
      ClassConcat([xs[0]], rest, keys, k);
      assert Class(rest, keys, k) == tail + extra;
      ClassConcat([xs[0]], xs[1..], keys, k);
      assert xs == [xs[0]] + xs[1..];
      assert Class(xs, keys, k) == head + tail;
      assert head + (tail + extra) == (head + tail) + extra;
    }
  }

  lemma InsertFrontClasses(xs: seq<nat>, keys: seq<int>, x: nat)
    requires SortedDesc(xs, keys) && |xs| > 0
    requires KeyOf(keys, xs[0]) < KeyOf(keys, x)
    ensures SortedDesc([x] + xs, keys)
    ensures forall k :: Class([x] + xs, keys, k) == Class(xs, keys, k) + (if KeyOf(keys, x) == k then [x] else [])
  {
    var r := [x] + xs;
    forall a, b | 0 <= a < b < |r| ensures KeyOf(keys, r[a]) >= KeyOf(keys, r[b]) {
      assert r[b] == xs[b - 1];
      if a > 0 {
        assert r[a] == xs[a - 1];
      } else {
        assert KeyOf(keys, xs[0]) >= KeyOf(keys, xs[b - 1]);
      }
    }
    forall k ensures Class(r, keys, k) == Class(xs, keys, k) + (if KeyOf(keys, x) == k then [x] else []) {
      ClassConcat([x], xs, keys, k);
      ClassSingleton(x, keys, k);
      if KeyOf(keys, x) == k {
        ClassOfLowerKeys(xs, keys, k);
      }
    }
  }

  /** In a sorted queue whose head is below `k`, no element carries key `k`. */
  lemma {:induction false} ClassOfLowerKeys(xs: seq<nat>, keys: seq<int>, k: int)
    requires SortedDesc(xs, keys)
    requires |xs| > 0 ==> KeyOf(keys, xs[0]) < k
    ensures Class(xs, keys, k) == []
  {
    if |xs| > 0 {
      if |xs| > 1 {
        assert KeyOf(keys, xs[1]) <= KeyOf(keys, xs[0]);
      }
      ClassOfLowerKeys(xs[1..], keys, k);
    }
  }

  /** Stable insertion sort by non-increasing key. */
  function StableSort(xs: seq<nat>, keys: seq<int>): (r: seq<nat>)
    ensures SortedDesc(r, keys)
    ensures multiset(r) == multiset(xs)
    ensures forall k :: Class(r, keys, k) == Class(xs, keys, k)
  {
    if |xs| == 0 then []
    else
      var init := xs[..|xs| - 1];
      var last := xs[|xs| - 1];
      assert xs == init + [last];
      var r := Insert(StableSort(init, keys), keys, last);
      assert forall k :: Class(r, keys, k) == Class(xs, keys, k) by {
        forall k ensures Class(r, keys, k) == Class(xs, keys, k) {
          ClassConcat(init, [last], keys, k);
          ClassSingleton(last, keys, k);
        }
      }
      r
  }

  /** Every element of `xs` with key `k` lies in the class of `k`. */
  lemma {:induction false} InClass(xs: seq<nat>, keys: seq<int>, x: nat)
    requires x in xs
    ensures x in Class(xs, keys, KeyOf(keys, x))
  {
    if xs[0] != x {
      InClass(xs[1..], keys, x);
    }
  }

  /**
   * The characterisation pins the result down: two sequences sorted by
   * non-increasing key with the same classes are equal.  So any stable sort
   * (Java's merge sort included) computes exactly `StableSort`.
   */
  lemma {:induction false} SortedClassesDetermine(xs: seq<nat>, ys: seq<nat>, keys: seq<int>)
    requires SortedDesc(xs, keys) && SortedDesc(ys, keys)
    requires forall k :: Class(xs, keys, k) == Class(ys, keys, k)
    ensures xs == ys
  {
    SameClassesSameEmptiness(xs, ys, keys);
    if |xs| > 0 {
      var p := KeyOf(keys, xs[0]);
      var q := KeyOf(keys, ys[0]);
      if p < q {
        InClass(ys, keys, ys[0]);
        ClassOfLowerKeys(xs, keys, q);
        assert false;
      } else if q < p {
        InClass(xs, keys, xs[0]);
        ClassOfLowerKeys(ys, keys, p);
        assert false;
      }
      assert Class(xs, keys, p)[0] == xs[0];
      assert Class(ys, keys, p)[0] == ys[0];
      forall k ensures Class(xs[1..], keys, k) == Class(ys[1..], keys, k) {
        if k == p {
          var cx := Class(xs[1..], keys, k);
          var cy := Class(ys[1..], keys, k);
          assert Class(xs, keys, k) == [xs[0]] + cx;
          assert Class(ys, keys, k) == [ys[0]] + cy;
          assert ([xs[0]] + cx)[1..] == cx;
          assert ([ys[0]] + cy)[1..] == cy;
        } else {
          assert Class(xs, keys, k) == Class(xs[1..], keys, k);
          assert Class(ys, keys, k) == Class(ys[1..], keys, k);
        }
      }
      SortedClassesDetermine(xs[1..], ys[1..], keys);
      assert xs == [xs[0]] + xs[1..];
      assert ys == [ys[0]] + ys[1..];
    }
  }

  lemma SameClassesSameEmptiness(xs: seq<nat>, ys: seq<nat>, keys: seq<int>)
    requires forall k :: Class(xs, keys, k) == Class(ys, keys, k)
    ensures |xs| == 0 <==> |ys| == 0
  {
    if |xs| > 0 {
      InClass(xs, keys, xs[0]);
    }
    if |ys| > 0 {
      InClass(ys, keys, ys[0]);
    }
  }

  /** Sorting a sorted queue extended by one actor is the same as inserting it. */
  lemma SortAfterAppendIsInsert(xs: seq<nat>, keys: seq<int>, x: nat)
    requires SortedDesc(xs, keys)
    ensures StableSort(xs + [x], keys) == Insert(xs, keys, x)
  {
    var s := StableSort(xs + [x], keys);
    var i := Insert(xs, keys, x);
    forall k ensures Class(s, keys, k) == Class(i, keys, k) {
      ClassConcat(xs, [x], keys, k);
      ClassSingleton(x, keys, k);
    }
    SortedClassesDetermine(s, i, keys);
  }

  /** In a sorted queue, the point that separates keys at least `x`'s from smaller keys. */
  lemma {:induction false} SplitPoint(xs: seq<nat>, keys: seq<int>, x: nat) returns (i: nat)
    requires SortedDesc(xs, keys)
    ensures i <= |xs|
    ensures forall j :: 0 <= j < i ==> KeyOf(keys, xs[j]) >= KeyOf(keys, x)
    ensures forall j :: i <= j < |xs| ==> KeyOf(keys, xs[j]) < KeyOf(keys, x)
  {
    i := 0;
    while i < |xs| && KeyOf(keys, xs[i]) >= KeyOf(keys, x)
      invariant i <= |xs|
      invariant forall j :: 0 <= j < i ==> KeyOf(keys, xs[j]) >= KeyOf(keys, x)
    {
      i := i + 1;
    }
  }

  /**
   * Appending `x` to a sorted queue and sorting stably places `x` right
   * after every element whose key is at least its own, and before every
   * element whose key is smaller: a newcomer lands behind incumbents of
   * equal key.
   */
  lemma SortAfterAppendPlacesLast(xs: seq<nat>, keys: seq<int>, x: nat) returns (i: nat)
    requires SortedDesc(xs, keys)
    ensures i <= |xs|
    ensures StableSort(xs + [x], keys) == xs[..i] + [x] + xs[i..]
    ensures forall j :: 0 <= j < i ==> KeyOf(keys, xs[j]) >= KeyOf(keys, x)
    ensures forall j :: i <= j < |xs| ==> KeyOf(keys, xs[j]) < KeyOf(keys, x)
  {
    i := SplitPoint(xs, keys, x);
    var c := xs[..i] + [x] + xs[i..];
    SpliceSorted(xs, keys, x, i);
    var s := StableSort(xs + [x], keys);
    forall k ensures Class(s, keys, k) == Class(c, keys, k) {
      ClassConcat(xs, [x], keys, k);
      SpliceClass(xs, keys, x, i, k);
    }
    SortedClassesDetermine(s, c, keys);
  }

  lemma SpliceSorted(xs: seq<nat>, keys: seq<int>, x: nat, i: nat)
    requires SortedDesc(xs, keys) && i <= |xs|
    requires forall j :: 0 <= j < i ==> KeyOf(keys, xs[j]) >= KeyOf(keys, x)
    requires forall j :: i <= j < |xs| ==> KeyOf(keys, xs[j]) < KeyOf(keys, x)
    ensures SortedDesc(xs[..i] + [x] + xs[i..], keys)
  {
    var c := xs[..i] + [x] + xs[i..];
    forall a, b | 0 <= a < b < |c| ensures KeyOf(keys, c[a]) >= KeyOf(keys, c[b]) {
      var ka := if a < i then KeyOf(keys, xs[a]) else if a == i then KeyOf(keys, x) else KeyOf(keys, xs[a - 1]);
      var kb := if b < i then KeyOf(keys, xs[b]) else if b == i then KeyOf(keys, x) else KeyOf(keys, xs[b - 1]);
      assert KeyOf(keys, c[a]) == ka;
      assert KeyOf(keys, c[b]) == kb;
    }
  }

  lemma SpliceClass(xs: seq<nat>, keys: seq<int>, x: nat, i: nat, k: int)
    requires SortedDesc(xs, keys) && i <= |xs|
    requires forall j :: i <= j < |xs| ==> KeyOf(keys, xs[j]) < KeyOf(keys, x)
    ensures Class(xs[..i] + [x] + xs[i..], keys, k) == Class(xs, keys, k) + Class([x], keys, k)
  {
    var lo, hi := xs[..i], xs[i..];
    assert xs == lo + hi;
    ClassConcat(lo, hi, keys, k);
    ClassConcat(lo + [x], hi, keys, k);
    ClassConcat(lo, [x], keys, k);
    var cl, cx, ch := Class(lo, keys, k), Class([x], keys, k), Class(hi, keys, k);
    assert Class(xs[..i] + [x] + xs[i..], keys, k) == cl + cx + ch;
    assert Class(xs, keys, k) == cl + ch;
    if k == KeyOf(keys, x) {
      TailBelow(xs, keys, x, i);
      DropEmpty(cl, ch, cx);
    } else {
      assert cx == [] by {
        ClassSingleton(x, keys, k);
      }
      DropEmpty(cl, cx, ch);
    }
  }

  lemma DropEmpty(a: seq<nat>, e: seq<nat>, b: seq<nat>)
    requires e == []
    ensures a + e + b == a + b && a + b + e == a + b
  {
  }

  lemma TailBelow(xs: seq<nat>, keys: seq<int>, x: nat, i: nat)
    requires SortedDesc(xs, keys) && i <= |xs|
    requires forall j :: i <= j < |xs| ==> KeyOf(keys, xs[j]) < KeyOf(keys, x)
    ensures Class(xs[i..], keys, KeyOf(keys, x)) == []
  {
    var hi := xs[i..];
    forall a, b | 0 <= a < b < |hi| ensures KeyOf(keys, hi[a]) >= KeyOf(keys, hi[b]) {
      assert hi[a] == xs[i + a] && hi[b] == xs[i + b];
    }
    assert |hi| > 0 ==> hi[0] == xs[i];
    ClassOfLowerKeys(hi, keys, KeyOf(keys, x));
  }

  /** Removing the first occurrence of an actor keeps a queue sorted. */
  lemma RemoveFirstKeepsSorted(xs: seq<nat>, keys: seq<int>, x: nat)
    requires SortedDesc(xs, keys)
    ensures SortedDesc(RemoveFirst(xs, x), keys)
  {
    if x in xs {
      var i := RemoveFirstIsSplice(xs, x);
      RemoveKeepsSorted(xs, keys, i);
    }
  }

  /** Removing an element keeps a queue sorted. */
  lemma {:induction false} RemoveKeepsSorted(xs: seq<nat>, keys: seq<int>, i: nat)
    requires SortedDesc(xs, keys) && i < |xs|
    ensures SortedDesc(xs[..i] + xs[i + 1..], keys)
  {
    var r := xs[..i] + xs[i + 1..];
    forall a, b | 0 <= a < b < |r| ensures KeyOf(keys, r[a]) >= KeyOf(keys, r[b]) {
      var a' := if a < i then a else a + 1;
      var b' := if b < i then b else b + 1;
      assert r[a] == xs[a'] && r[b] == xs[b'];
    }
  }

  // ---------------------------------------------------------------------------
  // The comparator itself.  The executor compares two actors by descending
  // priority; at equal priority an actor already in the turn queue comes first.
  // The source computes `bPriority - aPriority` on 32-bit ints.

  type Int32 = x: int | -0x8000_0000 <= x < 0x8000_0000

  /** Two's-complement wrap-around of a Java `int` expression. */
  function Wrap32(x: int): (r: Int32)
    ensures (r - x) % 0x1_0000_0000 == 0
    ensures -0x8000_0000 <= x < 0x8000_0000 ==> r == x
  {
    var m := x % 0x1_0000_0000;
    if m >= 0x8000_0000 then m - 0x1_0000_0000 else m
  }

  /** The comparator as written: negative means `a` is ordered before `b`. */
  function CompareAsWritten(pa: Int32, pb: Int32, aQueued: bool, bQueued: bool): (r: int)
    ensures -0x8000_0000 <= r < 0x8000_0000
    ensures r == 0 <==> pa == pb && aQueued == bQueued
    ensures pa == pb && aQueued && !bQueued ==> r < 0
    ensures pa == pb && bQueued && !aQueued ==> r > 0
  {
    if pa == pb && aQueued && !bQueued then -1
    else if pa == pb && bQueued && !aQueued then 1
    else Wrap32(pb - pa)
  }

  /** The order the comparator is meant to induce, as an integer key (larger first). */
  function OrderKey(priority: int, queued: bool): int
  {
    2 * priority + (if queued then 1 else 0)
  }

  /** The comparator without overflow: a strict weak order given by `OrderKey`. */
  function CompareIntended(pa: int, pb: int, aQueued: bool, bQueued: bool): (r: int)
    ensures r < 0 <==> OrderKey(pa, aQueued) > OrderKey(pb, bQueued)
    ensures r > 0 <==> OrderKey(pa, aQueued) < OrderKey(pb, bQueued)
    ensures r < 0 ==> pa >= pb
    ensures pa > pb ==> r < 0
  {
    if pa == pb && aQueued && !bQueued then -1
    else if pa == pb && bQueued && !aQueued then 1
    else pb - pa
  }

  /** Where the subtraction does not overflow, the comparator as written is the intended one. */
  lemma CompareAsWrittenAgreesWithoutOverflow(pa: Int32, pb: Int32, aQueued: bool, bQueued: bool)
    requires -0x8000_0000 <= pb - pa < 0x8000_0000
    ensures CompareAsWritten(pa, pb, aQueued, bQueued) == CompareIntended(pa, pb, aQueued, bQueued)
  {
  }

  /** With the lowest `int` priority against priority 1, the overflow puts the weaker actor first. */
  lemma CompareAsWrittenMisorders()
    ensures OrderKey(-0x8000_0000, false) < OrderKey(1, false)
    ensures CompareAsWritten(-0x8000_0000, 1, false, false) < 0
    ensures CompareIntended(-0x8000_0000, 1, false, false) > 0
  {
    assert Wrap32(1 - (-0x8000_0000)) == -0x7FFF_FFFF;
  }

  /**
   * The comparator as written is not transitive: priorities MIN_VALUE, MAX_VALUE
   * and 0 form a cycle, which breaks the contract `List.sort` relies on.
   */
  lemma CompareAsWrittenCycles()
    ensures CompareAsWritten(-0x8000_0000, 0x7FFF_FFFF, false, false) < 0
    ensures CompareAsWritten(0x7FFF_FFFF, 0, false, false) < 0
    ensures CompareAsWritten(0, -0x8000_0000, false, false) < 0
  {
    assert Wrap32(0x7FFF_FFFF - (-0x8000_0000)) == -1;
    assert Wrap32(-0x8000_0000 - 0) == -0x8000_0000;
  }
}
