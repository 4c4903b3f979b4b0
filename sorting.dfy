/** A model of `Array.prototype.sort`, which is stable in current JavaScript
    engines: for a comparator that is a strict weak order, the result is the
    unique stable sorted permutation. It is modelled by insertion sort, once as
    a function on sequences and once in place on an array. */
module Sorting {

  /** `before(a, b)`: the comparator puts `a` strictly before `b` (returns a negative number). */
  ghost predicate StrictWeakOrder<T(!new)>(before: (T, T) -> bool) {
    && (forall a :: !before(a, a))
    && (forall a, b, c :: before(a, b) && before(b, c) ==> before(a, c))
    && (forall a, b, c :: before(a, c) ==> before(a, b) || before(b, c))
  }

  /** Neither element goes before the other: the comparator returns 0. */
  predicate Tied<T>(before: (T, T) -> bool, a: T, b: T) {
    !before(a, b) && !before(b, a)
  }

  ghost predicate SortedBy<T>(s: seq<T>, before: (T, T) -> bool) {
    forall i, j :: 0 <= i < j < |s| ==> !before(s[j], s[i])
  }

  /** The elements of `s` tied with `x`, in their order in `s`. */
  function TiedWith<T>(s: seq<T>, x: T, before: (T, T) -> bool): seq<T> {
    if s == [] then []
    else TiedWith(s[..|s| - 1], x, before) + (if Tied(before, x, s[|s| - 1]) then [s[|s| - 1]] else [])
  }

  /** Inserts `x` after every element of `t` that it does not go strictly before. */
  function Insert<T>(t: seq<T>, x: T, before: (T, T) -> bool): (r: seq<T>)
    ensures |r| == |t| + 1
  {
    if t == [] then [x]
    else if before(x, t[|t| - 1]) then Insert(t[..|t| - 1], x, before) + [t[|t| - 1]]
    else t + [x]
  }

  /** Stable insertion sort. */
  function Sort<T>(s: seq<T>, before: (T, T) -> bool): (r: seq<T>)
    ensures |r| == |s|
  {
    if s == [] then [] else Insert(Sort(s[..|s| - 1], before), s[|s| - 1], before)
  }

  lemma {:induction false} InsertPermutes<T>(t: seq<T>, x: T, before: (T, T) -> bool)
    ensures multiset(Insert(t, x, before)) == multiset(t) + multiset{x}
    decreases |t|
  {
    if t != [] && before(x, t[|t| - 1]) {
      InsertPermutes(t[..|t| - 1], x, before);
      assert t == t[..|t| - 1] + [t[|t| - 1]];
    }
  }

  /** `Sort` returns a permutation of its input. */
  lemma {:induction false} SortPermutes<T>(s: seq<T>, before: (T, T) -> bool)
    ensures multiset(Sort(s, before)) == multiset(s)
    decreases |s|
  {
    if s != [] {
      SortPermutes(s[..|s| - 1], before);
      InsertPermutes(Sort(s[..|s| - 1], before), s[|s| - 1], before);
      assert s == s[..|s| - 1] + [s[|s| - 1]];
    }
  }

  lemma {:induction false} InsertSorted<T(!new)>(t: seq<T>, x: T, before: (T, T) -> bool)
    requires StrictWeakOrder(before)
    requires SortedBy(t, before)
    ensures SortedBy(Insert(t, x, before), before)
    decreases |t|
  {
    if t != [] {
      var last := t[|t| - 1];
      var init := t[..|t| - 1];
      if before(x, last) {
        InsertSorted(init, x, before);
        InsertPermutes(init, x, before);
        var u := Insert(init, x, before);
        forall k | 0 <= k < |u|
          ensures !before(last, u[k])
        {
          assert u[k] in multiset(u);
          if u[k] != x {
            assert u[k] in multiset(init);
            var m :| 0 <= m < |init| && init[m] == u[k];
            assert t[m] == u[k];
          }
        }
      } else {
        forall k | 0 <= k < |t|
          ensures !before(x, t[k])
        {
          if k < |t| - 1 {
            assert !before(last, t[k]);
          }
        }
      }
    }
  }

  /** `Sort` orders its result by the comparator. */
  lemma {:induction false} SortSorted<T(!new)>(s: seq<T>, before: (T, T) -> bool)
    requires StrictWeakOrder(before)
    ensures SortedBy(Sort(s, before), before)
    decreases |s|
  {
    if s != [] {
      SortSorted(s[..|s| - 1], before);
      InsertSorted(Sort(s[..|s| - 1], before), s[|s| - 1], before);
    }
  }

  lemma {:induction false} TiedWithConcat<T>(a: seq<T>, b: seq<T>, x: T, before: (T, T) -> bool)
    ensures TiedWith(a + b, x, before) == TiedWith(a, x, before) + TiedWith(b, x, before)
    decreases |b|
  {
    if b == [] {
      assert a + b == a;
    } else {
      var b' := b[..|b| - 1];
      assert (a + b)[..|a + b| - 1] == a + b';
      TiedWithConcat(a, b', x, before);
    }
  }

  /** Inserting `y` appends it to the run of elements tied with any `x`. */
  lemma {:induction false} InsertStable<T(!new)>(t: seq<T>, y: T, x: T, before: (T, T) -> bool)
    requires StrictWeakOrder(before)
    ensures TiedWith(Insert(t, y, before), x, before) == TiedWith(t, x, before) + TiedWith([y], x, before)
    decreases |t|
  {
    if t == [] {
      assert [y][..0] == [];
    } else {
      var last := t[|t| - 1];
      var init := t[..|t| - 1];
      assert t == init + [last];
      if before(y, last) {
        InsertStable(init, y, x, before);
        var u := Insert(init, y, before);
        TiedWithConcat(u, [last], x, before);
        TiedWithConcat(init, [last], x, before);
        assert [last][..0] == [] && [y][..0] == [];
        // y and last are not tied, so at most one of them is tied with x
        assert !(Tied(before, x, y) && Tied(before, x, last));
      } else {
        TiedWithConcat(t, [y], x, before);
      }
    }
  }

  /** `Sort` is stable: elements tied with each other keep their input order. */
  lemma {:induction false} SortStable<T(!new)>(s: seq<T>, x: T, before: (T, T) -> bool)
    requires StrictWeakOrder(before)
    ensures TiedWith(Sort(s, before), x, before) == TiedWith(s, x, before)
    decreases |s|
  {
    if s != [] {
      var init := s[..|s| - 1];
      SortStable(init, x, before);
      InsertStable(Sort(init, before), s[|s| - 1], x, before);
      assert s == init + [s[|s| - 1]];
      TiedWithConcat(init, [s[|s| - 1]], x, before);
    }
  }

  /** Where `Insert` puts `x`: after the elements it does not go before. */
  lemma {:induction false} InsertSplit<T>(t: seq<T>, x: T, j: nat, before: (T, T) -> bool)
    requires j <= |t|
    requires forall k :: j <= k < |t| ==> before(x, t[k])
    requires j == 0 || !before(x, t[j - 1])
    ensures Insert(t, x, before) == t[..j] + [x] + t[j..]
    decreases |t|
  {
    if j < |t| {
      var init, last := t[..|t| - 1], t[|t| - 1];
      assert before(x, last);
      assert Insert(t, x, before) == Insert(init, x, before) + [last];
      InsertSplit(init, x, j, before);
      assert init[..j] == t[..j];
      assert init[j..] + [last] == t[j..];
      calc {
        Insert(t, x, before);
        (init[..j] + [x] + init[j..]) + [last];
        t[..j] + [x] + (init[j..] + [last]);
      }
    } else {
      assert t[..j] == t;
    }
  }

  /** One step of insertion sort: moves `a[i]` left into the sorted prefix `a[..i]`. */
  method InsertInPlace<T>(a: array<T>, i: nat, before: (T, T) -> bool)
    requires i < a.Length
    modifies a
    ensures a[..i + 1] == Insert(old(a[..i]), old(a[i]), before)
    ensures a[i + 1..] == old(a[i + 1..])
  {
    var x := a[i];
    ghost var t := a[..i];
    var j := i;
    while j > 0 && before(x, a[j - 1])
      invariant 0 <= j <= i
      invariant forall k :: 0 <= k < j ==> a[k] == t[k]
      invariant forall k :: j < k <= i ==> a[k] == t[k - 1]
      invariant forall k :: i < k < a.Length ==> a[k] == old(a[k])
      invariant forall k :: j <= k < i ==> before(x, t[k])
    {
      a[j] := a[j - 1];
      j := j - 1;
    }
    a[j] := x;
    InsertSplit(t, x, j, before);
    ShiftedInsert(a[..], t, x, j, i);
    assert a[i + 1..] == old(a[i + 1..]);
  }

  /** The array after the shift: `t[..j]`, then `x`, then `t[j..]`. */
  lemma ShiftedInsert<T>(b: seq<T>, t: seq<T>, x: T, j: nat, i: nat)
    requires j <= i < |b| && |t| == i && b[j] == x
    requires forall k :: 0 <= k < j ==> b[k] == t[k]
    requires forall k :: j < k <= i ==> b[k] == t[k - 1]
    ensures b[..i + 1] == t[..j] + [x] + t[j..]
  {
    assert b[..j] == t[..j];
    assert b[j + 1..i + 1] == t[j..];
    assert b[..i + 1] == b[..j] + [x] + b[j + 1..i + 1];
  }

  /** Sorts `a` in place, as `[...jokes].sort(cmp)` sorts its fresh copy. */
  method SortInPlace<T>(a: array<T>, before: (T, T) -> bool)
    modifies a
    ensures a[..] == Sort(old(a[..]), before)
  {
    ghost var s := a[..];
    var i := 0;
    while i < a.Length
      invariant 0 <= i <= a.Length
      invariant a[..i] == Sort(s[..i], before)
      invariant a[i..] == s[i..]
    {
      InsertInPlace(a, i, before);
      assert s[..i + 1][..i] == s[..i];
      i := i + 1;
    }
    assert s[..a.Length] == s;
  }
}
