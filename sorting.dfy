/** `Array.prototype.sort` with a comparator. JavaScript's sort is stable, so
    for a comparator that is a consistent ordering its result is the unique
    stable sorted permutation, which is what insertion from the right
    produces. A comparator `cmp` is represented by `after`, where
    `after(a, b)` means `cmp(a, b) > 0`: `a` belongs behind `b`. */
module Sorting {

  /** Inserts `x` into `s`, moving it left past every trailing element that
      belongs behind it. */
  function Insert<T>(s: seq<T>, x: T, after: (T, T) -> bool): (r: seq<T>)
    ensures |r| == |s| + 1
    ensures multiset(r) == multiset(s) + multiset{x}
    decreases |s|
  {
    if s == [] then [x]
    else
      assert s == s[..|s| - 1] + [s[|s| - 1]];
      if after(s[|s| - 1], x) then Insert(s[..|s| - 1], x, after) + [s[|s| - 1]]
      else s + [x]
  }

  /** The stable sort of `s`: each element in turn is inserted into the
      sorted prefix before it. */
  function SortSeq<T>(s: seq<T>, after: (T, T) -> bool): (r: seq<T>)
    ensures |r| == |s|
    ensures multiset(r) == multiset(s)
    decreases |s|
  {
    if s == [] then []
    else
      assert s == s[..|s| - 1] + [s[|s| - 1]];
      Insert(SortSeq(s[..|s| - 1], after), s[|s| - 1], after)
  }

  /** No element is followed by one it belongs behind. */
  ghost predicate Sorted<T>(s: seq<T>, after: (T, T) -> bool)
  {
    forall i, j :: 0 <= i < j < |s| ==> !after(s[i], s[j])
  }

  /** `after` is the strict part of a total preorder: irreflexive,
      transitive, and "not behind" is transitive too. Every comparator that
      compares numeric keys, as all of the application's do, is one. */
  ghost predicate StrictWeakOrder<T(!new)>(after: (T, T) -> bool)
  {
    && (forall a :: !after(a, a))
    && (forall a, b, c :: after(a, b) && after(b, c) ==> after(a, c))
    && (forall a, b, c :: !after(a, b) && !after(b, c) ==> !after(a, c))
  }

  lemma SortedAppend<T>(s: seq<T>, x: T, after: (T, T) -> bool)
    requires Sorted(s, after)
    requires forall i :: 0 <= i < |s| ==> !after(s[i], x)
    ensures Sorted(s + [x], after)
  {
    var t := s + [x];
    forall i, j | 0 <= i < j < |t| ensures !after(t[i], t[j]) {
      if j < |s| { assert t[i] == s[i] && t[j] == s[j]; }
    }
  }

  lemma {:induction false} InsertSorted<T(!new)>(s: seq<T>, x: T, after: (T, T) -> bool)
    requires StrictWeakOrder(after)
    requires Sorted(s, after)
    ensures Sorted(Insert(s, x, after), after)
    decreases |s|
  {
    if s != [] {
      var n := |s| - 1;
      var last := s[n];
      if after(last, x) {
        var p := s[..n];
        assert Sorted(p, after);
        InsertSorted(p, x, after);
        assert !after(x, last);
        assert forall k :: 0 <= k < |p| ==> !after(p[k], last) by {
          forall k | 0 <= k < |p| ensures !after(p[k], last) {
            assert p[k] == s[k];
          }
        }
        InsertBounded(p, x, last, after);
        SortedAppend(Insert(p, x, after), last, after);
      } else {
        forall i | 0 <= i < |s| ensures !after(s[i], x) {
          if i < n { assert !after(s[i], last); }
        }
        SortedAppend(s, x, after);
      }
    }
  }

  /** Inserting an element that does not belong behind `y` into elements
      that do not either gives elements that do not. */
  lemma InsertBounded<T>(p: seq<T>, x: T, y: T, after: (T, T) -> bool)
    requires forall k :: 0 <= k < |p| ==> !after(p[k], y)
    requires !after(x, y)
    ensures forall i :: 0 <= i < |Insert(p, x, after)| ==> !after(Insert(p, x, after)[i], y)
  {
    var q := Insert(p, x, after);
    forall i | 0 <= i < |q| ensures !after(q[i], y) {
      assert q[i] in multiset(q);
      if q[i] != x {
        assert q[i] in multiset(p);
        var k :| 0 <= k < |p| && p[k] == q[i];
      }
    }
  }

  /** The sort's result is sorted. */
  lemma {:induction false} SortSeqSorted<T(!new)>(s: seq<T>, after: (T, T) -> bool)
    requires StrictWeakOrder(after)
    ensures Sorted(SortSeq(s, after), after)
    decreases |s|
  {
    if s != [] {
      SortSeqSorted(s[..|s| - 1], after);
      InsertSorted(SortSeq(s[..|s| - 1], after), s[|s| - 1], after);
    }
  }

  /** Sorting a sorted sequence changes nothing. */
  lemma {:induction false} SortSeqOfSorted<T>(s: seq<T>, after: (T, T) -> bool)
    requires Sorted(s, after)
    ensures SortSeq(s, after) == s
    decreases |s|
  {
    if s != [] {
      var p := s[..|s| - 1];
      assert Sorted(p, after);
      SortSeqOfSorted(p, after);
      assert s == p + [s[|s| - 1]];
      if |p| > 0 {
        assert !after(p[|p| - 1], s[|s| - 1]);
      }
      assert Insert(p, s[|s| - 1], after) == p + [s[|s| - 1]];
    }
  }

  /** Sorting is idempotent. */
  lemma SortSeqIdempotent<T(!new)>(s: seq<T>, after: (T, T) -> bool)
    requires StrictWeakOrder(after)
    ensures SortSeq(SortSeq(s, after), after) == SortSeq(s, after)
  {
    SortSeqSorted(s, after);
    SortSeqOfSorted(SortSeq(s, after), after);
  }

  /** The first element of the sort is an input element that belongs behind
      no input element. */
  lemma SortSeqFirst<T(!new)>(s: seq<T>, after: (T, T) -> bool)
    requires StrictWeakOrder(after)
    requires |s| > 0
    ensures SortSeq(s, after)[0] in s
    ensures forall y :: y in s ==> !after(SortSeq(s, after)[0], y)
  {
    var r := SortSeq(s, after);
    SortSeqSorted(s, after);
    assert r[0] in multiset(r);
    forall y | y in s ensures !after(r[0], y) {
      assert y in multiset(r);
      var j :| 0 <= j < |r| && r[j] == y;
      if j == 0 { } else { assert !after(r[0], r[j]); }
    }
  }

  /** `y` belongs behind no element of `s`. */
  ghost predicate Minimal<T>(s: seq<T>, y: T, after: (T, T) -> bool)
  {
    forall z :: z in s ==> !after(y, z)
  }

  /** The front of an insertion into a sorted sequence. */
  lemma InsertFront<T(!new)>(q: seq<T>, x: T, after: (T, T) -> bool)
    requires StrictWeakOrder(after)
    requires Sorted(q, after) && |q| > 0
    ensures Insert(q, x, after)[0] == (if after(q[0], x) then x else q[0])
    decreases |q|
  {
    var n := |q| - 1;
    if n > 0 && after(q[n], x) {
      var p := q[..n];
      assert Sorted(p, after);
      assert p[0] == q[0];
      InsertFront(p, x, after);
    }
  }

  /** `s[k]` is the first element of `s` that is minimal in `s`. */
  ghost predicate FirstMinimalAt<T>(s: seq<T>, k: int, after: (T, T) -> bool)
  {
    0 <= k < |s| && Minimal(s, s[k], after) && forall j :: 0 <= j < k ==> !Minimal(s, s[j], after)
  }

  /** When `x` belongs in front of the old front `f` of the sorted `p`, it
      is the first minimal element of `p + [x]`. */
  lemma EarliestNew<T(!new)>(p: seq<T>, x: T, f: T, after: (T, T) -> bool)
    requires StrictWeakOrder(after)
    requires Minimal(p, f, after) && after(f, x)
    ensures FirstMinimalAt(p + [x], |p|, after)
  {
    var s := p + [x];
    forall y | y in p ensures after(y, x) {
      assert !after(f, y);
    }
    forall z | z in s ensures !after(x, z) {
      if z != x { assert z in p && after(z, x); }
    }
    forall j | 0 <= j < |p| ensures !Minimal(s, s[j], after) {
      assert s[j] == p[j] && p[j] in p && after(p[j], x);
    }
  }

  /** When `x` does not belong in front of `p`'s first minimal element
      `p[k]`, that element stays the first minimal one of `p + [x]`. */
  lemma EarliestOld<T(!new)>(p: seq<T>, x: T, k: nat, after: (T, T) -> bool)
    requires FirstMinimalAt(p, k, after) && !after(p[k], x)
    ensures FirstMinimalAt(p + [x], k, after)
  {
    var s := p + [x];
    forall z | z in s ensures !after(p[k], z) {
      if z != x { assert z in p; }
    }
    forall j | 0 <= j < k ensures !Minimal(s, s[j], after) {
      assert s[j] == p[j];
      assert !Minimal(p, p[j], after);
      var w :| w in p && after(p[j], w);
      assert w in s;
    }
  }

  /** Stability: the front of the sort is the earliest minimal element of
      the input. */
  lemma {:induction false} SortSeqFirstEarliest<T(!new)>(s: seq<T>, after: (T, T) -> bool)
    requires StrictWeakOrder(after)
    requires |s| > 0
    ensures exists k :: FirstMinimalAt(s, k, after) && s[k] == SortSeq(s, after)[0]
    decreases |s|
  {
    var n := |s| - 1;
    var x := s[n];
    var p := s[..n];
    assert s == p + [x];
    if n == 0 {
      assert SortSeq(s, after)[0] == x;
      assert FirstMinimalAt(s, 0, after);
    } else {
      SortSeqFirstEarliest(p, after);
      var k :| FirstMinimalAt(p, k, after) && p[k] == SortSeq(p, after)[0];
      var q := SortSeq(p, after);
      SortSeqSorted(p, after);
      InsertFront(q, x, after);
      assert SortSeq(s, after) == Insert(q, x, after);
      if after(q[0], x) {
        EarliestNew(p, x, q[0], after);
        assert FirstMinimalAt(s, n, after) && s[n] == SortSeq(s, after)[0];
      } else {
        EarliestOld(p, x, k, after);
        assert FirstMinimalAt(s, k, after) && s[k] == SortSeq(s, after)[0];
      }
    }
  }

  /** One insertion step: `x` passes the element before it. */
  lemma InsertStep<T>(p: seq<T>, x: T, j: nat, after: (T, T) -> bool)
    requires 0 < j <= |p|
    requires after(p[j - 1], x)
    ensures Insert(p[..j], x, after) + p[j..] == Insert(p[..j - 1], x, after) + p[j - 1..]
  {
    assert p[..j][..j - 1] == p[..j - 1];
    assert p[j - 1..] == [p[j - 1]] + p[j..];
  }

  /** Where insertion stops, `x` is appended. */
  lemma InsertStop<T>(p: seq<T>, x: T, j: nat, after: (T, T) -> bool)
    requires j <= |p|
    requires j > 0 ==> !after(p[j - 1], x)
    ensures Insert(p[..j], x, after) == p[..j] + [x]
  {
    if j > 0 {
      assert p[..j][j - 1] == p[j - 1];
    }
  }

  /** Swapping `x` with its left neighbour in the array's abstract value. */
  lemma SwapStep<T>(p: seq<T>, x: T, rest: seq<T>, j: nat)
    requires 0 < j <= |p|
    ensures (p[..j] + [x] + p[j..] + rest)[j - 1 := x][j := p[j - 1]]
            == p[..j - 1] + [x] + p[j - 1..] + rest
  {
    var u := (p[..j] + [x] + p[j..] + rest)[j - 1 := x][j := p[j - 1]];
    var v := p[..j - 1] + [x] + p[j - 1..] + rest;
    assert |u| == |v|;
    forall k | 0 <= k < |u| ensures u[k] == v[k] {
      if k < j - 1 {
      } else if k == j - 1 {
      } else if k == j {
      } else if k < |p| + 1 {
      } else {
      }
    }
  }

  /** Where `x` and its left neighbour sit in the array's abstract value. */
  lemma Layout<T>(p: seq<T>, x: T, rest: seq<T>, j: nat)
    requires j <= |p|
    ensures |p[..j] + [x] + p[j..] + rest| == |p| + 1 + |rest|
    ensures (p[..j] + [x] + p[j..] + rest)[j] == x
    ensures j > 0 ==> (p[..j] + [x] + p[j..] + rest)[j - 1] == p[j - 1]
  {
  }

  /** Swaps `a[j]` with its left neighbour. */
  method SwapDown<T>(a: array<T>, j: nat)
    requires 0 < j < a.Length
    modifies a
    ensures a[..] == old(a[..])[j - 1 := old(a[j])][j := old(a[j - 1])]
  {
    a[j - 1], a[j] := a[j], a[j - 1];
  }

  /** Moves `a[i]` left into the sorted prefix `a[..i]`. */
  method InsertLast<T>(a: array<T>, i: nat, after: (T, T) -> bool)
    requires i < a.Length
    modifies a
    ensures a[..] == Insert(old(a[..i]), old(a[i]), after) + old(a[i + 1..])
  {
    ghost var p := a[..i];
    ghost var rest := a[i + 1..];
    var x := a[i];
    var j := i;
    assert p[..j] == p && p[j..] == [];
    assert Insert(p, x, after) == Insert(p[..j], x, after) + p[j..];
    assert a[..] == p[..j] + [x] + p[j..] + rest by {
      assert a[..] == a[..i] + [a[i]] + a[i + 1..];
    }
    while j > 0 && after(a[j - 1], x)
      invariant 0 <= j <= i
      invariant a[..] == p[..j] + [x] + p[j..] + rest
      invariant Insert(p, x, after) == Insert(p[..j], x, after) + p[j..]
    {
      Layout(p, x, rest, j);
      InsertStep(p, x, j, after);
      SwapStep(p, x, rest, j);
      SwapDown(a, j);
      j := j - 1;
    }
    Layout(p, x, rest, j);
    InsertStop(p, x, j, after);
  }

  /** Sorting one more element of `s` inserts it into the sorted prefix. */
  lemma SortSeqPrefix<T>(s: seq<T>, i: nat, after: (T, T) -> bool)
    requires i < |s|
    ensures SortSeq(s[..i + 1], after) == Insert(SortSeq(s[..i], after), s[i], after)
  {
    assert s[..i + 1][..i] == s[..i];
  }

  /** One turn of the outer loop: inserting the next element into the
      sorted prefix extends the sorted prefix by one. */
  lemma SortStep<T>(cur: seq<T>, input: seq<T>, i: nat, after: (T, T) -> bool)
    requires i < |input| && cur == SortSeq(input[..i], after) + input[i..]
    ensures i < |cur|
    ensures Insert(cur[..i], cur[i], after) + cur[i + 1..] == SortSeq(input[..i + 1], after) + input[i + 1..]
  {
    var sorted := SortSeq(input[..i], after);
    assert cur[..i] == sorted && cur[i] == input[i] && cur[i + 1..] == input[i + 1..];
    SortSeqPrefix(input, i, after);
  }

  /** One turn of the outer loop: `a[i]` joins the sorted prefix. */
  method SortOneMore<T>(a: array<T>, i: nat, ghost input: seq<T>, after: (T, T) -> bool)
    requires i < |input| && a[..] == SortSeq(input[..i], after) + input[i..]
    modifies a
    ensures a[..] == SortSeq(input[..i + 1], after) + input[i + 1..]
  {
    SortStep(a[..], input, i, after);
    InsertLast(a, i, after);
  }

  /** The comparator sort done in place on an array. */
  method InsertionSort<T>(a: array<T>, after: (T, T) -> bool)
    modifies a
    ensures a[..] == SortSeq(old(a[..]), after)
  {
    ghost var input := a[..];
    var i := 0;
    while i < a.Length
      invariant 0 <= i <= a.Length
      invariant a[..] == SortSeq(input[..i], after) + input[i..]
    {
      SortOneMore(a, i, input, after);
      i := i + 1;
    }
    assert input[..a.Length] == input && input[a.Length..] == [];
  }

  /** Copies a sequence into a fresh array. */
  method ToArray<T>(s: seq<T>) returns (a: array<T>)
    ensures fresh(a) && a[..] == s
  {
    a := new T[|s|](i requires 0 <= i < |s| => s[i]);
  }
}
