/**
 The sort used wherever the repository calls `slices.SortStableFunc`, `sort.Slice` or `sort.Strings`:
 an insertion sort on an array, and the function of the contents that it computes.
 */
module Sorting {

  // ---------------------------------------------------------------- orders

  /** Comparing and tying are both transitive at three elements. */
  ghost predicate Chains<T>(less: (T, T) -> bool, x: T, y: T, z: T) {
    && (less(x, y) && less(y, z) ==> less(x, z))
    && (!less(x, y) && !less(y, z) ==> !less(x, z))
  }

  /** `less` is a strict weak order on the elements that satisfy `dom`. */
  ghost predicate WeakOrderOn<T(!new)>(less: (T, T) -> bool, dom: T -> bool) {
    && (forall x :: dom(x) ==> !less(x, x))
    && (forall x, y, z {:trigger Chains(less, x, y, z)} ::
          dom(x) && dom(y) && dom(z) ==> Chains(less, x, y, z))
  }

  /** Moreover no two distinct ones of them tie. */
  ghost predicate TotalOrderOn<T(!new)>(less: (T, T) -> bool, dom: T -> bool) {
    && WeakOrderOn(less, dom)
    && (forall x, y :: dom(x) && dom(y) && x != y ==> less(x, y) || less(y, x))
  }

  ghost predicate Within<T(!new)>(s: seq<T>, dom: T -> bool) {
    forall i :: 0 <= i < |s| ==> dom(s[i])
  }

  ghost predicate Sorted<T>(less: (T, T) -> bool, s: seq<T>) {
    forall i, j :: 0 <= i < j < |s| ==> !less(s[j], s[i])
  }

  ghost predicate StrictlySorted<T>(less: (T, T) -> bool, s: seq<T>) {
    forall i, j :: 0 <= i < j < |s| ==> less(s[i], s[j])
  }

  // ---------------------------------------------------------------- the sort

  /** `x` placed behind every element of the sorted `s` that it is not below. */
  function Insert<T>(less: (T, T) -> bool, s: seq<T>, x: T): (r: seq<T>)
    ensures |r| == |s| + 1
  {
    if s == [] || !less(x, s[|s| - 1]) then s + [x]
    else Insert(less, s[..|s| - 1], x) + [s[|s| - 1]]
  }

  function StableSort<T>(less: (T, T) -> bool, s: seq<T>): (r: seq<T>)
    ensures |r| == |s|
  {
    if s == [] then [] else Insert(less, StableSort(less, s[..|s| - 1]), s[|s| - 1])
  }

  /** The elements of `s` that tie with `e`, in their order. */
  function Ties<T>(less: (T, T) -> bool, s: seq<T>, e: T): seq<T> {
    if s == [] then []
    else Ties(less, s[..|s| - 1], e) +
         if !less(e, s[|s| - 1]) && !less(s[|s| - 1], e) then [s[|s| - 1]] else []
  }

  lemma {:induction false} InsertPermutes<T>(less: (T, T) -> bool, s: seq<T>, x: T)
    ensures multiset(Insert(less, s, x)) == multiset(s) + multiset{x}
  {
    if s != [] && less(x, s[|s| - 1]) {
      InsertPermutes(less, s[..|s| - 1], x);
      assert s == s[..|s| - 1] + [s[|s| - 1]];
    }
  }

  lemma {:induction false} SortPermutes<T>(less: (T, T) -> bool, s: seq<T>)
    ensures multiset(StableSort(less, s)) == multiset(s)
    ensures forall x :: x in StableSort(less, s) <==> x in s
  {
    if s != [] {
      SortPermutes(less, s[..|s| - 1]);
      InsertPermutes(less, StableSort(less, s[..|s| - 1]), s[|s| - 1]);
      assert s == s[..|s| - 1] + [s[|s| - 1]];
    }
    SameElements(StableSort(less, s), s);
  }

  lemma SameElements<T>(s: seq<T>, t: seq<T>)
    requires multiset(s) == multiset(t)
    ensures forall x :: x in s <==> x in t
    ensures |s| == |t|
  {
    forall x
      ensures x in s <==> x in t
    {
      assert x in s <==> x in multiset(s);
      assert x in t <==> x in multiset(t);
    }
    assert |multiset(s)| == |multiset(t)|;
  }

  predicate NoRepeats<T(==)>(s: seq<T>) {
    forall i, j :: 0 <= i < j < |s| ==> s[i] != s[j]
  }

  lemma {:induction false} NoRepeatsByCount<T>(s: seq<T>)
    ensures NoRepeats(s) <==> forall x :: x in s ==> multiset(s)[x] == 1
  {
    if s != [] {
      var n := |s| - 1;
      NoRepeatsByCount(s[..n]);
      assert s == s[..n] + [s[n]];
      if s[n] in s[..n] {
        assert s[n] in s && multiset(s)[s[n]] >= 2;
        var i :| 0 <= i < n && s[..n][i] == s[n];
        assert s[i] == s[n];
      } else {
        assert multiset(s[..n])[s[n]] == 0;
        forall x | x in s[..n] ensures x in s && multiset(s)[x] == multiset(s[..n])[x] {}
        assert NoRepeats(s) <==> NoRepeats(s[..n]) by {
          if NoRepeats(s[..n]) {
            forall i, j | 0 <= i < j < |s| ensures s[i] != s[j] {
              assert s[i] == s[..n][i];
              assert j < n ==> s[j] == s[..n][j];
            }
          }
          if NoRepeats(s) {
            forall i, j | 0 <= i < j < n ensures s[..n][i] != s[..n][j] {}
          }
        }
      }
    }
  }

  lemma SortKeepsDistinct<T>(less: (T, T) -> bool, s: seq<T>)
    requires NoRepeats(s)
    ensures NoRepeats(StableSort(less, s))
  {
    SortPermutes(less, s);
    NoRepeatsByCount(s);
    NoRepeatsByCount(StableSort(less, s));
  }

  lemma SortStaysWithin<T(!new)>(less: (T, T) -> bool, s: seq<T>, dom: T -> bool)
    requires Within(s, dom)
    ensures Within(StableSort(less, s), dom)
  {
    SortPermutes(less, s);
    var r := StableSort(less, s);
    forall i | 0 <= i < |r| ensures dom(r[i]) { assert r[i] in s; }
  }

  lemma {:induction false} InsertSorts<T(!new)>(less: (T, T) -> bool, s: seq<T>, x: T, dom: T -> bool)
    requires WeakOrderOn(less, dom) && Within(s, dom) && dom(x) && Sorted(less, s)
    ensures Sorted(less, Insert(less, s, x))
  {
    if s == [] {
    } else {
      var init, last := s[..|s| - 1], s[|s| - 1];
      if less(x, last) {
        InsertSorts(less, init, x, dom);
        InsertPermutes(less, init, x);
        var r := Insert(less, init, x);
        SameElements(r, init + [x]);
        assert !less(last, x) by { assert Chains(less, x, last, x); }
        forall i | 0 <= i < |r| ensures !less(last, r[i]) {
          assert r[i] in init + [x];
        }
      } else {
        forall i | 0 <= i < |s| ensures !less(x, s[i]) {
          assert Chains(less, x, last, s[i]);
        }
      }
    }
  }

  lemma {:induction false} SortSorts<T(!new)>(less: (T, T) -> bool, s: seq<T>, dom: T -> bool)
    requires WeakOrderOn(less, dom) && Within(s, dom)
    ensures Sorted(less, StableSort(less, s))
  {
    if s != [] {
      var init, last := s[..|s| - 1], s[|s| - 1];
      SortSorts(less, init, dom);
      SortStaysWithin(less, init, dom);
      InsertSorts(less, StableSort(less, init), last, dom);
    }
  }

  lemma {:induction false} InsertIsStable<T(!new)>(less: (T, T) -> bool, s: seq<T>, x: T, e: T, dom: T -> bool)
    requires WeakOrderOn(less, dom) && Within(s, dom) && dom(x) && dom(e)
    ensures Ties(less, Insert(less, s, x), e) == Ties(less, s + [x], e)
  {
    assert (s + [x])[..|s|] == s;
    if s != [] && less(x, s[|s| - 1]) {
      var init, last := s[..|s| - 1], s[|s| - 1];
      InsertIsStable(less, init, x, e, dom);
      assert (init + [x])[..|init|] == init;
      assert Insert(less, s, x)[..|s|] == Insert(less, init, x);
      assert Chains(less, x, e, last);
    }
  }

  /** The sort keeps the order of elements that tie. */
  lemma {:induction false} SortIsStable<T(!new)>(less: (T, T) -> bool, s: seq<T>, e: T, dom: T -> bool)
    requires WeakOrderOn(less, dom) && Within(s, dom) && dom(e)
    ensures Ties(less, StableSort(less, s), e) == Ties(less, s, e)
  {
    if s != [] {
      var init, last := s[..|s| - 1], s[|s| - 1];
      SortIsStable(less, init, e, dom);
      SortStaysWithin(less, init, dom);
      var r := StableSort(less, init);
      InsertIsStable(less, r, last, e, dom);
      assert (r + [last])[..|r|] == r;
    }
  }

  lemma LastIsTop<T>(less: (T, T) -> bool, s: seq<T>, y: T)
    requires Sorted(less, s) && y in s
    ensures y == s[|s| - 1] || !less(s[|s| - 1], y)
  {
    var i :| 0 <= i < |s| && s[i] == y;
  }

  lemma SameTop<T(!new)>(less: (T, T) -> bool, s: seq<T>, t: seq<T>, dom: T -> bool)
    requires TotalOrderOn(less, dom) && Within(s, dom) && s != [] && |s| == |t|
    requires Sorted(less, s) && Sorted(less, t) && forall x :: x in s <==> x in t
    ensures s[|s| - 1] == t[|t| - 1]
  {
    var a, b := s[|s| - 1], t[|t| - 1];
    assert a in s && b in t;
    LastIsTop(less, s, b);
    LastIsTop(less, t, a);
    assert dom(b) by {
      var i :| 0 <= i < |s| && s[i] == b;
    }
  }

  lemma DropLast<T>(s: seq<T>)
    requires s != []
    ensures multiset(s[..|s| - 1]) == multiset(s) - multiset{s[|s| - 1]}
  {
    assert s == s[..|s| - 1] + [s[|s| - 1]];
  }

  /** Under a total order a list has one sorted arrangement. */
  lemma {:induction false} SortedIsUnique<T(!new)>(less: (T, T) -> bool, s: seq<T>, t: seq<T>, dom: T -> bool)
    requires TotalOrderOn(less, dom) && Within(s, dom)
    requires multiset(s) == multiset(t) && Sorted(less, s) && Sorted(less, t)
    ensures s == t
  {
    hide TotalOrderOn, Sorted, Within;
    SameElements(s, t);
    if s != [] {
      var n := |s| - 1;
      SameTop(less, s, t, dom);
      DropLast(s);
      DropLast(t);
      PrefixSorted(less, s);
      PrefixSorted(less, t);
      PrefixWithin(s, dom);
      SortedIsUnique(less, s[..n], t[..n], dom);
      assert s == s[..n] + [s[n]] && t == t[..n] + [t[n]];
    }
  }

  lemma PrefixSorted<T>(less: (T, T) -> bool, s: seq<T>)
    requires Sorted(less, s) && s != []
    ensures Sorted(less, s[..|s| - 1])
  {
  }

  lemma PrefixWithin<T(!new)>(s: seq<T>, dom: T -> bool)
    requires Within(s, dom) && s != []
    ensures Within(s[..|s| - 1], dom)
  {
  }

  /** Hence the result does not depend on the order of the input. */
  lemma SortIgnoresOrder<T(!new)>(less: (T, T) -> bool, s: seq<T>, t: seq<T>, dom: T -> bool)
    requires TotalOrderOn(less, dom) && Within(s, dom) && multiset(s) == multiset(t)
    ensures StableSort(less, s) == StableSort(less, t)
  {
    SameElements(s, t);
    forall i | 0 <= i < |t| ensures dom(t[i]) { assert t[i] in s; }
    SortSorts(less, s, dom);
    SortSorts(less, t, dom);
    SortPermutes(less, s);
    SortPermutes(less, t);
    SortStaysWithin(less, s, dom);
    SortedIsUnique(less, StableSort(less, s), StableSort(less, t), dom);
  }

  // ---------------------------------------------------------------- in place

  /** Moving an element past the tail of a sorted stretch. */
  lemma {:induction false} InsertPast<T>(less: (T, T) -> bool, s: seq<T>, x: T, j: nat)
    requires j <= |s| && forall k :: j <= k < |s| ==> less(x, s[k])
    ensures Insert(less, s, x) == Insert(less, s[..j], x) + s[j..]
  {
    if j < |s| {
      InsertPast(less, s[..|s| - 1], x, j);
      assert s[..|s| - 1][..j] == s[..j];
      assert s[j..] == s[..|s| - 1][j..] + [s[|s| - 1]];
    } else {
      assert s[..j] == s;
    }
  }

  /** Where the walking-back loop stops, the array holds the insertion. */
  lemma InsertStopsAt<T>(less: (T, T) -> bool, prefix: seq<T>, x: T, j: nat)
    requires j <= |prefix| && forall k :: j <= k < |prefix| ==> less(x, prefix[k])
    requires j > 0 ==> !less(x, prefix[j - 1])
    ensures Insert(less, prefix, x) == prefix[..j] + [x] + prefix[j..]
  {
    InsertPast(less, prefix, x, j);
  }

  method SortInPlace<T>(a: array<T>, less: (T, T) -> bool)
    modifies a
    ensures a[..] == StableSort(less, old(a[..]))
  {
    ghost var input := a[..];
    var i := 0;
    while i < a.Length
      invariant 0 <= i <= a.Length
      invariant a[..] == StableSort(less, input[..i]) + input[i..]
    {
      InsertNext(a, less, i, StableSort(less, input[..i]), input[i..]);
      assert input[..i + 1][..i] == input[..i];
      assert input[i..][1..] == input[i + 1..];
      i := i + 1;
    }
    assert input[..i] == input && input[i..] == [];
  }

  /** One round: the element at `i` walks back to its place in the sorted prefix. */
  method InsertNext<T>(a: array<T>, less: (T, T) -> bool, i: nat, ghost prefix: seq<T>, ghost rest: seq<T>)
    requires i < a.Length && |prefix| == i && a[..] == prefix + rest
    modifies a
    ensures a[..] == Insert(less, prefix, rest[0]) + rest[1..]
  {
    var x := a[i];
    assert x == a[..][i] == rest[0];
    var j := i;
    assert prefix + rest == prefix[..i] + [x] + prefix[i..] + rest[1..];
    while j > 0 && less(x, a[j - 1])
      invariant 0 <= j <= i < a.Length
      invariant a[..] == prefix[..j] + [x] + prefix[j..] + rest[1..]
      invariant forall k :: j <= k < i ==> less(x, prefix[k])
    {
      assert a[j - 1] == a[..][j - 1] == prefix[j - 1] && a[j] == a[..][j] == x;
      a[j - 1], a[j] := a[j], a[j - 1];
      j := j - 1;
    }
    assert j > 0 ==> a[j - 1] == a[..][j - 1] && a[..][j - 1] == prefix[j - 1];
    InsertStopsAt(less, prefix, x, j);
  }

  lemma SameMembersSameMultiset<T>(s: seq<T>, t: seq<T>)
    requires NoRepeats(s) && NoRepeats(t) && forall x :: x in s <==> x in t
    ensures multiset(s) == multiset(t)
  {
    NoRepeatsByCount(s);
    NoRepeatsByCount(t);
    forall x ensures multiset(s)[x] == multiset(t)[x] {
      if x in s {
      } else {
        assert x !in multiset(s) && x !in multiset(t);
      }
    }
  }

  /** With a total order the members decide the sorted list. */
  lemma {:induction false} StrictlySortedSame<T(!new)>(less: (T, T) -> bool, s: seq<T>, t: seq<T>, dom: T -> bool)
    requires TotalOrderOn(less, dom) && Within(s, dom)
    requires StrictlySorted(less, s) && StrictlySorted(less, t) && forall x :: x in s <==> x in t
    ensures s == t
  {
    forall i | 0 <= i < |t| ensures dom(t[i]) { assert t[i] in s; }
    StrictIsDistinct(less, s, dom);
    StrictIsDistinct(less, t, dom);
    SameMembersSameMultiset(s, t);
    SortedIsUnique(less, s, t, dom);
  }

  lemma StrictIsDistinct<T(!new)>(less: (T, T) -> bool, s: seq<T>, dom: T -> bool)
    requires WeakOrderOn(less, dom) && Within(s, dom) && StrictlySorted(less, s)
    ensures NoRepeats(s) && Sorted(less, s)
  {
    forall i, j | 0 <= i < j < |s| ensures s[i] != s[j] && !less(s[j], s[i]) {
      assert less(s[i], s[j]);
      assert Chains(less, s[i], s[j], s[i]);
    }
  }
}
