/**
 * Sorting as `Array.prototype.sort` does it: an insertion sort under a
 * comparison that must be a total preorder, and the default comparison of
 * strings by code units.
 */
module Ordering {

  ghost predicate TotalPreorder<T(!new)>(leq: (T, T) -> bool) {
    && (forall a, b :: leq(a, b) || leq(b, a))
    && (forall a, b, c :: leq(a, b) && leq(b, c) ==> leq(a, c))
  }

  ghost predicate Sorted<T>(s: seq<T>, leq: (T, T) -> bool) {
    forall i, j :: 0 <= i < j < |s| ==> leq(s[i], s[j])
  }

  /**
   * Inserts `x` into `s` in front of the first element that is strictly
   * greater than it, so that elements that compare equal keep their order.
   */
  function Insert<T>(x: T, s: seq<T>, leq: (T, T) -> bool): (r: seq<T>)
    ensures multiset(r) == multiset(s) + multiset{x}
    ensures |r| == |s| + 1
  {
    if s == [] || !leq(s[0], x) then [x] + s
    else
      assert s == [s[0]] + s[1..];
      [s[0]] + Insert(x, s[1..], leq)
  }

  /** An insertion sort: the elements of `s` inserted one after another, left to right. */
  function Sort<T>(s: seq<T>, leq: (T, T) -> bool): (r: seq<T>)
    ensures multiset(r) == multiset(s)
    ensures |r| == |s|
  {
    if s == [] then []
    else
      assert s == s[..|s| - 1] + [s[|s| - 1]];
      Insert(s[|s| - 1], Sort(s[..|s| - 1], leq), leq)
  }

  /** The sort neither adds nor loses elements. */
  lemma SortMembers<T>(s: seq<T>, leq: (T, T) -> bool)
    ensures forall i :: 0 <= i < |s| ==> s[i] in Sort(s, leq)
    ensures forall i :: 0 <= i < |s| ==> Sort(s, leq)[i] in s
  {
    var r := Sort(s, leq);
    forall i | 0 <= i < |s| ensures s[i] in r && r[i] in s {
      assert s[i] in multiset(s);
      assert r[i] in multiset(r);
    }
  }

  lemma {:induction false} InsertSorted<T(!new)>(x: T, s: seq<T>, leq: (T, T) -> bool)
    requires TotalPreorder(leq) && Sorted(s, leq)
    ensures Sorted(Insert(x, s, leq), leq)
  {
    if s == [] || !leq(s[0], x) {
    } else {
      var t := Insert(x, s[1..], leq);
      InsertSorted(x, s[1..], leq);
      forall y | y in t ensures leq(s[0], y) {
        assert y in multiset(t);
      }
    }
  }

  /** The sort yields an ascending permutation of its input. */
  lemma {:induction false} SortSorted<T(!new)>(s: seq<T>, leq: (T, T) -> bool)
    requires TotalPreorder(leq)
    ensures Sorted(Sort(s, leq), leq)
  {
    if s != [] {
      SortSorted(s[..|s| - 1], leq);
      InsertSorted(s[|s| - 1], Sort(s[..|s| - 1], leq), leq);
    }
  }

  /** `leq` does not separate `a` from `b`: each is at most the other. */
  predicate Tied<T>(leq: (T, T) -> bool, a: T, b: T) {
    leq(a, b) && leq(b, a)
  }

  /** The elements of `s` that `leq` ties with `x`, in their order in `s`. */
  function TiedWith<T>(s: seq<T>, x: T, leq: (T, T) -> bool): (r: seq<T>)
    ensures |r| <= |s|
  {
    if s == [] then []
    else (if Tied(leq, s[0], x) then [s[0]] else []) + TiedWith(s[1..], x, leq)
  }

  lemma {:induction false} TiedWithAppend<T>(a: seq<T>, b: seq<T>, x: T, leq: (T, T) -> bool)
    ensures TiedWith(a + b, x, leq) == TiedWith(a, x, leq) + TiedWith(b, x, leq)
    decreases |a|
  {
    if a == [] {
      assert a + b == b;
    } else {
      var head := if Tied(leq, a[0], x) then [a[0]] else [];
      TiedWithAppend(a[1..], b, x, leq);
      assert (a + b)[0] == a[0];
      assert (a + b)[1..] == a[1..] + b;
      assert TiedWith(a + b, x, leq) == head + TiedWith(a[1..] + b, x, leq);
      assert TiedWith(a, x, leq) == head + TiedWith(a[1..], x, leq);
    }
  }

  /** No element of `s` ties with `x` when all of them are strictly above `y` and `x` ties with `y`. */
  lemma {:induction false} TiedWithNone<T(!new)>(s: seq<T>, x: T, y: T, leq: (T, T) -> bool)
    requires TotalPreorder(leq)
    requires Tied(leq, x, y)
    requires forall k :: 0 <= k < |s| ==> !leq(s[k], y)
    ensures TiedWith(s, x, leq) == []
    decreases |s|
  {
    if s != [] {
      TiedWithNone(s[1..], x, y, leq);
    }
  }

  lemma {:induction false} SortedTail<T>(s: seq<T>, leq: (T, T) -> bool)
    requires s != [] && Sorted(s, leq)
    ensures Sorted(s[1..], leq)
  {
    forall i, j | 0 <= i < j < |s| - 1 ensures leq(s[1..][i], s[1..][j]) {
      assert s[1..][i] == s[i + 1] && s[1..][j] == s[j + 1];
    }
  }

  /** In a sorted list whose first element is strictly above `x`, every element is. */
  lemma {:induction false} AllAbove<T(!new)>(s: seq<T>, x: T, leq: (T, T) -> bool)
    requires TotalPreorder(leq) && Sorted(s, leq)
    requires s != [] && !leq(s[0], x)
    ensures forall k :: 0 <= k < |s| ==> !leq(s[k], x)
  {
    forall k | 0 <= k < |s| ensures !leq(s[k], x) {
      if k > 0 {
        assert leq(s[0], s[k]);
      }
    }
  }

  /** Inserting `x` in front of a sorted list whose elements are all strictly above it. */
  lemma {:induction false} InsertInFrontStable<T(!new)>(x: T, s: seq<T>, y: T, leq: (T, T) -> bool)
    requires TotalPreorder(leq) && Sorted(s, leq)
    requires s == [] || !leq(s[0], x)
    ensures TiedWith([x] + s, y, leq) == TiedWith(s, y, leq) + (if Tied(leq, x, y) then [x] else [])
  {
    assert ([x] + s)[1..] == s;
    if Tied(leq, x, y) && s != [] {
      AllAbove(s, x, leq);
      TiedWithNone(s, y, x, leq);
    }
  }

  /**
   * Inserting `x` into a sorted list puts it after every element it ties
   * with, so among tied elements `x` comes last.
   */
  lemma {:induction false} InsertStable<T(!new)>(x: T, s: seq<T>, y: T, leq: (T, T) -> bool)
    requires TotalPreorder(leq) && Sorted(s, leq)
    ensures TiedWith(Insert(x, s, leq), y, leq) == TiedWith(s, y, leq) + (if Tied(leq, x, y) then [x] else [])
    decreases |s|
  {
    if s == [] || !leq(s[0], x) {
      InsertInFrontStable(x, s, y, leq);
    } else {
      SortedTail(s, leq);
      InsertStable(x, s[1..], y, leq);
      InsertBehindStable(x, s, y, leq);
    }
  }

  /** The step of `InsertStable` when `x` goes behind the first element. */
  lemma {:induction false} InsertBehindStable<T>(x: T, s: seq<T>, y: T, leq: (T, T) -> bool)
    requires s != [] && leq(s[0], x)
    requires TiedWith(Insert(x, s[1..], leq), y, leq) == TiedWith(s[1..], y, leq) + (if Tied(leq, x, y) then [x] else [])
    ensures TiedWith(Insert(x, s, leq), y, leq) == TiedWith(s, y, leq) + (if Tied(leq, x, y) then [x] else [])
  {
    var t := Insert(x, s[1..], leq);
    var head := if Tied(leq, s[0], y) then [s[0]] else [];
    var last := if Tied(leq, x, y) then [x] else [];
    var a := TiedWith(s[1..], y, leq);
    assert TiedWith(Insert(x, s, leq), y, leq) == head + (a + last) by {
      InsertBehind(x, s, leq);
      TiedWithCons(s[0], t, y, leq);
    }
    assert TiedWith(s, y, leq) == head + a;
    AppendRegroup(TiedWith(Insert(x, s, leq), y, leq), TiedWith(s, y, leq), head, a, last);
  }

  lemma {:induction false} AppendRegroup<T>(p: seq<T>, q: seq<T>, h: seq<T>, a: seq<T>, l: seq<T>)
    requires p == h + (a + l) && q == h + a
    ensures p == q + l
  {
  }

  lemma {:induction false} InsertBehind<T>(x: T, s: seq<T>, leq: (T, T) -> bool)
    requires s != [] && leq(s[0], x)
    ensures Insert(x, s, leq) == [s[0]] + Insert(x, s[1..], leq)
  {
  }

  lemma {:induction false} TiedWithCons<T>(h: T, t: seq<T>, y: T, leq: (T, T) -> bool)
    ensures TiedWith([h] + t, y, leq) == (if Tied(leq, h, y) then [h] else []) + TiedWith(t, y, leq)
  {
    assert ([h] + t)[1..] == t;
  }

  /**
   * The sort is stable: the elements tied with any `y` come out in the
   * order they went in.
   */
  lemma {:induction false} SortStable<T(!new)>(s: seq<T>, y: T, leq: (T, T) -> bool)
    requires TotalPreorder(leq)
    ensures TiedWith(Sort(s, leq), y, leq) == TiedWith(s, y, leq)
    decreases |s|, 1
  {
    if s != [] {
      assert s == s[..|s| - 1] + [s[|s| - 1]];
      SortSnocStable(s[..|s| - 1], s[|s| - 1], y, leq);
    }
  }

  lemma {:induction false} SortSnocStable<T(!new)>(init: seq<T>, last: T, y: T, leq: (T, T) -> bool)
    requires TotalPreorder(leq)
    ensures TiedWith(Sort(init + [last], leq), y, leq) == TiedWith(init + [last], y, leq)
    decreases |init| + 1, 0
  {
    SortStable(init, y, leq);
    SortSorted(init, leq);
    InsertStable(last, Sort(init, leq), y, leq);
    TiedWithSingle(last, y, leq);
    SortStableStep(init, last, y, leq);
  }

  /** The step of `SortStable`: inserting the last element extends the tied elements by it. */
  lemma {:induction false} SortStableStep<T>(init: seq<T>, last: T, y: T, leq: (T, T) -> bool)
    requires TiedWith(Sort(init, leq), y, leq) == TiedWith(init, y, leq)
    requires TiedWith(Insert(last, Sort(init, leq), leq), y, leq)
             == TiedWith(Sort(init, leq), y, leq) + TiedWith([last], y, leq)
    ensures TiedWith(Sort(init + [last], leq), y, leq) == TiedWith(init + [last], y, leq)
  {
    SortSnoc(init, last, leq);
    TiedWithAppend(init, [last], y, leq);
  }

  lemma {:induction false} SortSnoc<T>(init: seq<T>, last: T, leq: (T, T) -> bool)
    ensures Sort(init + [last], leq) == Insert(last, Sort(init, leq), leq)
  {
    var s := init + [last];
    assert s[..|s| - 1] == init;
  }

  lemma {:induction false} TiedWithSingle<T>(x: T, y: T, leq: (T, T) -> bool)
    ensures TiedWith([x], y, leq) == if Tied(leq, x, y) then [x] else []
  {
    assert [x][1..] == [];
  }

  /**
   * The default order of `sort()` on strings: compare code unit by code
   * unit; a proper prefix comes first.
   */
  predicate LexLeq(a: string, b: string)
    decreases |a|
  {
    if a == [] then true
    else if b == [] then false
    else if a[0] != b[0] then a[0] < b[0]
    else LexLeq(a[1..], b[1..])
  }

  lemma {:induction false} LexLeqTransitive(a: string, b: string, c: string)
    requires LexLeq(a, b) && LexLeq(b, c)
    ensures LexLeq(a, c)
    decreases |a|
  {
    if a != [] && b != [] && c != [] && a[0] == b[0] && b[0] == c[0] {
      LexLeqTransitive(a[1..], b[1..], c[1..]);
    }
  }

  lemma {:induction false} LexLeqTotal(a: string, b: string)
    ensures LexLeq(a, b) || LexLeq(b, a)
    ensures LexLeq(a, b) && LexLeq(b, a) ==> a == b
    decreases |a|
  {
    if a != [] && b != [] && a[0] == b[0] {
      LexLeqTotal(a[1..], b[1..]);
      assert a == [a[0]] + a[1..] && b == [b[0]] + b[1..];
    }
  }

  /** Code-unit order is a total order: total, transitive and antisymmetric. */
  lemma LexLeqTotalOrder()
    ensures TotalPreorder(LexLeq)
    ensures forall a, b :: LexLeq(a, b) && LexLeq(b, a) ==> a == b
  {
    forall a, b ensures LexLeq(a, b) || LexLeq(b, a) {
      LexLeqTotal(a, b);
    }
    forall a, b | LexLeq(a, b) && LexLeq(b, a) ensures a == b {
      LexLeqTotal(a, b);
    }
    forall a, b, c | LexLeq(a, b) && LexLeq(b, c) ensures LexLeq(a, c) {
      LexLeqTransitive(a, b, c);
    }
  }
}
