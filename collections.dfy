/**
 * Sequence vocabulary shared by the catalog, the category page and the
 * offline scripts: optional values, duplicate-freedom, subsequences and the
 * first-occurrence de-duplication that `[...new Set(xs)]` performs.
 */
module Collections {

  datatype Option<+T> = None | Some(value: T)

  /** No value occurs twice in `s`. */
  predicate NoDups<T(==)>(s: seq<T>) {
    forall i, j :: 0 <= i < j < |s| ==> s[i] != s[j]
  }

  /** Without repeats, the head is not in the tail, and the tail has no repeats either. */
  lemma FirstNotInTail<T>(s: seq<T>)
    requires s != [] && NoDups(s)
    ensures s[0] !in s[1..] && NoDups(s[1..])
    ensures forall x :: x in s <==> x == s[0] || x in s[1..]
  {
    forall k | 0 <= k < |s| - 1 ensures s[1..][k] != s[0] {
      assert s[k + 1] != s[0];
    }
    assert s == [s[0]] + s[1..];
    forall i, j | 0 <= i < j < |s| - 1 ensures s[1..][i] != s[1..][j] {
      assert s[i + 1] != s[j + 1];
    }
  }

  /** `a` is obtained from `b` by deleting elements; the order of what is kept is unchanged. */
  ghost predicate IsSubseq<T>(a: seq<T>, b: seq<T>)
    decreases |b|
  {
    a == [] || (b != [] && ((a[0] == b[0] && IsSubseq(a[1..], b[1..])) || IsSubseq(a, b[1..])))
  }

  /** Every prefix of a subsequence of `b` is again a subsequence of `b`. */
  lemma {:induction false} SubseqPrefix<T>(a: seq<T>, b: seq<T>, k: nat)
    requires IsSubseq(a, b) && k <= |a|
    ensures IsSubseq(a[..k], b)
    decreases |b|
  {
    if k == 0 {
    } else if a[0] == b[0] && IsSubseq(a[1..], b[1..]) {
      SubseqPrefix(a[1..], b[1..], k - 1);
      assert a[..k][1..] == a[1..][..k - 1];
    } else {
      SubseqPrefix(a, b[1..], k);
    }
  }

  /** A subsequence of `b` only holds elements of `b`. */
  lemma {:induction false} SubseqMembers<T>(a: seq<T>, b: seq<T>)
    requires IsSubseq(a, b)
    ensures forall x :: x in a ==> x in b
    ensures |a| <= |b|
    decreases |b|
  {
    if a == [] {
    } else if a[0] == b[0] && IsSubseq(a[1..], b[1..]) {
      SubseqMembers(a[1..], b[1..]);
      assert a == [a[0]] + a[1..];
    } else {
      SubseqMembers(a, b[1..]);
      assert b == [b[0]] + b[1..];
    }
  }

  /**
   * One step of a filter taken from the front: keeping the head exactly when
   * it passes `p` turns the counts of the tail's filter into the counts of
   * the whole sequence's.
   */
  lemma FilterConsCounts<T>(s: seq<T>, rest: seq<T>, p: T -> bool)
    requires s != []
    requires forall x :: multiset(rest)[x] == if p(x) then multiset(s[1..])[x] else 0
    ensures forall x :: multiset(if p(s[0]) then [s[0]] + rest else rest)[x] == if p(x) then multiset(s)[x] else 0
  {
    assert s == [s[0]] + s[1..];
  }

  /** One step of a filter taken from the front keeps the result a subsequence. */
  lemma FilterConsSubseq<T>(s: seq<T>, rest: seq<T>, keep: bool)
    requires s != [] && IsSubseq(rest, s[1..])
    ensures IsSubseq(if keep then [s[0]] + rest else rest, s)
  {
    if keep {
      assert ([s[0]] + rest)[1..] == rest;
    }
  }

  /**
   * A filter that keeps every passing element as often as it occurs, and no
   * other, misses none of the passing elements and holds only passing ones.
   */
  lemma CountsFilter<T>(r: seq<T>, s: seq<T>, p: T -> bool)
    requires forall x :: multiset(r)[x] == if p(x) then multiset(s)[x] else 0
    ensures forall i :: 0 <= i < |r| ==> p(r[i])
    ensures forall i :: 0 <= i < |s| && p(s[i]) ==> s[i] in r
  {
    forall i | 0 <= i < |r| ensures p(r[i]) {
      assert r[i] in multiset(r);
    }
    forall i | 0 <= i < |s| && p(s[i]) ensures s[i] in r {
      assert s[i] in multiset(s);
    }
  }

  /**
   * The elements of `s` in the order of their first occurrence, each once:
   * the contents of a JavaScript `Set` filled from `s` in order. Defined
   * from the end, as one `add` after another.
   */
  function Distinct<T(==,!new)>(s: seq<T>): (r: seq<T>)
    ensures NoDups(r)
    ensures forall x :: x in r <==> x in s
    ensures |r| <= |s|
  {
    if s == [] then []
    else
      var d := Distinct(s[..|s| - 1]);
      assert forall i :: 0 <= i < |s| - 1 ==> s[i] == s[..|s| - 1][i];
      if s[|s| - 1] in d then d else d + [s[|s| - 1]]
  }

  /** Adding one more value to the set: it is appended exactly when it is new. */
  lemma DistinctSnoc<T(!new)>(s: seq<T>, x: T)
    ensures Distinct(s + [x]) == if x in Distinct(s) then Distinct(s) else Distinct(s) + [x]
  {
    assert (s + [x])[..|s + [x]| - 1] == s;
  }

  /**
   * `r` lists values in the order in which they first occur in `s`: wherever
   * `s` holds `r[j]`, every earlier entry `r[i]` has already occurred.
   */
  ghost predicate InFirstOccurrenceOrder<T>(r: seq<T>, s: seq<T>) {
    forall i, j, k :: 0 <= i < j < |r| && 0 <= k < |s| && s[k] == r[j] ==> r[i] in s[..k]
  }

  lemma {:induction false} DistinctFirstOccurrenceOrder<T(!new)>(s: seq<T>)
    ensures InFirstOccurrenceOrder(Distinct(s), s)
  {
    if s != [] {
      var n := |s|;
      var p, x := s[..n - 1], s[n - 1];
      var d := Distinct(p);
      DistinctFirstOccurrenceOrder(p);
      var r := Distinct(s);
      assert r == if x in d then d else d + [x];
      forall i, j, k | 0 <= i < j < |r| && 0 <= k < n && s[k] == r[j]
        ensures r[i] in s[..k]
      {
        assert r[i] == d[i];
        if k < n - 1 {
          assert p[k] == s[k];
          assert p[..k] == s[..k];
          if j < |d| {
            assert r[j] == d[j];
          }
        } else {
          assert r[i] in p;
          assert p == s[..k];
        }
      }
    }
  }

  /** A sequence without duplicates holds each value at most once. */
  lemma {:induction false} NoDupsMultiplicity<T>(s: seq<T>, x: T)
    requires NoDups(s)
    ensures multiset(s)[x] <= 1
  {
    if s != [] {
      assert s == [s[0]] + s[1..];
      NoDupsMultiplicity(s[1..], x);
      if s[0] == x {
        assert x !in s[1..];
      }
    }
  }

  /** Reordering a duplicate-free sequence cannot create duplicates. */
  lemma PermutationKeepsNoDups<T>(a: seq<T>, b: seq<T>)
    requires multiset(a) == multiset(b) && NoDups(a)
    ensures NoDups(b)
  {
    forall i, j | 0 <= i < j < |b|
      ensures b[i] != b[j]
    {
      if b[i] == b[j] {
        assert b == b[..i] + [b[i]] + b[i + 1..j] + [b[j]] + b[j + 1..];
        assert multiset(b)[b[i]] >= 2;
        NoDupsMultiplicity(a, b[i]);
        assert false;
      }
    }
  }
}
