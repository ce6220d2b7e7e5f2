/** Generic facts about sequences used by several modules. */
module Seqs {

  /** `a` is `b` with some elements left out, the rest kept in order. */
  predicate IsSubsequence<T(==)>(a: seq<T>, b: seq<T>)
    decreases |b|
  {
    if a == [] then true
    else if b == [] then false
    else if a[0] == b[0] then IsSubsequence(a[1..], b[1..])
    else IsSubsequence(a, b[1..])
  }

  lemma {:induction false} SubsequenceSnoc<T>(a: seq<T>, b: seq<T>, x: T, keep: bool)
    requires IsSubsequence(a, b)
    ensures IsSubsequence(if keep then a + [x] else a, b + [x])
    decreases |b|
  {
    if a == [] {
      if keep {
        assert a + [x] == [x];
        SubsequenceOfSingleton(x, b);
      } else {
        EmptySubsequence(b + [x]);
      }
    } else {
      assert b != [];
      var ka := if keep then a + [x] else a;
      assert ka[0] == a[0] && (b + [x])[0] == b[0];
      assert (b + [x])[1..] == b[1..] + [x];
      if a[0] == b[0] {
        SubsequenceSnoc(a[1..], b[1..], x, keep);
        assert ka[1..] == if keep then a[1..] + [x] else a[1..];
      } else {
        SubsequenceSnoc(a, b[1..], x, keep);
      }
    }
  }

  lemma {:induction false} EmptySubsequence<T>(b: seq<T>)
    ensures IsSubsequence([], b)
  {
  }

  lemma {:induction false} SubsequenceOfSingleton<T>(x: T, b: seq<T>)
    ensures IsSubsequence([x], b + [x])
    decreases |b|
  {
    if b != [] {
      assert (b + [x])[1..] == b[1..] + [x];
      if b[0] != x {
        SubsequenceOfSingleton(x, b[1..]);
      } else {
        assert [x][1..] == [];
      }
    }
  }

  lemma {:induction false} SubsequenceMembers<T>(a: seq<T>, b: seq<T>)
    requires IsSubsequence(a, b)
    ensures forall x :: x in a ==> x in b
    decreases |b|
  {
    if a != [] && b != [] {
      if a[0] == b[0] {
        SubsequenceMembers(a[1..], b[1..]);
        assert forall x :: x in a ==> x == a[0] || x in a[1..];
      } else {
        SubsequenceMembers(a, b[1..]);
      }
    }
  }

  /** The elements of a sequence appear at most once each. */
  predicate NoDuplicates<T(==)>(s: seq<T>) {
    forall i, j :: 0 <= i < j < |s| ==> s[i] != s[j]
  }

  /** Python's `s[:n]` for `n >= 0`, on any sequence. */
  function Prefix<T>(s: seq<T>, n: nat): (r: seq<T>)
    ensures |r| == if n < |s| then n else |s|
    ensures r == s[..|r|]
  {
    if n < |s| then s[..n] else s
  }

  /** Every element occurs at most once. */
  ghost predicate AtMostOnce<T(!new)>(s: seq<T>) {
    forall x :: multiset(s)[x] <= 1
  }

  /** A set has a subset of every size up to its own. */
  lemma {:induction false} SubsetOfSize<T>(s: set<T>, n: nat)
    requires n <= |s|
    ensures exists t: set<T> :: t <= s && |t| == n
  {
    if n > 0 {
      var x :| x in s;
      SubsetOfSize(s - {x}, n - 1);
      var t: set<T> :| t <= s - {x} && |t| == n - 1;
      assert t + {x} <= s && |t + {x}| == n;
    } else {
      assert {} <= s;
    }
  }

  /** `f` applied to every element, in order. */
  function Mapped<A, B>(f: A -> B, s: seq<A>): (r: seq<B>)
    ensures |r| == |s|
    ensures forall i :: 0 <= i < |s| ==> r[i] == f(s[i])
  {
    if s == [] then [] else Mapped(f, s[..|s| - 1]) + [f(s[|s| - 1])]
  }

  lemma MappedAppend<A, B>(f: A -> B, a: seq<A>, b: seq<A>)
    ensures Mapped(f, a + b) == Mapped(f, a) + Mapped(f, b)
  {
    var l := Mapped(f, a + b);
    var r := Mapped(f, a) + Mapped(f, b);
    assert |l| == |r|;
    forall i | 0 <= i < |l| ensures l[i] == r[i] {
      if i < |a| {
        assert (a + b)[i] == a[i];
      } else {
        assert (a + b)[i] == b[i - |a|];
      }
    }
  }

  /** Mapping one more element. */
  lemma MappedNext<A, B>(f: A -> B, s: seq<A>, i: nat)
    requires i < |s|
    ensures Mapped(f, s[..i + 1]) == Mapped(f, s[..i]) + [f(s[i])]
  {
    assert s[..i + 1][..i] == s[..i];
  }

  lemma SplitAt<T>(s: seq<T>, k: nat)
    requires k <= |s|
    ensures s[..k] + s[k..] == s
  {
  }
}
