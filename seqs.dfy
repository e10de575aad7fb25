/** `Array.prototype.filter` and the facts about it the handlers rely on. */
module Seqs {

  /** `Array.prototype.filter`: the elements satisfying `p`, each with its
      multiplicity, in their original order. */
  function Keep<T(==,!new)>(s: seq<T>, p: T -> bool): (r: seq<T>)
    ensures forall x :: x in r <==> x in s && p(x)
    ensures |r| <= |s|
  {
    if s == [] then []
    else
      assert s == [s[0]] + s[1..];
      (if p(s[0]) then [s[0]] else []) + Keep(s[1..], p)
  }

  /** Each element passing the test keeps all its occurrences. */
  lemma {:induction false} KeepCounts<T(!new)>(s: seq<T>, p: T -> bool, x: T)
    ensures multiset(Keep(s, p))[x] == if p(x) then multiset(s)[x] else 0
  {
    if s != [] {
      KeepCounts(s[1..], p, x);
      assert s == [s[0]] + s[1..];
    }
  }

  /** Filtering a concatenation filters each part: order is preserved. */
  lemma {:induction false} KeepAppend<T(!new)>(a: seq<T>, b: seq<T>, p: T -> bool)
    ensures Keep(a + b, p) == Keep(a, p) + Keep(b, p)
  {
    if a != [] {
      assert (a + b)[1..] == a[1..] + b;
      KeepAppend(a[1..], b, p);
    } else {
      assert a + b == b;
    }
  }

  /** Filtering keeps a list whose every element passes unchanged. */
  lemma {:induction false} KeepAll<T(!new)>(s: seq<T>, p: T -> bool)
    requires forall i | 0 <= i < |s| :: p(s[i])
    ensures Keep(s, p) == s
  {
    if s != [] {
      KeepAll(s[1..], p);
      assert s == [s[0]] + s[1..];
    }
  }

  /** Every element passes exactly one of a test and its negation, so the
      two filtered lists share out the whole list. */
  lemma {:induction false} KeepSplits<T(!new)>(s: seq<T>, p: T -> bool, q: T -> bool)
    requires forall x :: q(x) == !p(x)
    ensures |Keep(s, p)| + |Keep(s, q)| == |s|
  {
    if s != [] {
      KeepSplits(s[1..], p, q);
    }
  }
}
