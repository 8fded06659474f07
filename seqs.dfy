/**
 * Sequence helpers with the semantics of the JavaScript array methods the
 * application relies on: `find`, `findIndex`, `filter`, a `reduce` that sums,
 * and the find-index-then-replace-or-push upsert used by the store.
 */
module Seqs {

  /** The model of `T | undefined` / `T | null`. */
  datatype Maybe<T> = None | Some(value: T)

  /** Index of the first element satisfying `p` (`Array.prototype.findIndex`, with -1 as None). */
  function FindIndex<T>(s: seq<T>, p: T -> bool): (r: Maybe<nat>)
    ensures r.Some? ==> r.value < |s| && p(s[r.value])
    ensures r.Some? ==> forall k :: 0 <= k < r.value ==> !p(s[k])
    ensures r.None? <==> forall k :: 0 <= k < |s| ==> !p(s[k])
  {
    if s == [] then None
    else if p(s[0]) then Some(0)
    else match FindIndex(s[1..], p)
      case None => None
      case Some(i) => Some(i + 1)
  }

  /** Two predicates that agree on every element find the same index. */
  lemma {:induction false} FindIndexSamePredicate<T>(s: seq<T>, p: T -> bool, q: T -> bool)
    requires forall k :: 0 <= k < |s| ==> p(s[k]) == q(s[k])
    ensures FindIndex(s, p) == FindIndex(s, q)
  {
    if s != [] {
      FindIndexSamePredicate(s[1..], p, q);
    }
  }

  /**
   * A sequence that agrees with `s` on `p` at every index of `s`, and whose
   * further elements all fail `p`, has the same first match.
   */
  lemma {:induction false} FindIndexAgree<T>(s: seq<T>, r: seq<T>, p: T -> bool)
    requires |s| <= |r|
    requires forall k :: 0 <= k < |s| ==> p(r[k]) == p(s[k])
    requires forall k :: |s| <= k < |r| ==> !p(r[k])
    ensures FindIndex(r, p) == FindIndex(s, p)
  {
    if s != [] {
      FindIndexAgree(s[1..], r[1..], p);
    }
  }

  /** The first element satisfying `p` (`Array.prototype.find`). */
  function Find<T>(s: seq<T>, p: T -> bool): (r: Maybe<T>)
    ensures r.None? <==> forall k :: 0 <= k < |s| ==> !p(s[k])
    ensures r.Some? ==> exists i :: 0 <= i < |s| && s[i] == r.value && p(s[i]) && forall k :: 0 <= k < i ==> !p(s[k])
  {
    match FindIndex(s, p)
    case None => None
    case Some(i) => Some(s[i])
  }

  /** The negation of a predicate, for `filter(x => x.id !== id)`. */
  function Not<T>(p: T -> bool): T -> bool
  {
    x => !p(x)
  }

  /** The elements satisfying `p`, in order (`Array.prototype.filter`). */
  function Filter<T>(s: seq<T>, p: T -> bool): (r: seq<T>)
    ensures |r| <= |s|
    ensures forall k :: 0 <= k < |r| ==> p(r[k])
    ensures forall k :: 0 <= k < |r| ==> r[k] in s
    ensures forall k :: 0 <= k < |s| && p(s[k]) ==> s[k] in r
  {
    if s == [] then [] else (if p(s[0]) then [s[0]] else []) + Filter(s[1..], p)
  }

  /** Filtering commutes with concatenation: the filter keeps the stored order. */
  lemma {:induction false} FilterAppend<T>(a: seq<T>, b: seq<T>, p: T -> bool)
    ensures Filter(a + b, p) == Filter(a, p) + Filter(b, p)
  {
    if a == [] {
      assert a + b == b;
    } else {
      assert (a + b)[1..] == a[1..] + b;
      FilterAppend(a[1..], b, p);
    }
  }

  /** A filter drops an element exactly when some element fails the predicate. */
  lemma {:induction false} FilterShrinks<T>(s: seq<T>, p: T -> bool)
    ensures |Filter(s, p)| < |s| <==> exists k :: 0 <= k < |s| && !p(s[k])
    ensures |Filter(s, p)| == |s| <==> forall k :: 0 <= k < |s| ==> p(s[k])
  {
    if s != [] {
      FilterShrinks(s[1..], p);
      if !p(s[0]) {
        assert |Filter(s, p)| < |s|;
      } else {
        assert forall k :: 1 <= k < |s| ==> s[k] == s[1..][k - 1];
      }
    }
  }

  /** Every element passes either the predicate or its negation. */
  lemma {:induction false} FilterComplement<T>(s: seq<T>, p: T -> bool)
    ensures |Filter(s, p)| + |Filter(s, Not(p))| == |s|
  {
    if s != [] {
      FilterComplement(s[1..], p);
    }
  }

  /** Counting two disjoint predicates separately is counting their union. */
  lemma {:induction false} FilterDisjointUnion<T>(s: seq<T>, p: T -> bool, q: T -> bool, both: T -> bool)
    requires forall k :: 0 <= k < |s| ==> !(p(s[k]) && q(s[k]))
    requires forall k :: 0 <= k < |s| ==> both(s[k]) == (p(s[k]) || q(s[k]))
    ensures |Filter(s, both)| == |Filter(s, p)| + |Filter(s, q)|
  {
    if s != [] {
      FilterDisjointUnion(s[1..], p, q, both);
    }
  }

  /** A filter whose predicate fails everywhere keeps nothing. */
  lemma {:induction false} NoneKept<T>(s: seq<T>, p: T -> bool)
    requires forall k :: 0 <= k < |s| ==> !p(s[k])
    ensures Filter(s, p) == []
  {
    if s != [] {
      NoneKept(s[1..], p);
    }
  }

  /**
   * Replace the first element satisfying `p` by `x` at its index, or push `x`
   * when there is none (the `findIndex` / assign / `push` sequence of the store).
   */
  function Upsert<T>(s: seq<T>, p: T -> bool, x: T): (r: seq<T>)
    ensures |s| <= |r| <= |s| + 1
    ensures |r| == |s| <==> exists k :: 0 <= k < |s| && p(s[k])
    ensures |r| == |s| + 1 ==> r == s + [x]
    ensures x in r
    ensures forall k :: 0 <= k < |s| && r[k] != s[k] ==> p(s[k]) && forall j :: 0 <= j < k ==> !p(s[j])
  {
    match FindIndex(s, p)
    case Some(i) => assert s[i := x][i] == x; s[i := x]
    case None => s + [x]
  }

  /** After an upsert of a matching `x`, looking it up finds `x` itself. */
  lemma UpsertThenFind<T>(s: seq<T>, p: T -> bool, x: T)
    requires p(x)
    ensures Find(Upsert(s, p, x), p) == Some(x)
  {
    var r := Upsert(s, p, x);
    match FindIndex(s, p)
    case Some(i) =>
      assert r == s[i := x];
      assert forall k :: 0 <= k < i ==> r[k] == s[k];
      assert p(r[i]);
      assert FindIndex(r, p).Some?;
      assert FindIndex(r, p).value == i;
    case None =>
      assert r == s + [x];
      assert forall k :: 0 <= k < |s| ==> r[k] == s[k];
      assert FindIndex(r, p) == Some(|s|);
  }

  /** Upserting a matching element leaves every non-matching element where it was. */
  lemma {:induction false} UpsertKeepsOthers<T>(s: seq<T>, p: T -> bool, x: T)
    requires p(x)
    ensures Filter(Upsert(s, p, x), Not(p)) == Filter(s, Not(p))
  {
    match FindIndex(s, p)
    case Some(i) =>
      assert s == s[..i] + [s[i]] + s[i + 1..];
      assert Upsert(s, p, x) == s[..i] + [x] + s[i + 1..];
      FilterAppend(s[..i] + [s[i]], s[i + 1..], Not(p));
      FilterAppend(s[..i], [s[i]], Not(p));
      FilterAppend(s[..i] + [x], s[i + 1..], Not(p));
      FilterAppend(s[..i], [x], Not(p));
      assert Filter([x], Not(p)) == [] == Filter([s[i]], Not(p));
    case None =>
      FilterAppend(s, [x], Not(p));
      assert Filter([x], Not(p)) == [];
  }

  /** The sum of `f` over the elements (`reduce((sum, x) => sum + f(x), 0)`). */
  function SumOf<T>(s: seq<T>, f: T -> int): int
  {
    if s == [] then 0 else f(s[0]) + SumOf(s[1..], f)
  }

  /** A sum of non-negative terms is non-negative. */
  lemma {:induction false} SumOfNonNegative<T>(s: seq<T>, f: T -> int)
    requires forall k :: 0 <= k < |s| ==> f(s[k]) >= 0
    ensures SumOf(s, f) >= 0
  {
    if s != [] {
      SumOfNonNegative(s[1..], f);
    }
  }

  /** The sum of two functions is the sum of their sums. */
  lemma {:induction false} SumOfAdd<T>(s: seq<T>, f: T -> int, g: T -> int, h: T -> int)
    requires forall k :: 0 <= k < |s| ==> h(s[k]) == f(s[k]) + g(s[k])
    ensures SumOf(s, h) == SumOf(s, f) + SumOf(s, g)
  {
    if s != [] {
      SumOfAdd(s[1..], f, g, h);
    }
  }

  /** A sum of terms each bounded below by `lo` is at least `|s| * lo`; above by `hi`, at most `|s| * hi`. */
  lemma {:induction false} SumOfBounds<T>(s: seq<T>, f: T -> int, lo: int, hi: int)
    requires forall k :: 0 <= k < |s| ==> lo <= f(s[k]) <= hi
    ensures |s| * lo <= SumOf(s, f) <= |s| * hi
  {
    if s != [] {
      SumOfBounds(s[1..], f, lo, hi);
    }
  }
}
