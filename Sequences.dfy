/** Small sequence helpers shared by the modules of this model. */
module Sequences {

  /** The integers `lo, lo+1, ..., hi-1`, in increasing order (empty when `hi <= lo`). */
  function Range(lo: nat, hi: nat): (r: seq<nat>)
    ensures |r| == if hi <= lo then 0 else hi - lo
    ensures forall k :: 0 <= k < |r| ==> r[k] == lo + k
    decreases hi
  {
    if hi <= lo then [] else Range(lo, hi - 1) + [hi - 1]
  }

  lemma RangeMembership(lo: nat, hi: nat, x: nat)
    ensures x in Range(lo, hi) <==> lo <= x < hi
  {
    if lo <= x < hi {
      assert Range(lo, hi)[x - lo] == x;
    }
  }

  /** A range splits at any point between its ends. */
  lemma RangeSplit(lo: nat, mid: nat, hi: nat)
    requires lo <= mid <= hi
    ensures Range(lo, hi) == Range(lo, mid) + Range(mid, hi)
  {
  }

  /** The concatenation of a sequence of sequences, in order. */
  function Concat<T>(xs: seq<seq<T>>): (r: seq<T>)
    decreases |xs|
  {
    if |xs| == 0 then [] else Concat(xs[..|xs| - 1]) + xs[|xs| - 1]
  }

  /** The sum of the lengths of a sequence of sequences. */
  function SumOfLengths<T>(xs: seq<seq<T>>): nat
    decreases |xs|
  {
    if |xs| == 0 then 0 else SumOfLengths(xs[..|xs| - 1]) + |xs[|xs| - 1]|
  }

  lemma {:induction false} ConcatLength<T>(xs: seq<seq<T>>)
    ensures |Concat(xs)| == SumOfLengths(xs)
    decreases |xs|
  {
    if |xs| > 0 {
      ConcatLength(xs[..|xs| - 1]);
    }
  }

  lemma ConcatAppendOne<T>(xs: seq<seq<T>>, y: seq<T>)
    ensures Concat(xs + [y]) == Concat(xs) + y
  {
    assert (xs + [y])[..|xs|] == xs;
  }

  /** Concatenation distributes over appending. */
  lemma {:induction false} ConcatAppend<T>(xs: seq<seq<T>>, ys: seq<seq<T>>)
    ensures Concat(xs + ys) == Concat(xs) + Concat(ys)
    decreases |ys|
  {
    if |ys| > 0 {
      var n, zs := |ys|, xs + ys;
      assert zs[..|zs| - 1] == xs + ys[..n - 1] && zs[|zs| - 1] == ys[n - 1];
      assert Concat(zs) == Concat(xs + ys[..n - 1]) + ys[n - 1];
      ConcatAppend(xs, ys[..n - 1]);
      AppendAssoc(Concat(xs), Concat(ys[..n - 1]), ys[n - 1]);
    } else {
      assert xs + ys == xs;
    }
  }

  /** Appending part by part and then concatenating gives the elements of
      both concatenations. */
  lemma {:induction false} ConcatOfPairwiseAppend<T>(xs: seq<seq<T>>, ys: seq<seq<T>>)
    requires |xs| == |ys|
    ensures multiset(Concat(seq(|xs|, k requires 0 <= k < |xs| => xs[k] + ys[k])))
         == multiset(Concat(xs)) + multiset(Concat(ys))
    decreases |xs|
  {
    var n := |xs|;
    if n > 0 {
      var zs := seq(n, k requires 0 <= k < n => xs[k] + ys[k]);
      var front := seq(n - 1, k requires 0 <= k < n - 1 => xs[..n - 1][k] + ys[..n - 1][k]);
      assert zs[..n - 1] == front;
      ConcatOfPairwiseAppend(xs[..n - 1], ys[..n - 1]);
      assert Concat(zs) == Concat(front) + (xs[n - 1] + ys[n - 1]);
    }
  }

  lemma AppendAssoc<T>(a: seq<T>, b: seq<T>, c: seq<T>)
    ensures a + b + c == a + (b + c)
  {
  }

  /** `offsets[k]` is where part `k` starts in the concatenation of `xs`:
      the offsets start at 0 and advance by the length of each part. */
  predicate PartOffsets<T>(xs: seq<seq<T>>, offsets: seq<nat>) {
    |offsets| == |xs| + 1 && offsets[0] == 0 &&
    forall k :: 0 <= k < |xs| ==> offsets[k + 1] == offsets[k] + |xs[k]|
  }

  /** The offsets never decrease. */
  lemma {:induction false} OffsetsIncrease<T>(xs: seq<seq<T>>, offsets: seq<nat>, a: nat, b: nat)
    requires PartOffsets(xs, offsets) && a <= b <= |xs|
    ensures offsets[a] <= offsets[b]
    decreases b - a
  {
    if a < b {
      OffsetsIncrease(xs, offsets, a + 1, b);
    }
  }

  lemma {:induction false} PrefixLength<T>(xs: seq<seq<T>>, offsets: seq<nat>, k: nat)
    requires PartOffsets(xs, offsets) && k <= |xs|
    ensures |Concat(xs[..k])| == offsets[k]
    decreases k
  {
    if k > 0 {
      PrefixLength(xs, offsets, k - 1);
      assert xs[..k][..k - 1] == xs[..k - 1];
    }
  }

  /** The concatenation with part `k` replaced by `y`. */
  lemma ConcatAround<T>(xs: seq<seq<T>>, k: nat, y: seq<T>)
    requires k < |xs|
    ensures Concat(xs[k := y]) == Concat(xs[..k]) + y + Concat(xs[k + 1..])
  {
    assert xs[k := y] == xs[..k] + [y] + xs[k + 1..];
    ConcatAppend(xs[..k] + [y], xs[k + 1..]);
    ConcatAppendOne(xs[..k], y);
  }

  lemma WriteInside<T>(a: seq<T>, x: seq<T>, b: seq<T>, m: nat, y: T)
    requires m < |x|
    ensures (a + x + b)[|a| + m := y] == a + x[m := y] + b
  {
  }

  /** The concatenation is `offsets[|xs|]` long and part `k` is its slice
      from `offsets[k]` to `offsets[k + 1]`. */
  lemma ConcatPart<T>(xs: seq<seq<T>>, offsets: seq<nat>, k: nat)
    requires PartOffsets(xs, offsets) && k < |xs|
    ensures |Concat(xs)| == offsets[|xs|]
    ensures offsets[k + 1] <= |Concat(xs)| && Concat(xs)[offsets[k]..offsets[k + 1]] == xs[k]
  {
    assert xs[k := xs[k]] == xs;
    assert xs[..|xs|] == xs;
    ConcatAround(xs, k, xs[k]);
    PrefixLength(xs, offsets, k);
    PrefixLength(xs, offsets, |xs|);
  }

  /** Writing `y` at position `m` of part `k` writes it at `offsets[k] + m`
      of the concatenation. */
  lemma ConcatWrite<T>(xs: seq<seq<T>>, offsets: seq<nat>, k: nat, m: nat, y: T)
    requires PartOffsets(xs, offsets) && k < |xs| && m < |xs[k]|
    ensures offsets[k] + m < |Concat(xs)|
    ensures Concat(xs)[offsets[k] + m := y] == Concat(xs[k := xs[k][m := y]])
  {
    assert xs[k := xs[k]] == xs;
    ConcatAround(xs, k, xs[k]);
    ConcatAround(xs, k, xs[k][m := y]);
    PrefixLength(xs, offsets, k);
    WriteInside(Concat(xs[..k]), xs[k], Concat(xs[k + 1..]), m, y);
  }

  /** Parts that hold only `v` concatenate to a run of `v`. */
  lemma {:induction false} ConcatOfConstant<T>(xs: seq<seq<T>>, v: T)
    requires forall k, m :: 0 <= k < |xs| && 0 <= m < |xs[k]| ==> xs[k][m] == v
    ensures Concat(xs) == seq(|Concat(xs)|, _ => v)
    decreases |xs|
  {
    if |xs| > 0 {
      ConcatOfConstant(xs[..|xs| - 1], v);
    }
  }

  /** Replacing one part `xs[t]` of a concatenation by `xs[t] + ys` adds the
      elements of `ys` to the whole, as a multiset. */
  lemma {:induction false} ConcatExtendPart<T>(xs: seq<seq<T>>, t: nat, ys: seq<T>)
    requires t < |xs|
    ensures multiset(Concat(xs[t := xs[t] + ys])) == multiset(Concat(xs)) + multiset(ys)
    decreases |xs|
  {
    var n := |xs|;
    var front, xs' := xs[..n - 1], xs[t := xs[t] + ys];
    assert Concat(xs) == Concat(front) + xs[n - 1];
    if t < n - 1 {
      var front' := front[t := xs[t] + ys];
      assert xs'[..n - 1] == front' && xs'[n - 1] == xs[n - 1];
      assert Concat(xs') == Concat(front') + xs[n - 1];
      ConcatExtendPart(front, t, ys);
      assert multiset(Concat(front')) == multiset(Concat(front)) + multiset(ys);
    } else {
      assert xs'[..n - 1] == front && xs'[n - 1] == xs[n - 1] + ys;
      assert Concat(xs') == Concat(front) + (xs[n - 1] + ys);
    }
  }

  /** The sum of a sequence of counts. */
  function Sum(s: seq<nat>): nat
    decreases |s|
  {
    if |s| == 0 then 0 else Sum(s[..|s| - 1]) + s[|s| - 1]
  }

  /** Adding one to one count adds one to the sum. */
  lemma {:induction false} SumIncrement(s: seq<nat>, k: nat)
    requires k < |s|
    ensures Sum(s[k := s[k] + 1]) == Sum(s) + 1
    decreases |s|
  {
    var t := s[k := s[k] + 1];
    assert t[..|t| - 1] == if k < |s| - 1 then s[..|s| - 1][k := s[k] + 1] else s[..|s| - 1];
    if k < |s| - 1 {
      SumIncrement(s[..|s| - 1], k);
    }
  }

  lemma {:induction false} SumOfZeros(n: nat)
    ensures Sum(seq(n, _ => 0)) == 0
  {
    if n > 0 {
      assert seq(n, _ => 0)[..n - 1] == seq(n - 1, _ => 0);
      SumOfZeros(n - 1);
    }
  }

  /** The number of elements of `s` that satisfy `p`. */
  function Count<T>(s: seq<T>, p: T -> bool): nat
    decreases |s|
  {
    if |s| == 0 then 0 else Count(s[..|s| - 1], p) + (if p(s[|s| - 1]) then 1 else 0)
  }

  /** The count is the size of the set of positions that satisfy `p`, so
      it is at most the length of the sequence. */
  lemma {:induction false} CountIsCardinality<T>(s: seq<T>, p: T -> bool)
    ensures Count(s, p) == |set i | 0 <= i < |s| && p(s[i])|
    ensures Count(s, p) <= |s|
    decreases |s|
  {
    var n := |s|;
    if n > 0 {
      var front := s[..n - 1];
      CountIsCardinality(front, p);
      var before := set i | 0 <= i < n - 1 && p(front[i]);
      var all := set i | 0 <= i < n && p(s[i]);
      if p(s[n - 1]) {
        assert all == before + {n - 1};
      } else {
        assert all == before;
      }
    }
  }

  /** Removing the same element from two equal multisets leaves them equal. */
  lemma MultisetCancel<T>(a: multiset<T>, b: multiset<T>, x: T)
    requires a + multiset{x} == b + multiset{x}
    ensures a == b
  {
    forall y ensures a[y] == b[y] {
      assert (a + multiset{x})[y] == (b + multiset{x})[y];
    }
  }
}
