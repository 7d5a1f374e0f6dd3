/** Palindromic read detection (`flagPalindromicReads` and its thread
    function). Each read is aligned with its own reverse complement; the read
    is flagged palindromic when the alignment covers enough of its markers and
    enough of the aligned marker pairs lie near the diagonal.

    The self-alignment of read `r` is computed outside the model and is the
    input `alignments[r]`: the marker count of the read and the ordinal pairs
    the alignment matched. The fraction tests of the source divide in double
    precision; here they are exact rational comparisons, kept with the case
    of a read without markers (where the division gives NaN or infinity, the
    comparison is false and the read is not skipped). */
module Palindromes {
  import opened Sequences
  import opened AlignmentComputation

  /** A marker ordinal that converts to a 32-bit signed integer unchanged. */
  type Ordinal = x: nat | x < 0x8000_0000

  /** The self-alignment of one read: its marker count and the ordinal pairs
      (position on the read, position on its reverse complement) matched. */
  datatype SelfAlignment = SelfAlignment(totalMarkerCount: nat, ordinals: seq<(Ordinal, Ordinal)>)

  /** A fraction threshold `num / den`. */
  datatype Fraction = Fraction(num: int, den: nat)

  /** The parameters of the classification. */
  datatype PalindromeThresholds = PalindromeThresholds(
    alignedFraction: Fraction, nearDiagonalFraction: Fraction, deltaThreshold: nat)

  predicate ValidThresholds(t: PalindromeThresholds) {
    t.alignedFraction.den > 0 && t.nearDiagonalFraction.den > 0
  }

  /** Reads are handed out in batches of this many. */
  const PalindromeBatchSize: nat := 1000

  /** `abs(int32(ordinal0) - int32(ordinal1))`: the distance between the two
      ordinals, which fits a 32-bit signed integer, so neither the
      subtraction nor `abs` overflows. */
  function Delta(ordinals: (Ordinal, Ordinal)): (d: nat)
    ensures d as int == ordinals.0 - ordinals.1 || d as int == ordinals.1 - ordinals.0
    ensures d >= ordinals.0 - ordinals.1 && d >= ordinals.1 - ordinals.0
    ensures d < 0x8000_0000
  {
    if ordinals.0 >= ordinals.1 then ordinals.0 - ordinals.1 else ordinals.1 - ordinals.0
  }

  /** The test a matched pair must pass to count as near the diagonal. */
  function IsNearDiagonal(deltaThreshold: nat): ((Ordinal, Ordinal)) -> bool {
    ordinals => Delta(ordinals) < deltaThreshold
  }

  /** The number of matched pairs near the diagonal. */
  function NearDiagonalCount(a: SelfAlignment, deltaThreshold: nat): nat {
    Count(a.ordinals, IsNearDiagonal(deltaThreshold))
  }

  /** The value of a fraction threshold. */
  function Ratio(f: Fraction): real
    requires f.den > 0
  {
    f.num as real / f.den as real
  }

  /** `double(count) / double(total) < threshold`: false when `total` is 0,
      where the quotient is NaN or infinite; otherwise the quotient compared
      exactly. */
  predicate FractionBelow(count: nat, total: nat, threshold: Fraction): (below: bool)
    requires threshold.den > 0
    ensures total == 0 ==> !below
    ensures total > 0 ==> (below <==> count as real / total as real < Ratio(threshold))
  {
    CrossMultiply(count, total, threshold);
    total > 0 && count * threshold.den < threshold.num * total
  }

  /** Comparing two quotients is comparing the cross products. */
  lemma CrossMultiply(count: nat, total: nat, f: Fraction)
    requires f.den > 0
    ensures total > 0 ==> (count as real / total as real < Ratio(f) <==> count * f.den < f.num * total)
  {
    if total > 0 {
      var c, t, n, d := count as real, total as real, f.num as real, f.den as real;
      assert (c * d < n * t) == ((count * f.den) < (f.num * total));
      assert c / t < n / d <==> c * d < n * t by {
        assert c / t * (t * d) == c * d;
        assert n / d * (t * d) == n * t;
        assert t * d > 0.0;
      }
    }
  }

  /** A read is palindromic when neither fraction test rejects it: it has no
      markers, or both the aligned fraction and the near-diagonal fraction
      reach their thresholds. */
  predicate IsPalindromic(a: SelfAlignment, t: PalindromeThresholds): (p: bool)
    requires ValidThresholds(t)
    ensures p <==> (a.totalMarkerCount == 0 ||
      (|a.ordinals| as real / a.totalMarkerCount as real >= Ratio(t.alignedFraction) &&
       NearDiagonalCount(a, t.deltaThreshold) as real / a.totalMarkerCount as real >= Ratio(t.nearDiagonalFraction)))
  {
    !FractionBelow(|a.ordinals|, a.totalMarkerCount, t.alignedFraction) &&
    !FractionBelow(NearDiagonalCount(a, t.deltaThreshold), a.totalMarkerCount, t.nearDiagonalFraction)
  }

  /** The near-diagonal loop: count the matched pairs whose ordinals differ
      by less than `deltaThreshold`. */
  method CountNearDiagonal(ordinals: seq<(Ordinal, Ordinal)>, deltaThreshold: nat) returns (nearDiagonalMarkerCount: nat)
    ensures nearDiagonalMarkerCount == Count(ordinals, IsNearDiagonal(deltaThreshold))
    ensures nearDiagonalMarkerCount <= |ordinals|
  {
    nearDiagonalMarkerCount := 0;
    for i := 0 to |ordinals|
      invariant nearDiagonalMarkerCount == Count(ordinals[..i], IsNearDiagonal(deltaThreshold))
    {
      var ordinal0: int := ordinals[i].0;
      var ordinal1: int := ordinals[i].1;
      var delta := if ordinal0 >= ordinal1 then ordinal0 - ordinal1 else ordinal1 - ordinal0;
      assert ordinals[..i + 1][..i] == ordinals[..i];
      if delta < deltaThreshold {
        nearDiagonalMarkerCount := nearDiagonalMarkerCount + 1;
      }
    }
    assert ordinals[..|ordinals|] == ordinals;
    CountIsCardinality(ordinals, IsNearDiagonal(deltaThreshold));
  }

  /** The near-diagonal count is the number of positions whose pair of
      ordinals differs by less than `deltaThreshold`. */
  lemma {:induction false} NearDiagonalCountIsCardinality(s: seq<(Ordinal, Ordinal)>, deltaThreshold: nat)
    ensures Count(s, IsNearDiagonal(deltaThreshold)) == |set i | 0 <= i < |s| && Delta(s[i]) < deltaThreshold|
    decreases |s|
  {
    var n := |s|;
    if n > 0 {
      var front := s[..n - 1];
      NearDiagonalCountIsCardinality(front, deltaThreshold);
      var p := IsNearDiagonal(deltaThreshold);
      assert Count(s, p) == Count(front, p) + if p(s[n - 1]) then 1 else 0;
      NearDiagonalPositionsStep(s, front, deltaThreshold);
    }
  }

  /** The positions near the diagonal in `s` are those in all but the last
      pair of `s`, plus the last position if its pair is near the diagonal. */
  lemma NearDiagonalPositionsStep(s: seq<(Ordinal, Ordinal)>, front: seq<(Ordinal, Ordinal)>, deltaThreshold: nat)
    requires |s| > 0 && front == s[..|s| - 1]
    ensures |set i | 0 <= i < |s| && Delta(s[i]) < deltaThreshold| ==
      |set i | 0 <= i < |front| && Delta(front[i]) < deltaThreshold| + if Delta(s[|s| - 1]) < deltaThreshold then 1 else 0
  {
    var n := |s|;
    var before := set i | 0 <= i < n - 1 && Delta(front[i]) < deltaThreshold;
    var all := set i | 0 <= i < n && Delta(s[i]) < deltaThreshold;
    assert forall i :: 0 <= i < n - 1 ==> front[i] == s[i];
    if Delta(s[n - 1]) < deltaThreshold {
      assert n - 1 !in before;
      assert all == before + {n - 1};
    } else {
      assert all == before;
    }
  }

  /** Fewer pairs pass a smaller delta threshold. */
  lemma {:induction false} NearDiagonalCountMonotone(s: seq<(Ordinal, Ordinal)>, d1: nat, d2: nat)
    requires d1 <= d2
    ensures Count(s, IsNearDiagonal(d1)) <= Count(s, IsNearDiagonal(d2))
    decreases |s|
  {
    if |s| > 0 {
      NearDiagonalCountMonotone(s[..|s| - 1], d1, d2);
    }
  }

  /** The classification is monotone in its parameters: lowering either
      fraction threshold or raising the delta threshold never unflags a
      read. Every read flagged has at least as many near-diagonal pairs as
      its near-diagonal threshold demands, and never more than it has
      matched pairs. */
  lemma PalindromicUnderLooserThresholds(a: SelfAlignment, strict: PalindromeThresholds, loose: PalindromeThresholds)
    requires ValidThresholds(strict) && ValidThresholds(loose)
    requires loose.alignedFraction.num * strict.alignedFraction.den <= strict.alignedFraction.num * loose.alignedFraction.den
    requires loose.nearDiagonalFraction.num * strict.nearDiagonalFraction.den <= strict.nearDiagonalFraction.num * loose.nearDiagonalFraction.den
    requires strict.deltaThreshold <= loose.deltaThreshold
    ensures IsPalindromic(a, strict) ==> IsPalindromic(a, loose)
  {
    if IsPalindromic(a, strict) && a.totalMarkerCount > 0 {
      var total := a.totalMarkerCount;
      NearDiagonalCountMonotone(a.ordinals, strict.deltaThreshold, loose.deltaThreshold);
      FractionAtLeast(|a.ordinals|, total, strict.alignedFraction, loose.alignedFraction);
      FractionAtLeast(NearDiagonalCount(a, strict.deltaThreshold), total, strict.nearDiagonalFraction, loose.nearDiagonalFraction);
      FractionAtLeastOfMore(NearDiagonalCount(a, strict.deltaThreshold), NearDiagonalCount(a, loose.deltaThreshold), total, loose.nearDiagonalFraction);
    }
  }

  /** `count / total >= f` and `g <= f` give `count / total >= g`. */
  lemma FractionAtLeast(count: nat, total: nat, f: Fraction, g: Fraction)
    requires f.den > 0 && g.den > 0 && total > 0
    requires g.num * f.den <= f.num * g.den
    requires !FractionBelow(count, total, f)
    ensures !FractionBelow(count, total, g)
  {
    // count * f.den >= f.num * total, so count * f.den * g.den >= f.num * g.den * total >= g.num * f.den * total.
    assert count * f.den * g.den >= f.num * total * g.den by {
      MultiplyBoth(count * f.den, f.num * total, g.den);
    }
    assert f.num * g.den * total >= g.num * f.den * total by {
      MultiplyBoth(f.num * g.den, g.num * f.den, total);
    }
    assert count * g.den * f.den >= g.num * total * f.den;
    if count * g.den < g.num * total {
      MultiplyBothStrict(count * g.den, g.num * total, f.den);
    }
  }

  /** A larger count keeps a fraction test passed. */
  lemma FractionAtLeastOfMore(c1: nat, c2: nat, total: nat, f: Fraction)
    requires f.den > 0 && c1 <= c2
    requires !FractionBelow(c1, total, f)
    ensures !FractionBelow(c2, total, f)
  {
    MultiplyBoth(c2, c1, f.den);
  }

  lemma MultiplyBoth(x: int, y: int, k: nat)
    requires x >= y
    ensures x * k >= y * k
  {
  }

  lemma MultiplyBothStrict(x: int, y: int, k: nat)
    requires x < y && k > 0
    ensures x * k < y * k
  {
  }

  /** A read without markers is flagged whatever the thresholds: both
      quotients are NaN or infinite and neither test rejects it. */
  lemma ReadWithoutMarkersIsPalindromic(a: SelfAlignment, t: PalindromeThresholds)
    requires ValidThresholds(t) && a.totalMarkerCount == 0
    ensures IsPalindromic(a, t)
  {
  }

  /** A flagged read with markers has at least `nearDiagonalFraction` of its
      markers matched near the diagonal, and so at least that many matched. */
  lemma PalindromicReadHasEnoughNearDiagonalPairs(a: SelfAlignment, t: PalindromeThresholds)
    requires ValidThresholds(t) && IsPalindromic(a, t) && a.totalMarkerCount > 0
    ensures NearDiagonalCount(a, t.deltaThreshold) * t.nearDiagonalFraction.den >= t.nearDiagonalFraction.num * a.totalMarkerCount
    ensures NearDiagonalCount(a, t.deltaThreshold) <= |a.ordinals|
    ensures |a.ordinals| * t.nearDiagonalFraction.den >= t.nearDiagonalFraction.num * a.totalMarkerCount
  {
    CountIsCardinality(a.ordinals, IsNearDiagonal(t.deltaThreshold));
    MultiplyBoth(|a.ordinals|, NearDiagonalCount(a, t.deltaThreshold), t.nearDiagonalFraction.den);
  }

  /** The reads of one batch: flag each read of `[begin, end)` that passes
      both fraction tests, and leave the other flags as they are. */
  method FlagBatch(alignments: seq<SelfAlignment>, t: PalindromeThresholds, flags: array<bool>, begin: nat, end: nat)
    requires ValidThresholds(t) && flags.Length == |alignments| && begin <= end <= |alignments|
    modifies flags
    ensures forall r :: 0 <= r < flags.Length ==>
      flags[r] == (old(flags[r]) || (begin <= r < end && IsPalindromic(alignments[r], t)))
  {
    for readId := begin to end
      invariant forall r :: 0 <= r < flags.Length ==>
        flags[r] == (old(flags[r]) || (begin <= r < readId && IsPalindromic(alignments[r], t)))
    {
      var alignment := alignments[readId];

      // If the alignment has too few markers, skip it.
      var alignedMarkerCount := |alignment.ordinals|;
      var totalMarkerCount := alignment.totalMarkerCount;
      if FractionBelow(alignedMarkerCount, totalMarkerCount, t.alignedFraction) {
        continue;
      }

      // If the alignment has too few markers near the diagonal, skip it.
      var nearDiagonalMarkerCount := CountNearDiagonal(alignment.ordinals, t.deltaThreshold);
      if FractionBelow(nearDiagonalMarkerCount, totalMarkerCount, t.nearDiagonalFraction) {
        continue;
      }

      flags[readId] := true;
    }
  }

  /** One thread (`flagPalindromicReadsThreadFunction`): the batches it
      claimed, one after the other. */
  method FlagPalindromicReadsThread(alignments: seq<SelfAlignment>, t: PalindromeThresholds, flags: array<bool>, batches: seq<Batch>)
    requires ValidThresholds(t) && flags.Length == |alignments| && BatchesWithin(batches, |alignments|)
    modifies flags
    ensures forall r :: 0 <= r < flags.Length ==>
      flags[r] == (old(flags[r]) || (r in Indices(batches) && IsPalindromic(alignments[r], t)))
  {
    for b := 0 to |batches|
      invariant forall r :: 0 <= r < flags.Length ==>
        flags[r] == (old(flags[r]) || (r in Indices(batches[..b]) && IsPalindromic(alignments[r], t)))
    {
      var batch := batches[b];
      assert batch in batches;
      FlagBatch(alignments, t, flags, batch.begin, batch.end);
      IndicesStep(batches, b);
      forall r | 0 <= r < flags.Length
        ensures r in Indices(batches[..b + 1]) <==> r in Indices(batches[..b]) || batch.begin <= r < batch.end
      {
        RangeMembership(batch.begin, batch.end, r);
      }
    }
    assert batches[..|batches|] == batches;
  }

  /** `flagPalindromicReads`: reset every flag, let the threads flag the
      reads of the batches they claim, then count the flags set. Every read
      ends flagged exactly when it is palindromic, and the count is the
      number of palindromic reads. */
  method FlagPalindromicReads(alignments: seq<SelfAlignment>, t: PalindromeThresholds, flags: array<bool>,
                              threadCount: nat, claimant: nat -> nat)
    returns (palindromicReadCount: nat)
    requires ValidThresholds(t) && flags.Length == |alignments|
    requires threadCount > 0 && forall j: nat :: claimant(j) < threadCount
    modifies flags
    ensures forall r :: 0 <= r < flags.Length ==> flags[r] == IsPalindromic(alignments[r], t)
    ensures palindromicReadCount == |set r | 0 <= r < flags.Length && IsPalindromic(alignments[r], t)|
    ensures palindromicReadCount <= flags.Length
  {
    var readCount := flags.Length;

    // Reset all palindromic flags.
    for readId := 0 to readCount
      invariant forall r :: 0 <= r < readId ==> !flags[r]
    {
      flags[readId] := false;
    }

    // The batches of 1000 reads, each claimed by one thread.
    var batches := Batches(readCount, PalindromeBatchSize);
    BatchesCover(readCount, PalindromeBatchSize);
    RunFlagThreads(alignments, t, flags, batches, threadCount, claimant);

    // Count the reads flagged as palindromic.
    palindromicReadCount := CountFlags(flags);
    assert (set r | 0 <= r < flags.Length && flags[r]) == (set r | 0 <= r < flags.Length && IsPalindromic(alignments[r], t));
  }

  /** The thread pool, one thread after the other: a read of a batch is
      flagged by the thread that claimed the batch. With every batch claimed
      by some thread, every read of the batches is examined. */
  method RunFlagThreads(alignments: seq<SelfAlignment>, t: PalindromeThresholds, flags: array<bool>,
                        batches: seq<Batch>, threadCount: nat, claimant: nat -> nat)
    requires ValidThresholds(t) && flags.Length == |alignments|
    requires BatchesWithin(batches, |alignments|) && Indices(batches) == Range(0, |alignments|)
    requires forall j: nat :: claimant(j) < threadCount
    requires forall r :: 0 <= r < flags.Length ==> !flags[r]
    modifies flags
    ensures forall r :: 0 <= r < flags.Length ==> flags[r] == IsPalindromic(alignments[r], t)
  {
    ghost var perThread := PerThreadIndices(batches, claimant, threadCount);
    for tid := 0 to threadCount
      invariant forall r :: 0 <= r < flags.Length ==>
        flags[r] == (r in Concat(perThread[..tid]) && IsPalindromic(alignments[r], t))
    {
      assert forall b :: b in ThreadBatches(batches, claimant, tid) ==> b in batches;
      FlagPalindromicReadsThread(alignments, t, flags, ThreadBatches(batches, claimant, tid));
      ConcatAppendOne(perThread[..tid], perThread[tid]);
      assert perThread[..tid + 1] == perThread[..tid] + [perThread[tid]];
    }
    assert perThread[..threadCount] == perThread;
    ThreadsShareTheBatches(batches, claimant, threadCount);
    forall r | 0 <= r < flags.Length ensures r in Concat(perThread) {
      RangeMembership(0, |alignments|, r);
      assert r in multiset(Range(0, |alignments|));
    }
  }

  /** The final loop: the number of flags set. */
  method CountFlags(flags: array<bool>) returns (count: nat)
    ensures count == |set r | 0 <= r < flags.Length && flags[r]|
    ensures count <= flags.Length
  {
    count := 0;
    ghost var counted: set<nat> := {};
    for readId := 0 to flags.Length
      invariant counted == set r | 0 <= r < readId && flags[r]
      invariant count == |counted| && count <= readId
    {
      if flags[readId] {
        assert counted + {readId} == set r | 0 <= r < readId + 1 && flags[r];
        counted := counted + {readId};
        count := count + 1;
      } else {
        assert counted == set r | 0 <= r < readId + 1 && flags[r];
      }
    }
  }
}
