/** The alignment computation orchestrator (`computeAlignments` and its thread
    function): every candidate is aligned, filtered by marker count and trim,
    and the accepted ones are appended, as canonical records, to the buffer of
    the thread that processed them; the store is the buffers concatenated in
    thread order.

    The alignment primitive and `computeTrim` are outside the model: what they
    report for candidate `i` is the input `outcomes[i]`. The thread pool is
    modelled sequentially: batch `j` (in the order the load balancer hands
    batches out) is processed by thread `claimant(j)`, and each thread works
    through its batches in that order. */
module AlignmentComputation {
  import opened OrientedReads
  import opened AlignmentRecords
  import opened Sequences

  /** What aligning one candidate produced: the number of aligned markers,
      the left and right trim, and the alignment summary to store. */
  datatype AlignmentOutcome = AlignmentOutcome(alignedMarkerCount: nat, leftTrim: nat, rightTrim: nat, info: AlignmentInfo)

  /** The quality filter parameters. */
  datatype Thresholds = Thresholds(minAlignedMarkerCount: nat, maxTrim: nat)

  /** The outcome of a run that stops at the first candidate violating
      `readIds[0] < readIds[1]` (a fatal assertion in the source). */
  datatype RunResult<T> = Completed(value: T) | NonCanonicalCandidate(index: nat)

  /** A half-open range `[begin, end)` of candidate indices. */
  datatype Batch = Batch(begin: nat, end: nat)

  const MaxBatchSize: nat := 10000

  /** An alignment is kept when it has enough aligned markers and neither trim is too large. */
  predicate IsGood(o: AlignmentOutcome, t: Thresholds): (good: bool)
    ensures !good <==> o.alignedMarkerCount < t.minAlignedMarkerCount || o.leftTrim > t.maxTrim || o.rightTrim > t.maxTrim
  {
    o.alignedMarkerCount >= t.minAlignedMarkerCount && o.leftTrim <= t.maxTrim && o.rightTrim <= t.maxTrim
  }

  /** Looser thresholds keep every alignment stricter ones keep. */
  lemma GoodUnderLooserThresholds(o: AlignmentOutcome, strict: Thresholds, loose: Thresholds)
    requires loose.minAlignedMarkerCount <= strict.minAlignedMarkerCount && strict.maxTrim <= loose.maxTrim
    ensures IsGood(o, strict) ==> IsGood(o, loose)
  {
  }

  // ---------------------------------------------------------------------------
  // Batches

  /** The batch size: the candidates divided evenly over the threads, capped
      at 10000 and never 0. */
  function BatchSize(candidateCount: nat, threadCount: nat): (b: nat)
    requires threadCount > 0
    ensures 1 <= b <= MaxBatchSize
    ensures 1 <= candidateCount / threadCount <= MaxBatchSize ==> b == candidateCount / threadCount
    ensures candidateCount / threadCount > MaxBatchSize ==> b == MaxBatchSize
    ensures candidateCount / threadCount == 0 ==> b == 1
  {
    var b := if MaxBatchSize > candidateCount / threadCount then candidateCount / threadCount else MaxBatchSize;
    if b == 0 then 1 else b
  }

  /** The batches the load balancer hands out, in order, starting at `begin`. */
  function BatchesFrom(begin: nat, n: nat, batchSize: nat): seq<Batch>
    requires batchSize > 0
    decreases n - begin
  {
    if begin >= n then []
    else [Batch(begin, if begin + batchSize < n then begin + batchSize else n)] + BatchesFrom(begin + batchSize, n, batchSize)
  }

  function Batches(n: nat, batchSize: nat): seq<Batch>
    requires batchSize > 0
  {
    BatchesFrom(0, n, batchSize)
  }

  /** The candidate indices of a list of batches, in order. */
  function Indices(bs: seq<Batch>): seq<nat>
    decreases |bs|
  {
    if |bs| == 0 then [] else Indices(bs[..|bs| - 1]) + Range(bs[|bs| - 1].begin, bs[|bs| - 1].end)
  }

  predicate BatchesWithin(bs: seq<Batch>, n: nat) {
    forall b :: b in bs ==> b.begin <= b.end <= n
  }

  lemma {:induction false} IndicesWithin(bs: seq<Batch>, n: nat)
    requires BatchesWithin(bs, n)
    ensures IndicesWithinCandidates(Indices(bs), n)
    decreases |bs|
  {
    if |bs| > 0 {
      var last := bs[|bs| - 1];
      assert last in bs;
      IndicesWithin(bs[..|bs| - 1], n);
    }
  }

  lemma {:induction false} IndicesAppend(xs: seq<Batch>, ys: seq<Batch>)
    ensures Indices(xs + ys) == Indices(xs) + Indices(ys)
    decreases |ys|
  {
    if |ys| > 0 {
      var zs := xs + ys;
      assert zs[..|zs| - 1] == xs + ys[..|ys| - 1];
      IndicesAppend(xs, ys[..|ys| - 1]);
    } else {
      assert xs + ys == xs;
    }
  }

  /** The batches cover the candidates `begin .. n-1` once each, in order,
      and none is longer than the batch size. */
  lemma {:induction false} BatchesFromCover(begin: nat, n: nat, batchSize: nat)
    requires batchSize > 0
    ensures Indices(BatchesFrom(begin, n, batchSize)) == Range(begin, n)
    ensures BatchesWithin(BatchesFrom(begin, n, batchSize), n)
    ensures forall b :: b in BatchesFrom(begin, n, batchSize) ==> b.begin < b.end <= b.begin + batchSize
    decreases n - begin
  {
    if begin < n {
      var end := if begin + batchSize < n then begin + batchSize else n;
      var first, rest := Batch(begin, end), BatchesFrom(begin + batchSize, n, batchSize);
      var all := BatchesFrom(begin, n, batchSize);
      assert all == [first] + rest;
      BatchesFromCover(begin + batchSize, n, batchSize);
      assert Indices(all) == Range(begin, n) by {
        IndicesAppend([first], rest);
        assert Indices([first]) == Range(begin, end) by {
          assert [first][..0] == [];
        }
        if begin + batchSize < n {
          RangeSplit(begin, end, n);
        } else {
          assert rest == [];
        }
      }
      forall b | b in all ensures b.begin < b.end <= b.begin + batchSize && b.end <= n {
        if b != first {
          assert b in rest;
        }
      }
    }
  }

  lemma BatchesCover(n: nat, batchSize: nat)
    requires batchSize > 0
    ensures Indices(Batches(n, batchSize)) == Range(0, n)
    ensures BatchesWithin(Batches(n, batchSize), n)
  {
    BatchesFromCover(0, n, batchSize);
  }

  /** The batches claimed by thread `tid`, in the order it claimed them. */
  function ThreadBatches(bs: seq<Batch>, claimant: nat -> nat, tid: nat): (r: seq<Batch>)
    ensures forall b :: b in r ==> b in bs
    decreases |bs|
  {
    if |bs| == 0 then []
    else ThreadBatches(bs[..|bs| - 1], claimant, tid) + (if claimant(|bs| - 1) == tid then [bs[|bs| - 1]] else [])
  }

  /** The candidate indices each of the first `threadCount` threads processes. */
  function PerThreadIndices(bs: seq<Batch>, claimant: nat -> nat, threadCount: nat): (r: seq<seq<nat>>)
    ensures |r| == threadCount
  {
    seq(threadCount, tid requires 0 <= tid < threadCount => Indices(ThreadBatches(bs, claimant, tid)))
  }

  /** Adding a batch at the end extends the work of the thread that claims it, and only that. */
  lemma ThreadIndicesStep(bs: seq<Batch>, claimant: nat -> nat, tid: nat)
    requires |bs| > 0
    ensures var last := bs[|bs| - 1];
      Indices(ThreadBatches(bs, claimant, tid))
        == Indices(ThreadBatches(bs[..|bs| - 1], claimant, tid)) + (if claimant(|bs| - 1) == tid then Range(last.begin, last.end) else [])
  {
    var last := bs[|bs| - 1];
    if claimant(|bs| - 1) == tid {
      IndicesAppend(ThreadBatches(bs[..|bs| - 1], claimant, tid), [last]);
      assert Indices([last]) == Range(last.begin, last.end) by {
        assert [last][..0] == [];
      }
    } else {
      var front := ThreadBatches(bs[..|bs| - 1], claimant, tid);
      assert ThreadBatches(bs, claimant, tid) == front + [] == front;
      assert Indices(front) + [] == Indices(front);
    }
  }

  /** When every batch is claimed by one of the threads, the threads together
      process each index of the batches exactly as often as the batches hold it. */
  lemma {:induction false} ThreadsShareTheBatches(bs: seq<Batch>, claimant: nat -> nat, threadCount: nat)
    requires forall j :: 0 <= j < |bs| ==> claimant(j) < threadCount
    ensures multiset(Concat(PerThreadIndices(bs, claimant, threadCount))) == multiset(Indices(bs))
    decreases |bs|
  {
    var after := PerThreadIndices(bs, claimant, threadCount);
    if |bs| == 0 {
      assert forall k :: 0 <= k < |after| ==> after[k] == [];
      ConcatOfEmpties(after);
    } else {
      var n := |bs|;
      var front := bs[..n - 1];
      var last := bs[n - 1];
      var t := claimant(n - 1);
      var added := Range(last.begin, last.end);
      ThreadsShareTheBatches(front, claimant, threadCount);
      var before := PerThreadIndices(front, claimant, threadCount);
      forall k | 0 <= k < threadCount
        ensures after[k] == before[t := before[t] + added][k]
      {
        ThreadIndicesStep(bs, claimant, k);
      }
      assert after == before[t := before[t] + added];
      ConcatExtendPart(before, t, added);
    }
  }

  lemma {:induction false} ConcatOfEmpties<T>(xs: seq<seq<T>>)
    requires forall k :: 0 <= k < |xs| ==> xs[k] == []
    ensures Concat(xs) == []
    decreases |xs|
  {
    if |xs| > 0 {
      ConcatOfEmpties(xs[..|xs| - 1]);
    }
  }

  // ---------------------------------------------------------------------------
  // Filtering

  predicate IndicesWithinCandidates(idxs: seq<nat>, n: nat) {
    forall k :: 0 <= k < |idxs| ==> idxs[k] < n
  }

  predicate AllCanonical(candidates: seq<OrientedReadPair>, idxs: seq<nat>) {
    forall k :: 0 <= k < |idxs| ==> idxs[k] < |candidates| && IsCanonicalPair(candidates[idxs[k]])
  }

  /** The records a thread appends when it processes the candidates `idxs` in
      order: one per candidate whose alignment is good, in candidate order. */
  function Kept(candidates: seq<OrientedReadPair>, outcomes: seq<AlignmentOutcome>, t: Thresholds, idxs: seq<nat>): seq<AlignmentData>
    requires |outcomes| == |candidates| && IndicesWithinCandidates(idxs, |candidates|)
    decreases |idxs|
  {
    if |idxs| == 0 then []
    else
      var i := idxs[|idxs| - 1];
      Kept(candidates, outcomes, t, idxs[..|idxs| - 1])
        + (if IsGood(outcomes[i], t) then [MakeAlignmentData(candidates[i], outcomes[i].info)] else [])
  }

  lemma {:induction false} KeptAppend(candidates: seq<OrientedReadPair>, outcomes: seq<AlignmentOutcome>, t: Thresholds, xs: seq<nat>, ys: seq<nat>)
    requires |outcomes| == |candidates|
    requires IndicesWithinCandidates(xs, |candidates|) && IndicesWithinCandidates(ys, |candidates|)
    ensures IndicesWithinCandidates(xs + ys, |candidates|)
    ensures Kept(candidates, outcomes, t, xs + ys) == Kept(candidates, outcomes, t, xs) + Kept(candidates, outcomes, t, ys)
    decreases |ys|
  {
    if |ys| == 0 {
      assert xs + ys == xs;
    } else {
      var zs := xs + ys;
      assert zs[..|zs| - 1] == xs + ys[..|ys| - 1];
      KeptAppend(candidates, outcomes, t, xs, ys[..|ys| - 1]);
    }
  }

  /** A record is kept exactly for the good candidates among `idxs`: every
      kept record comes from a good candidate of `idxs`, and every good
      candidate of `idxs` yields a kept record. The records are at most as
      many as the candidates. */
  lemma {:induction false} KeptIsTheGoodCandidates(candidates: seq<OrientedReadPair>, outcomes: seq<AlignmentOutcome>, t: Thresholds, idxs: seq<nat>)
    requires |outcomes| == |candidates| && IndicesWithinCandidates(idxs, |candidates|)
    ensures |Kept(candidates, outcomes, t, idxs)| <= |idxs|
    ensures forall d :: d in Kept(candidates, outcomes, t, idxs) ==>
      exists k :: 0 <= k < |idxs| && IsGood(outcomes[idxs[k]], t) && d == MakeAlignmentData(candidates[idxs[k]], outcomes[idxs[k]].info)
    ensures forall k :: 0 <= k < |idxs| && IsGood(outcomes[idxs[k]], t) ==>
      MakeAlignmentData(candidates[idxs[k]], outcomes[idxs[k]].info) in Kept(candidates, outcomes, t, idxs)
    decreases |idxs|
  {
    if |idxs| > 0 {
      var n := |idxs|;
      var front, i := idxs[..n - 1], idxs[n - 1];
      KeptIsTheGoodCandidates(candidates, outcomes, t, front);
      var last := if IsGood(outcomes[i], t) then [MakeAlignmentData(candidates[i], outcomes[i].info)] else [];
      assert Kept(candidates, outcomes, t, idxs) == Kept(candidates, outcomes, t, front) + last;
      forall d | d in Kept(candidates, outcomes, t, idxs)
        ensures exists k :: 0 <= k < n && IsGood(outcomes[idxs[k]], t) && d == MakeAlignmentData(candidates[idxs[k]], outcomes[idxs[k]].info)
      {
        if d in Kept(candidates, outcomes, t, front) {
          var k :| 0 <= k < n - 1 && IsGood(outcomes[front[k]], t) && d == MakeAlignmentData(candidates[front[k]], outcomes[front[k]].info);
          assert front[k] == idxs[k];
        } else {
          assert d in last;
          assert idxs[n - 1] == i;
        }
      }
      forall k | 0 <= k < n && IsGood(outcomes[idxs[k]], t)
        ensures MakeAlignmentData(candidates[idxs[k]], outcomes[idxs[k]].info) in Kept(candidates, outcomes, t, idxs)
      {
        if k < n - 1 {
          assert front[k] == idxs[k];
        }
      }
    }
  }

  /** Kept records are canonical whenever their candidates are. */
  lemma {:induction false} KeptIsCanonical(candidates: seq<OrientedReadPair>, outcomes: seq<AlignmentOutcome>, t: Thresholds, idxs: seq<nat>)
    requires |outcomes| == |candidates| && AllCanonical(candidates, idxs)
    ensures forall d :: d in Kept(candidates, outcomes, t, idxs) ==> IsCanonical(d)
    decreases |idxs|
  {
    if |idxs| > 0 {
      KeptIsCanonical(candidates, outcomes, t, idxs[..|idxs| - 1]);
    }
  }

  /** Which records are kept depends only on which candidates are processed,
      not on the order: permuting the indices permutes the records. */
  lemma {:induction false} KeptPermutation(candidates: seq<OrientedReadPair>, outcomes: seq<AlignmentOutcome>, t: Thresholds, xs: seq<nat>, ys: seq<nat>)
    requires |outcomes| == |candidates|
    requires IndicesWithinCandidates(xs, |candidates|)
    requires multiset(xs) == multiset(ys)
    ensures IndicesWithinCandidates(ys, |candidates|)
    ensures multiset(Kept(candidates, outcomes, t, xs)) == multiset(Kept(candidates, outcomes, t, ys))
    decreases |xs|
  {
    PermutationWithin(xs, ys, |candidates|);
    if |xs| == 0 {
      assert |ys| == |multiset(ys)| == 0;
    } else {
      var x := xs[|xs| - 1];
      assert x in multiset(ys);
      var k :| 0 <= k < |ys| && ys[k] == x;
      RemoveOne(xs, ys, k);
      KeptPermutation(candidates, outcomes, t, xs[..|xs| - 1], ys[..k] + ys[k + 1..]);
      KeptSplitAt(candidates, outcomes, t, xs, |xs| - 1);
      KeptSplitAt(candidates, outcomes, t, ys, k);
    }
  }

  /** The records of `xs` are those of `xs` without position `k`, plus those of `xs[k]`. */
  lemma KeptSplitAt(candidates: seq<OrientedReadPair>, outcomes: seq<AlignmentOutcome>, t: Thresholds, xs: seq<nat>, k: nat)
    requires |outcomes| == |candidates| && IndicesWithinCandidates(xs, |candidates|) && k < |xs|
    ensures IndicesWithinCandidates(xs[..k] + xs[k + 1..], |candidates|)
    ensures IndicesWithinCandidates([xs[k]], |candidates|)
    ensures multiset(Kept(candidates, outcomes, t, xs))
         == multiset(Kept(candidates, outcomes, t, xs[..k] + xs[k + 1..])) + multiset(Kept(candidates, outcomes, t, [xs[k]]))
  {
    var before, after := xs[..k], xs[k + 1..];
    assert xs == before + [xs[k]] + after;
    KeptAppend(candidates, outcomes, t, before, [xs[k]]);
    KeptAppend(candidates, outcomes, t, before + [xs[k]], after);
    KeptAppend(candidates, outcomes, t, before, after);
  }

  lemma PermutationWithin(xs: seq<nat>, ys: seq<nat>, n: nat)
    requires IndicesWithinCandidates(xs, n) && multiset(xs) == multiset(ys)
    ensures IndicesWithinCandidates(ys, n)
  {
    forall j | 0 <= j < |ys| ensures ys[j] < n {
      assert ys[j] in multiset(ys);
      assert ys[j] in xs;
    }
  }

  /** Taking the last element off `xs` and the same element off `ys` keeps them permutations of each other. */
  lemma RemoveOne(xs: seq<nat>, ys: seq<nat>, k: nat)
    requires multiset(xs) == multiset(ys) && |xs| > 0 && k < |ys| && ys[k] == xs[|xs| - 1]
    ensures multiset(xs[..|xs| - 1]) == multiset(ys[..k] + ys[k + 1..])
  {
    var x := xs[|xs| - 1];
    assert xs == xs[..|xs| - 1] + [x];
    assert ys == ys[..k] + [x] + ys[k + 1..];
    assert multiset(ys) == multiset(ys[..k]) + multiset{x} + multiset(ys[k + 1..]);
    assert multiset(ys[..k] + ys[k + 1..]) == multiset(ys[..k]) + multiset(ys[k + 1..]);
    assert multiset(xs) == multiset(xs[..|xs| - 1]) + multiset{x};
    MultisetCancel(multiset(xs[..|xs| - 1]), multiset(ys[..k] + ys[k + 1..]), x);
  }

  /** The thread buffers of a whole run, one per thread, in thread order. */
  function ThreadBuffers(candidates: seq<OrientedReadPair>, outcomes: seq<AlignmentOutcome>, t: Thresholds,
                         bs: seq<Batch>, claimant: nat -> nat, threadCount: nat): (r: seq<seq<AlignmentData>>)
    requires |outcomes| == |candidates| && BatchesWithin(bs, |candidates|)
    ensures |r| == threadCount
  {
    seq(threadCount, tid requires 0 <= tid < threadCount =>
      IndicesWithinThread(bs, claimant, tid, |candidates|);
      Kept(candidates, outcomes, t, Indices(ThreadBatches(bs, claimant, tid))))
  }

  lemma IndicesWithinThread(bs: seq<Batch>, claimant: nat -> nat, tid: nat, n: nat)
    requires BatchesWithin(bs, n)
    ensures BatchesWithin(ThreadBatches(bs, claimant, tid), n)
    ensures IndicesWithinCandidates(Indices(ThreadBatches(bs, claimant, tid)), n)
  {
    IndicesWithin(ThreadBatches(bs, claimant, tid), n);
  }

  lemma {:induction false} KeptOfConcat(candidates: seq<OrientedReadPair>, outcomes: seq<AlignmentOutcome>, t: Thresholds, parts: seq<seq<nat>>)
    requires |outcomes| == |candidates|
    requires forall k :: 0 <= k < |parts| ==> IndicesWithinCandidates(parts[k], |candidates|)
    ensures IndicesWithinCandidates(Concat(parts), |candidates|)
    ensures Kept(candidates, outcomes, t, Concat(parts))
         == Concat(seq(|parts|, k requires 0 <= k < |parts| => Kept(candidates, outcomes, t, parts[k])))
    decreases |parts|
  {
    var n := |parts|;
    var mapped := seq(n, k requires 0 <= k < n => Kept(candidates, outcomes, t, parts[k]));
    if n > 0 {
      var front := parts[..n - 1];
      KeptOfConcat(candidates, outcomes, t, front);
      KeptAppend(candidates, outcomes, t, Concat(front), parts[n - 1]);
      assert mapped[..n - 1] == seq(n - 1, k requires 0 <= k < n - 1 => Kept(candidates, outcomes, t, front[k]));
    }
  }

  // ---------------------------------------------------------------------------
  // The thread function and the orchestrator

  /** One thread's work (`computeAlignmentsThreadFunction`): for each of its
      batches in turn, for each candidate of the batch in increasing order,
      check that the candidate is canonical (otherwise the run stops there),
      and append the canonical record of its alignment when that is good. */
  method ComputeAlignmentsThread(candidates: seq<OrientedReadPair>, outcomes: seq<AlignmentOutcome>, t: Thresholds, batches: seq<Batch>)
    returns (r: RunResult<seq<AlignmentData>>)
    requires |outcomes| == |candidates| && BatchesWithin(batches, |candidates|)
    ensures IndicesWithinCandidates(Indices(batches), |candidates|)
    ensures r.Completed? <==> AllCanonical(candidates, Indices(batches))
    ensures r.Completed? ==> r.value == Kept(candidates, outcomes, t, Indices(batches))
    ensures r.NonCanonicalCandidate? ==>
      exists k :: 0 <= k < |Indices(batches)| && Indices(batches)[k] == r.index
        && !IsCanonicalPair(candidates[r.index]) && AllCanonical(candidates, Indices(batches)[..k])
  {
    IndicesWithin(batches, |candidates|);
    var buffer: seq<AlignmentData> := [];
    for b := 0 to |batches|
      invariant IndicesWithinCandidates(Indices(batches[..b]), |candidates|)
      invariant AllCanonical(candidates, Indices(batches[..b]))
      invariant buffer == Kept(candidates, outcomes, t, Indices(batches[..b]))
    {
      assert batches[b] in batches;
      var result := ProcessBatch(candidates, outcomes, t, batches[b], Indices(batches[..b]), buffer);
      IndicesStep(batches, b);
      if result.NonCanonicalCandidate? {
        AbortWitness(batches, b, result.index, candidates);
        return result;
      }
      buffer := result.value;
    }
    assert batches[..|batches|] == batches;
    r := Completed(buffer);
  }

  /** The inner loop of the thread function: the candidates of one batch,
      processed after the candidates `before`, whose records are `buffer`. */
  method ProcessBatch(candidates: seq<OrientedReadPair>, outcomes: seq<AlignmentOutcome>, t: Thresholds, batch: Batch,
                      ghost before: seq<nat>, buffer: seq<AlignmentData>)
    returns (r: RunResult<seq<AlignmentData>>)
    requires |outcomes| == |candidates| && batch.begin <= batch.end <= |candidates|
    requires IndicesWithinCandidates(before, |candidates|) && AllCanonical(candidates, before)
    requires buffer == Kept(candidates, outcomes, t, before)
    ensures IndicesWithinCandidates(before + Range(batch.begin, batch.end), |candidates|)
    ensures r.Completed? <==> AllCanonical(candidates, before + Range(batch.begin, batch.end))
    ensures r.Completed? ==> r.value == Kept(candidates, outcomes, t, before + Range(batch.begin, batch.end))
    ensures r.NonCanonicalCandidate? ==>
      batch.begin <= r.index < batch.end && !IsCanonicalPair(candidates[r.index])
      && AllCanonical(candidates, before + Range(batch.begin, r.index))
  {
    var begin, end := batch.begin, batch.end;
    ghost var processed := before;
    assert processed == before + Range(begin, begin);
    var kept := buffer;
    for i := begin to end
      invariant processed == before + Range(begin, i)
      invariant IndicesWithinCandidates(processed, |candidates|)
      invariant AllCanonical(candidates, processed)
      invariant kept == Kept(candidates, outcomes, t, processed)
    {
      var candidate := candidates[i];
      if !(candidate.readId0 < candidate.readId1) {
        WithinAfterAbort(candidates, before, begin, i, end);
        return NonCanonicalCandidate(i);
      }
      BatchStep(candidates, outcomes, t, before, begin, i);
      processed := before + Range(begin, i + 1);
      var outcome := outcomes[i];
      if outcome.alignedMarkerCount < t.minAlignedMarkerCount {
        continue;
      }
      if outcome.leftTrim > t.maxTrim || outcome.rightTrim > t.maxTrim {
        continue;
      }
      kept := kept + [MakeAlignmentData(candidate, outcome.info)];
    }
    r := Completed(kept);
  }

  /** One more canonical candidate of the batch: its record is appended when it is good. */
  lemma BatchStep(candidates: seq<OrientedReadPair>, outcomes: seq<AlignmentOutcome>, t: Thresholds, before: seq<nat>, begin: nat, i: nat)
    requires |outcomes| == |candidates| && begin <= i < |candidates|
    requires IndicesWithinCandidates(before + Range(begin, i), |candidates|) && AllCanonical(candidates, before + Range(begin, i))
    requires IsCanonicalPair(candidates[i])
    ensures IndicesWithinCandidates(before + Range(begin, i + 1), |candidates|)
    ensures AllCanonical(candidates, before + Range(begin, i + 1))
    ensures Kept(candidates, outcomes, t, before + Range(begin, i + 1))
         == Kept(candidates, outcomes, t, before + Range(begin, i))
            + (if IsGood(outcomes[i], t) then [MakeAlignmentData(candidates[i], outcomes[i].info)] else [])
  {
    assert Range(begin, i + 1) == Range(begin, i) + [i];
    AppendAssoc(before, Range(begin, i), [i]);
    KeptStep(candidates, outcomes, t, before + Range(begin, i), i);
  }

  /** The candidates of a batch are within range whether or not it completes. */
  lemma WithinAfterAbort(candidates: seq<OrientedReadPair>, before: seq<nat>, begin: nat, i: nat, end: nat)
    requires IndicesWithinCandidates(before, |candidates|) && begin <= i < end <= |candidates|
    requires !IsCanonicalPair(candidates[i])
    ensures IndicesWithinCandidates(before + Range(begin, end), |candidates|)
    ensures !AllCanonical(candidates, before + Range(begin, end))
  {
    var all := before + Range(begin, end);
    assert all[|before| + (i - begin)] == i;
  }

  lemma KeptStep(candidates: seq<OrientedReadPair>, outcomes: seq<AlignmentOutcome>, t: Thresholds, prefix: seq<nat>, i: nat)
    requires |outcomes| == |candidates| && IndicesWithinCandidates(prefix, |candidates|) && i < |candidates|
    requires AllCanonical(candidates, prefix) && IsCanonicalPair(candidates[i])
    ensures IndicesWithinCandidates(prefix + [i], |candidates|) && AllCanonical(candidates, prefix + [i])
    ensures Kept(candidates, outcomes, t, prefix + [i])
         == Kept(candidates, outcomes, t, prefix) + (if IsGood(outcomes[i], t) then [MakeAlignmentData(candidates[i], outcomes[i].info)] else [])
  {
    assert (prefix + [i])[..|prefix|] == prefix;
  }

  lemma IndicesStep(batches: seq<Batch>, b: nat)
    requires b < |batches|
    ensures Indices(batches[..b + 1]) == Indices(batches[..b]) + Range(batches[b].begin, batches[b].end)
  {
    assert batches[..b + 1] == batches[..b] + [batches[b]];
    IndicesAppend(batches[..b], [batches[b]]);
    assert Indices([batches[b]]) == Range(batches[b].begin, batches[b].end) by {
      assert [batches[b]][..0] == [];
    }
  }

  /** Where candidate `i` of batch `b` sits in the thread's index sequence. */
  lemma AbortWitness(batches: seq<Batch>, b: nat, i: nat, candidates: seq<OrientedReadPair>)
    requires b < |batches| && batches[b].begin <= i < batches[b].end
    requires AllCanonical(candidates, Indices(batches[..b]) + Range(batches[b].begin, i))
    ensures var k := |Indices(batches[..b])| + (i - batches[b].begin);
      k < |Indices(batches)| && Indices(batches)[k] == i
      && AllCanonical(candidates, Indices(batches)[..k])
  {
    var begin, end := batches[b].begin, batches[b].end;
    var all, before, done := Indices(batches), Indices(batches[..b]), Range(begin, i);
    var rest := Range(i, end) + Indices(batches[b + 1..]);
    IndicesAround(batches, b);
    RangeSplit(begin, i, end);
    Regroup(before, done, Range(i, end), Indices(batches[b + 1..]));
    assert |done| == i - begin && rest[0] == i;
    PrefixWitness(candidates, all, before, done, rest, |before| + (i - begin));
  }

  /** The prefix of `before + done + rest` that ends before `rest`. */
  lemma PrefixWitness(candidates: seq<OrientedReadPair>, all: seq<nat>, before: seq<nat>, done: seq<nat>, rest: seq<nat>, k: nat)
    requires all == before + done + rest && |rest| > 0 && k == |before| + |done|
    requires AllCanonical(candidates, before + done)
    ensures k < |all| && all[k] == rest[0] && AllCanonical(candidates, all[..k])
  {
    assert all[..k] == before + done;
  }

  lemma Regroup(a: seq<nat>, x: seq<nat>, y: seq<nat>, c: seq<nat>)
    ensures a + (x + y) + c == a + x + (y + c)
  {
  }

  lemma IndicesAround(batches: seq<Batch>, b: nat)
    requires b < |batches|
    ensures Indices(batches) == Indices(batches[..b]) + Range(batches[b].begin, batches[b].end) + Indices(batches[b + 1..])
  {
    assert batches == batches[..b + 1] + batches[b + 1..];
    IndicesAppend(batches[..b + 1], batches[b + 1..]);
    IndicesStep(batches, b);
  }

  /** The batches of a run with `threadCount` threads over `n` candidates. */
  function RunBatches(n: nat, threadCount: nat): (bs: seq<Batch>)
    requires threadCount > 0
    ensures BatchesWithin(bs, n)
    ensures Indices(bs) == Range(0, n)
  {
    BatchesCover(n, BatchSize(n, threadCount));
    Batches(n, BatchSize(n, threadCount))
  }

  /** The buffer every thread fills in a run, in thread order. */
  function RunBuffers(candidates: seq<OrientedReadPair>, outcomes: seq<AlignmentOutcome>, t: Thresholds,
                      threadCount: nat, claimant: nat -> nat): (r: seq<seq<AlignmentData>>)
    requires |outcomes| == |candidates| && threadCount > 0
    ensures |r| == threadCount
  {
    ThreadBuffers(candidates, outcomes, t, RunBatches(|candidates|, threadCount), claimant, threadCount)
  }

  /** Every candidate is processed by exactly one thread. */
  lemma RunCoversCandidates(n: nat, threadCount: nat, claimant: nat -> nat)
    requires threadCount > 0
    requires forall j: nat :: claimant(j) < threadCount
    ensures multiset(Concat(PerThreadIndices(RunBatches(n, threadCount), claimant, threadCount))) == multiset(Range(0, n))
  {
    ThreadsShareTheBatches(RunBatches(n, threadCount), claimant, threadCount);
  }

  lemma PerThreadWithin(n: nat, threadCount: nat, claimant: nat -> nat)
    requires threadCount > 0
    ensures forall k :: 0 <= k < threadCount ==>
      IndicesWithinCandidates(PerThreadIndices(RunBatches(n, threadCount), claimant, threadCount)[k], n)
  {
    var bs := RunBatches(n, threadCount);
    forall k | 0 <= k < threadCount ensures IndicesWithinCandidates(PerThreadIndices(bs, claimant, threadCount)[k], n) {
      IndicesWithinThread(bs, claimant, k, n);
    }
  }

  /** Whatever the schedule, the concatenated buffers hold the records of the
      good candidates, each once. */
  lemma RunKeepsEachGoodCandidateOnce(candidates: seq<OrientedReadPair>, outcomes: seq<AlignmentOutcome>, t: Thresholds,
                                      threadCount: nat, claimant: nat -> nat)
    requires |outcomes| == |candidates| && threadCount > 0
    requires forall j: nat :: claimant(j) < threadCount
    ensures IndicesWithinCandidates(Range(0, |candidates|), |candidates|)
    ensures multiset(Concat(RunBuffers(candidates, outcomes, t, threadCount, claimant)))
         == multiset(Kept(candidates, outcomes, t, Range(0, |candidates|)))
  {
    var n := |candidates|;
    var bs := RunBatches(n, threadCount);
    var perThread := PerThreadIndices(bs, claimant, threadCount);
    var buffers := RunBuffers(candidates, outcomes, t, threadCount, claimant);
    RunCoversCandidates(n, threadCount, claimant);
    PerThreadWithin(n, threadCount, claimant);
    KeptOfConcat(candidates, outcomes, t, perThread);
    assert buffers == seq(|perThread|, k requires 0 <= k < |perThread| => Kept(candidates, outcomes, t, perThread[k]));
    KeptPermutation(candidates, outcomes, t, Concat(perThread), Range(0, n));
  }

  /** Every stored record is canonical and names reads of the candidates, so
      the store meets what the alignment table build asks of it. */
  lemma StoreFitsTheTable(candidates: seq<OrientedReadPair>, outcomes: seq<AlignmentOutcome>, t: Thresholds,
                          threadCount: nat, claimant: nat -> nat, readCount: nat)
    requires |outcomes| == |candidates| && threadCount > 0
    requires forall j: nat :: claimant(j) < threadCount
    requires AllCanonical(candidates, Range(0, |candidates|))
    requires forall i :: 0 <= i < |candidates| ==> candidates[i].readId0 < readCount && candidates[i].readId1 < readCount
    ensures forall d :: d in Concat(RunBuffers(candidates, outcomes, t, threadCount, claimant)) ==>
      IsCanonical(d) && d.readId0 < readCount && d.readId1 < readCount
  {
    var all := Range(0, |candidates|);
    RunKeepsEachGoodCandidateOnce(candidates, outcomes, t, threadCount, claimant);
    KeptIsCanonical(candidates, outcomes, t, all);
    KeptReadsBelow(candidates, outcomes, t, all, readCount);
    forall d | d in Concat(RunBuffers(candidates, outcomes, t, threadCount, claimant))
      ensures d in Kept(candidates, outcomes, t, all)
    {
      assert d in multiset(Kept(candidates, outcomes, t, all));
    }
  }

  lemma {:induction false} KeptReadsBelow(candidates: seq<OrientedReadPair>, outcomes: seq<AlignmentOutcome>, t: Thresholds,
                                          idxs: seq<nat>, readCount: nat)
    requires |outcomes| == |candidates| && IndicesWithinCandidates(idxs, |candidates|)
    requires forall i :: 0 <= i < |candidates| ==> candidates[i].readId0 < readCount && candidates[i].readId1 < readCount
    ensures forall d :: d in Kept(candidates, outcomes, t, idxs) ==> d.readId0 < readCount && d.readId1 < readCount
    decreases |idxs|
  {
    if |idxs| > 0 {
      KeptReadsBelow(candidates, outcomes, t, idxs[..|idxs| - 1], readCount);
    }
  }

  /** `vector::resize`: the first `threadCount` buffers stay as they are and
      missing ones are added empty. */
  function ResizeBuffers(buffers: seq<seq<AlignmentData>>, threadCount: nat): (r: seq<seq<AlignmentData>>)
    ensures |r| == threadCount
    ensures forall tid :: 0 <= tid < threadCount ==> r[tid] == if tid < |buffers| then buffers[tid] else []
  {
    seq(threadCount, tid requires 0 <= tid < threadCount => if tid < |buffers| then buffers[tid] else [])
  }

  /** The store as the source builds it when the thread buffers still hold
      `previous` records from an earlier run: the buffers are only resized,
      each thread appends to its own, and every buffer is stored. It holds
      the records left over besides those of the good candidates. */
  function StoreAsWritten(previous: seq<seq<AlignmentData>>, candidates: seq<OrientedReadPair>,
                          outcomes: seq<AlignmentOutcome>, t: Thresholds,
                          threadCount: nat, claimant: nat -> nat): (r: seq<AlignmentData>)
    requires |outcomes| == |candidates| && threadCount > 0
    requires forall j: nat :: claimant(j) < threadCount
    ensures IndicesWithinCandidates(Range(0, |candidates|), |candidates|)
    ensures multiset(r) == multiset(Concat(ResizeBuffers(previous, threadCount)))
                         + multiset(Kept(candidates, outcomes, t, Range(0, |candidates|)))
  {
    var resized := ResizeBuffers(previous, threadCount);
    var filled := RunBuffers(candidates, outcomes, t, threadCount, claimant);
    ConcatOfPairwiseAppend(resized, filled);
    RunKeepsEachGoodCandidateOnce(candidates, outcomes, t, threadCount, claimant);
    Concat(seq(threadCount, tid requires 0 <= tid < threadCount => resized[tid] + filled[tid]))
  }

  /** A record left in the buffer of thread 0 by an earlier run is stored
      again by a run over no candidates, whose own store is empty. */
  lemma StaleRecordIsStoredAgain(info: AlignmentInfo)
    ensures var stale, t, claimant := AlignmentData(0, 1, true, info), Thresholds(0, 0), (j: nat) => 0;
      StoreAsWritten([[stale]], [], [], t, 1, claimant) != []
      && Concat(RunBuffers([], [], t, 1, claimant)) == []
  {
    var stale, t, claimant := AlignmentData(0, 1, true, info), Thresholds(0, 0), (j: nat) => 0;
    var store := StoreAsWritten([[stale]], [], [], t, 1, claimant);
    var resized := ResizeBuffers([[stale]], 1);
    assert resized == [[stale]];
    assert Concat(resized) == Concat(resized[..0]) + [stale];
    assert stale in multiset(store);
    var filled := RunBuffers([], [], t, 1, claimant);
    RunKeepsEachGoodCandidateOnce([], [], t, 1, claimant);
    assert Kept([], [], t, Range(0, 0)) == [];
  }

  /** On a first run, when no buffer holds anything yet, the source's store
      has exactly the records of the model's. */
  lemma StoreAsWrittenOnEmptyBuffers(previous: seq<seq<AlignmentData>>, candidates: seq<OrientedReadPair>,
                                     outcomes: seq<AlignmentOutcome>, t: Thresholds,
                                     threadCount: nat, claimant: nat -> nat)
    requires |outcomes| == |candidates| && threadCount > 0
    requires forall j: nat :: claimant(j) < threadCount
    requires forall tid :: 0 <= tid < |previous| ==> previous[tid] == []
    ensures multiset(StoreAsWritten(previous, candidates, outcomes, t, threadCount, claimant))
         == multiset(Concat(RunBuffers(candidates, outcomes, t, threadCount, claimant)))
  {
    var resized := ResizeBuffers(previous, threadCount);
    ConcatOfEmpties(resized);
    RunKeepsEachGoodCandidateOnce(candidates, outcomes, t, threadCount, claimant);
  }

  /** `computeAlignments`: pick the batch size, run the thread function of
      every thread, then store the thread buffers one after the other, in
      thread order. A non-canonical candidate stops the whole run. */
  method ComputeAlignments(candidates: seq<OrientedReadPair>, outcomes: seq<AlignmentOutcome>, t: Thresholds,
                           threadCount: nat, claimant: nat -> nat)
    returns (r: RunResult<seq<AlignmentData>>)
    requires |outcomes| == |candidates| && threadCount > 0
    requires forall j: nat :: claimant(j) < threadCount
    ensures r.Completed? <==> AllCanonical(candidates, Range(0, |candidates|))
    ensures r.NonCanonicalCandidate? ==> r.index < |candidates| && !IsCanonicalPair(candidates[r.index])
    ensures r.Completed? ==> r.value == Concat(RunBuffers(candidates, outcomes, t, threadCount, claimant))
    ensures r.Completed? ==> |r.value| == SumOfLengths(RunBuffers(candidates, outcomes, t, threadCount, claimant))
    ensures r.Completed? ==>
      IndicesWithinCandidates(Range(0, |candidates|), |candidates|)
      && multiset(r.value) == multiset(Kept(candidates, outcomes, t, Range(0, |candidates|)))
  {
    var n := |candidates|;
    var batchSize := BatchSize(n, threadCount);
    var bs := Batches(n, batchSize);
    assert bs == RunBatches(n, threadCount);

    var threads := RunThreads(candidates, outcomes, t, bs, claimant, threadCount);
    if threads.NonCanonicalCandidate? {
      ghost var tid :| 0 <= tid < threadCount && threads.index in PerThreadIndices(bs, claimant, threadCount)[tid];
      AbortedCandidateIsScheduled(n, threadCount, claimant, tid, threads.index);
      AllCanonicalRange(candidates, n, threads.index);
      return NonCanonicalCandidate(threads.index);
    }

    // Store the alignment data found by each thread, in thread order.
    var alignmentData := StoreThreadAlignmentData(threads.value);

    RunCoversCandidates(n, threadCount, claimant);
    PermutationOfAllIsCanonical(candidates, Concat(PerThreadIndices(bs, claimant, threadCount)));
    RunKeepsEachGoodCandidateOnce(candidates, outcomes, t, threadCount, claimant);
    r := Completed(alignmentData);
  }

  /** The thread pool, run one thread after the other: thread `tid` processes
      the batches it claimed and fills its own buffer. */
  method RunThreads(candidates: seq<OrientedReadPair>, outcomes: seq<AlignmentOutcome>, t: Thresholds,
                    bs: seq<Batch>, claimant: nat -> nat, threadCount: nat)
    returns (r: RunResult<seq<seq<AlignmentData>>>)
    requires |outcomes| == |candidates| && BatchesWithin(bs, |candidates|)
    ensures r.Completed? ==> r.value == ThreadBuffers(candidates, outcomes, t, bs, claimant, threadCount)
    ensures r.Completed? ==> AllCanonical(candidates, Concat(PerThreadIndices(bs, claimant, threadCount)))
    ensures r.NonCanonicalCandidate? ==>
      r.index < |candidates| && !IsCanonicalPair(candidates[r.index])
      && exists tid :: 0 <= tid < threadCount && r.index in PerThreadIndices(bs, claimant, threadCount)[tid]
  {
    ghost var buffers := ThreadBuffers(candidates, outcomes, t, bs, claimant, threadCount);
    ghost var perThread := PerThreadIndices(bs, claimant, threadCount);
    var threadAlignmentData: seq<seq<AlignmentData>> := [];
    for tid := 0 to threadCount
      invariant threadAlignmentData == buffers[..tid]
      invariant AllCanonical(candidates, Concat(perThread[..tid]))
    {
      IndicesWithinThread(bs, claimant, tid, |candidates|);
      var threadResult := ComputeAlignmentsThread(candidates, outcomes, t, ThreadBatches(bs, claimant, tid));
      if threadResult.NonCanonicalCandidate? {
        assert threadResult.index in perThread[tid];
        return NonCanonicalCandidate(threadResult.index);
      }
      threadAlignmentData := threadAlignmentData + [threadResult.value];
      ghost var before := perThread[..tid];
      assert buffers[..tid + 1] == buffers[..tid] + [buffers[tid]];
      assert perThread[..tid + 1] == before + [perThread[tid]];
      ConcatAppendOne(before, perThread[tid]);
      AllCanonicalAppend(candidates, Concat(before), perThread[tid]);
    }
    assert perThread[..threadCount] == perThread;
    assert buffers[..threadCount] == buffers;
    r := Completed(threadAlignmentData);
  }

  lemma AbortedCandidateIsScheduled(n: nat, threadCount: nat, claimant: nat -> nat, tid: nat, i: nat)
    requires threadCount > 0 && tid < threadCount
    requires forall j: nat :: claimant(j) < threadCount
    requires i in PerThreadIndices(RunBatches(n, threadCount), claimant, threadCount)[tid]
    ensures i < n
  {
    var perThread := PerThreadIndices(RunBatches(n, threadCount), claimant, threadCount);
    var k :| 0 <= k < |perThread[tid]| && perThread[tid][k] == i;
    ConcatMember(perThread, tid, k);
    RunCoversCandidates(n, threadCount, claimant);
    assert i in multiset(Concat(perThread));
    assert i in Range(0, n);
    RangeMembership(0, n, i);
  }

  lemma AllCanonicalRange(candidates: seq<OrientedReadPair>, n: nat, i: nat)
    requires n == |candidates| && i < n && !IsCanonicalPair(candidates[i])
    ensures !AllCanonical(candidates, Range(0, n))
  {
    assert Range(0, n)[i] == i;
  }

  lemma AllCanonicalAppend(candidates: seq<OrientedReadPair>, xs: seq<nat>, ys: seq<nat>)
    requires AllCanonical(candidates, xs) && AllCanonical(candidates, ys)
    ensures AllCanonical(candidates, xs + ys)
  {
    forall k | 0 <= k < |xs + ys| ensures (xs + ys)[k] < |candidates| && IsCanonicalPair(candidates[(xs + ys)[k]]) {
      if k >= |xs| {
        assert (xs + ys)[k] == ys[k - |xs|];
      }
    }
  }

  /** Candidates processed in some order, each once, are all canonical when each processed one is. */
  lemma PermutationOfAllIsCanonical(candidates: seq<OrientedReadPair>, xs: seq<nat>)
    requires multiset(xs) == multiset(Range(0, |candidates|))
    requires AllCanonical(candidates, xs)
    ensures AllCanonical(candidates, Range(0, |candidates|))
  {
    var all := Range(0, |candidates|);
    forall k | 0 <= k < |all| ensures all[k] < |candidates| && IsCanonicalPair(candidates[all[k]]) {
      var j := all[k];
      assert j in multiset(all);
      var m := PositionOf(xs, j);
    }
  }

  /** A position of an element of a sequence. */
  lemma PositionOf(xs: seq<nat>, x: nat) returns (m: nat)
    requires x in multiset(xs)
    ensures m < |xs| && xs[m] == x
  {
    m :| 0 <= m < |xs| && xs[m] == x;
  }

  /** The final store: the thread buffers appended one after the other. */
  method StoreThreadAlignmentData(threadAlignmentData: seq<seq<AlignmentData>>) returns (alignmentData: seq<AlignmentData>)
    ensures alignmentData == Concat(threadAlignmentData)
    ensures |alignmentData| == SumOfLengths(threadAlignmentData)
  {
    alignmentData := [];
    for tid := 0 to |threadAlignmentData|
      invariant alignmentData == Concat(threadAlignmentData[..tid])
    {
      var threadData := threadAlignmentData[tid];
      for j := 0 to |threadData|
        invariant alignmentData == Concat(threadAlignmentData[..tid]) + threadData[..j]
      {
        alignmentData := alignmentData + [threadData[j]];
        assert threadData[..j + 1] == threadData[..j] + [threadData[j]];
      }
      assert threadData[..|threadData|] == threadData;
      assert threadAlignmentData[..tid + 1] == threadAlignmentData[..tid] + [threadData];
      ConcatAppendOne(threadAlignmentData[..tid], threadData);
    }
    assert threadAlignmentData[..|threadAlignmentData|] == threadAlignmentData;
    ConcatLength(threadAlignmentData);
  }

  lemma {:induction false} ConcatMember(xs: seq<seq<nat>>, p: nat, k: nat)
    requires p < |xs| && k < |xs[p]|
    ensures xs[p][k] in Concat(xs)
    decreases |xs|
  {
    if p < |xs| - 1 {
      ConcatMember(xs[..|xs| - 1], p, k);
    }
  }

  lemma AllIndicesCanonical(candidates: seq<OrientedReadPair>, xs: seq<nat>, ys: seq<nat>)
    requires AllCanonical(candidates, xs)
    requires forall i :: i in ys ==> i in xs
    ensures AllCanonical(candidates, ys)
  {
    forall j | 0 <= j < |ys| ensures ys[j] < |candidates| && IsCanonicalPair(candidates[ys[j]]) {
      assert ys[j] in ys;
      var m :| 0 <= m < |xs| && xs[m] == ys[j];
    }
  }
}
