# Alignment bookkeeping of the shasta assembler, in Dafny

This project models the sequential bookkeeping around read alignment in
shasta's `src/AssemblerAlign.cpp`, and proves what that code promises:

- **Candidate filtering and storage** (`computeAlignments` and
  `computeAlignmentsThreadFunction`), in `AlignmentComputation.dfy`.
  - Every alignment candidate `(readIds[0], readIds[1], isSameStrand)` is
    handed to a thread in batches. The batch size is `n / threadCount`,
    capped at 10000 and never 0.
  - The thread checks that the candidate is canonical (`readIds[0] < readIds[1]`).
  - It keeps the alignment when it has enough aligned markers and neither
    trim is too large. A kept alignment is appended to the thread's buffer
    as an `AlignmentData` record.
  - The store is the thread buffers concatenated in thread order.
- **The alignment table** (`computeAlignmentTable`), in `AlignmentTable.dfy`.
  - It is a counting-sort index with one bucket per oriented read. An
    oriented read is `2 * readId + strand`, in `OrientedReads.dfy`.
  - Pass 1 counts four entries per record. The offsets are the prefix sums
    of the counts. Pass 2 writes every record index into the buckets of
    both strands of both of its reads.
  - Each bucket is then sorted in place by `(partner oriented read, record index)`.
- **The query of the table** (`findOrientedAlignments`), in
  `OrientedAlignments.dfy`. Every record of the query's bucket is turned
  around to the query's point of view: the reads are swapped when the query
  is read 1, and both strands are flipped when the strand differs.
- **Palindromic read detection** (`flagPalindromicReads` and its thread
  function), in `Palindromes.dfy`.
  - All flags are reset first.
  - A read is flagged when its self-alignment covers enough of its markers,
    and enough of the matched marker pairs lie within `deltaThreshold` of
    the diagonal.
  - The flags set are then counted.
- **The shared-marker histogram** (`analyzeAlignmentMatrix`, merge-join and
  binning), in `AlignmentMatrix.dfy`.
  - A merge-join walks the markers of two oriented reads, sorted by k-mer id.
  - It bins every pair of markers that share a k-mer id into a 2-D
    histogram, over `x = ordinal0 + ordinal1` and `y = ordinal0 - ordinal1`,
    with cells 100 by 20.

Record types and the table keys of a record are in `AlignmentRecords.dfy`,
and generic sequence helpers (concatenation, sums, counts) in `Sequences.dfy`.

The outputs of code outside this file are inputs of the model, as follows.

- **The alignment primitive** (`alignOrientedReads`) and `computeTrim`: what
  they report for candidate `i` is `outcomes[i]`.
- **The self-alignment of read `r`**: it is `alignments[r]`.
- **The marker lists**: their retrieval is not part of the model. As that
  retrieval guarantees, they are sorted by k-mer id, with ordinals below the
  marker count.
- **The summary transformations** `AlignmentInfo::swap` and
  `AlignmentInfo::reverseComplement`: they are function parameters, and no
  law is assumed about them.
- **The thread pool**: it is run one thread at a time. Batch `j`, in the order
  the load balancer hands them out, goes to thread `claimant(j)`, an
  arbitrary schedule. The properties are proved for every schedule.

Each imperative routine of the source is a Dafny method with the source's
loops and their invariants. Each method is proved against a specification
function (`Kept`, `Bucket`, `SortedBucket`, `OrientedAlignmentsOf`,
`IsPalindromic`, `SharedMarkerPairsInCell`). The lemmas state what the
source promises about those functions.

`SHASTA_ASSERT`s:
- The assertion at `src/AssemblerAlign.cpp:321` depends on the input. A
  non-canonical candidate ends the run with `NonCanonicalCandidate(i)`.
- The assertions at lines 478, 486-487 and 716-719 are proved to hold.

A read without markers is flagged as palindromic. Each of its quotients
divides by `0.0` and is NaN or infinite, and such a quotient is never below
a finite threshold, so neither test rejects the read. The model keeps that behaviour; see
`ReadWithoutMarkersIsPalindromic`.

## Model

| member | source | states |
|---|---|---|
| OrientedReads.FromValue | src/AssemblerAlign.cpp:402-405 | every table index is the value of exactly one oriented read, the one it decodes to |
| OrientedReads.ValueInjective | src/AssemblerAlign.cpp:402-405 | two oriented reads with the same table index are the same read on the same strand |
| OrientedReads.ValueRange | src/AssemblerAlign.cpp:371 | the `2 * readCount` buckets are exactly the oriented reads of reads `0 .. readCount-1` |
| OrientedReads.FlipStrandInvolution | src/AssemblerAlign.cpp:378-380 | flipping twice is the identity, and a flip moves the value to the other strand's neighbour |
| AlignmentRecords.OrientedPair | src/AssemblerAlign.cpp:324-326 | read 0 is on strand 0, and read 1 is on the same strand iff the candidate is same-strand |
| AlignmentRecords.MakeAlignmentData | src/AssemblerAlign.cpp:359 | a record built from a canonical candidate is canonical and refers to the same oriented pair |
| AlignmentRecords.TableKeys | src/AssemblerAlign.cpp:373-381 | the four keys are read 0 on strand 0, read 1 on strand 0 iff the record is same-strand, then read 0 on strand 1, then read 1 on its other strand |
| AlignmentRecords.TableKeysAreTheTouchedReads | src/AssemblerAlign.cpp:373-381 | the keys of a record are exactly both strands of both of its reads |
| AlignmentRecords.TableKeysAreDistinct | src/AssemblerAlign.cpp:373-381 | the four keys of a canonical record (`readId0 < readId1`) are pairwise distinct |
| AlignmentRecords.Other | src/AssemblerAlign.cpp:414 | the partner is the other read of the record, on a strand equal to the query's iff the record is same-strand |
| AlignmentRecords.OtherIsSymmetric | src/AssemblerAlign.cpp:414 | the partner of the partner is the query, and flipping the query flips the partner |
| AlignmentComputation.BatchSize | src/AssemblerAlign.cpp:252-259 | the batch size lies in [1, 10000] and equals `n / threadCount` whenever that lies in that range, 10000 when above, and 1 when `n / threadCount` is 0 |
| AlignmentComputation.IsGood | src/AssemblerAlign.cpp:346-357 | an alignment is dropped iff it has fewer aligned markers than `minAlignedMarkerCount` or a trim above `maxTrim` |
| AlignmentComputation.GoodUnderLooserThresholds | src/AssemblerAlign.cpp:346-357 | a lower marker minimum or a higher trim maximum keeps every alignment the stricter thresholds keep |
| AlignmentComputation.BatchesFromCover | src/AssemblerAlign.cpp:312-319 | the batches cover the candidates once each, in increasing order, none longer than the batch size |
| AlignmentComputation.RunBatches | src/AssemblerAlign.cpp:252-265 | the batches of a run lie within the candidates and list each candidate once, in order |
| AlignmentComputation.ThreadsShareTheBatches | src/AssemblerAlign.cpp:265-266 | together, the threads process the indices of the batches exactly as often as the batches hold them |
| AlignmentComputation.RunCoversCandidates | src/AssemblerAlign.cpp:265-266 | in a run, every candidate is processed by exactly one thread, whatever the schedule |
| AlignmentComputation.KeptAppend | src/AssemblerAlign.cpp:319-359 | a thread that processes `xs` then `ys` appends the records of `xs`, then those of `ys` (candidate order is kept) |
| AlignmentComputation.KeptIsTheGoodCandidates | src/AssemblerAlign.cpp:346-359 | a record is appended iff its candidate has enough aligned markers and both trims within `maxTrim`; never more records than candidates |
| AlignmentComputation.KeptIsCanonical | src/AssemblerAlign.cpp:321-359 | records of canonical candidates are canonical |
| AlignmentComputation.KeptPermutation | src/AssemblerAlign.cpp:274-279 | processing the same candidates in another order yields the same records, permuted |
| AlignmentComputation.KeptOfConcat | src/AssemblerAlign.cpp:274-279 | the records of concatenated index lists are the concatenation of the records of each list |
| AlignmentComputation.ComputeAlignmentsThread | src/AssemblerAlign.cpp:312-360 | a thread completes iff all its candidates are canonical, and then returns their good records in order; otherwise it stops at the first non-canonical one |
| AlignmentComputation.ProcessBatch | src/AssemblerAlign.cpp:319-360 | one batch extends the buffer by the good records of its candidates, or stops at its first non-canonical candidate |
| AlignmentComputation.RunThreads | src/AssemblerAlign.cpp:263-266 | every thread's buffer holds the records of the batches it claimed; an abort names a non-canonical candidate that some thread was scheduled |
| AlignmentComputation.StoreThreadAlignmentData | src/AssemblerAlign.cpp:273-279 | the store is the thread buffers concatenated in thread order, and its size is the sum of their sizes |
| AlignmentComputation.RunKeepsEachGoodCandidateOnce | src/AssemblerAlign.cpp:263-279 | whatever the schedule, the concatenated buffers hold the record of every good candidate exactly once, and nothing else |
| AlignmentComputation.ComputeAlignments | src/AssemblerAlign.cpp:247-279 | completes iff all candidates are canonical. The store is then the buffers in thread order, as long as their total and a permutation of the good candidates' records. An abort names a non-canonical candidate |
| AlignmentComputation.StoreFitsTheTable | src/AssemblerAlign.cpp:273-281 | every stored record is canonical and names reads below `readCount` when the candidates do, which is what the table build of line 281 requires |
| AlignmentComputation.StoreAsWritten | src/AssemblerAlign.cpp:263-279 | with buffers that already hold records, the store holds those records besides the good candidates' records |
| AlignmentComputation.StaleRecordIsStoredAgain | src/AssemblerAlign.cpp:263-279 | a record left in a buffer is stored by a run over no candidates, whose own store is empty |
| AlignmentComputation.StoreAsWrittenOnEmptyBuffers | src/AssemblerAlign.cpp:263-279 | when every buffer starts empty, the source's store has exactly the records of `ComputeAlignments` |
| AlignmentTable.StoreOpsAt | src/AssemblerAlign.cpp:384-395 | store `4 * i + j` of pass 2 writes record index `i` into the bucket of key `j` of record `i` |
| AlignmentTable.BucketTouches | src/AssemblerAlign.cpp:384-395 | every entry of bucket `k` is a record index whose record involves oriented read `k`'s read |
| AlignmentTable.BucketMultiplicity | src/AssemblerAlign.cpp:384-395 | record `i` occurs in bucket `k` once per table key of `i` equal to `k`, and indices beyond the store never occur |
| AlignmentTable.RecordStoredOncePerTouchedRead | src/AssemblerAlign.cpp:372-395 | a canonical record is stored exactly once in each of its four buckets and in no other |
| AlignmentTable.InsertEntry | src/AssemblerAlign.cpp:419 | inserting into a sorted sequence keeps it sorted and adds exactly that element |
| AlignmentTable.SortEntries | src/AssemblerAlign.cpp:419 | the sort returns a sorted permutation of its input, ordered as `std::pair` is |
| AlignmentTable.BucketEntries | src/AssemblerAlign.cpp:410-416 | the pairs built for a bucket are one per entry, in order, each carrying that entry's record index |
| AlignmentTable.SortedBucketIsOrderedPermutation | src/AssemblerAlign.cpp:400-425 | after the sort, a bucket is a permutation of its old contents, non-decreasing by (partner, record index) |
| AlignmentTable.SortedBucketHoldsEachTouchingRecordOnce | src/AssemblerAlign.cpp:400-425 | after the sort, a bucket still holds each canonical record that involves its read exactly once, and no other index |
| AlignmentTable.CountsStep | src/AssemblerAlign.cpp:376-381 | each `incrementCount` adds one to the count of its own bucket and leaves the others alone |
| AlignmentTable.CursorsStep | src/AssemblerAlign.cpp:389-394 | each `store` advances the fill position of its own bucket only |
| AlignmentTable.LayoutStart | src/AssemblerAlign.cpp:383 | at the start of pass 2 the data array is all zeros, laid out at the bucket offsets |
| AlignmentTable.LayoutEnd | src/AssemblerAlign.cpp:396 | after the last store, every bucket region holds exactly its bucket |
| AlignmentTable.StoreInto | src/AssemblerAlign.cpp:389 | a store writes its record index at the fill position of its bucket, the first free slot of that bucket |
| AlignmentTable.CountEntries | src/AssemblerAlign.cpp:371-382 | pass 1 leaves in every count the number of entries pass 2 writes to that bucket, and the counts total `4 * |alignmentData|` |
| AlignmentTable.CountsAtStart | src/AssemblerAlign.cpp:371 | all counts start at zero |
| AlignmentTable.CountsOfAll | src/AssemblerAlign.cpp:382-383 | after all records, each count is the size of its bucket |
| AlignmentTable.CountRecord | src/AssemblerAlign.cpp:373-381 | counting one record performs its four stores' counts, raising the total by four |
| AlignmentTable.KeysOfRecord | src/AssemblerAlign.cpp:373-394 | the four keys both passes use for record `i` are its stores `4i .. 4i+3`, and all name buckets of the table |
| AlignmentTable.IncrementCount | src/AssemblerAlign.cpp:376 | the count of one bucket goes up by one and the others do not change |
| AlignmentTable.Offsets | src/AssemblerAlign.cpp:383 | bucket offsets start at 0 and advance by each bucket's count; the last is the total |
| AlignmentTable.StoreEntries | src/AssemblerAlign.cpp:384-396 | after pass 2, the data array is the buckets, before the sort, one after the other at their offsets |
| AlignmentTable.StoreRecord | src/AssemblerAlign.cpp:385-395 | one record's four stores, in the order of pass 1 |
| AlignmentTable.StoreEntry | src/AssemblerAlign.cpp:389 | one store puts the index in the first free slot of its bucket and advances that bucket's position |
| AlignmentTable.PairWithPartners | src/AssemblerAlign.cpp:410-416 | the pairs built for a bucket are `(getOther, index)` for each entry, in order |
| AlignmentTable.WriteBack | src/AssemblerAlign.cpp:421-424 | writing back overwrites exactly the bucket's region with the sorted indices |
| AlignmentTable.SortBucket | src/AssemblerAlign.cpp:403-424 | sorting a bucket replaces that bucket by its sorted form and leaves every other bucket untouched |
| AlignmentTable.SortStep | src/AssemblerAlign.cpp:400-425 | sorting the next bucket moves it to the sorted side and keeps every bucket's size, so the offsets stay valid |
| AlignmentTable.SortNext | src/AssemblerAlign.cpp:402-425 | one step of the sort loop sorts the first unsorted bucket |
| AlignmentTable.SortRead | src/AssemblerAlign.cpp:401-426 | the inner loop sorts the buckets of both strands of one read |
| AlignmentTable.SortBuckets | src/AssemblerAlign.cpp:400-427 | the sort loop turns every bucket into its sorted form in place, and the offsets still locate them |
| AlignmentTable.ComputeAlignmentTable | src/AssemblerAlign.cpp:368-429 | the table has `4 * |alignmentData|` entries, and the offsets locate in it the sorted bucket of every oriented read of the `2 * readCount` |
| AlignmentTable.BucketLookup | src/AssemblerAlign.cpp:404-405 | reading the section of oriented read `k` gives back its sorted bucket |
| OrientedAlignments.Reorient | src/AssemblerAlign.cpp:469-487 | the result is seen from the query (asserts 478, 486, 487), pairs it with the partner, and swaps/reverse-complements the summary exactly when required |
| OrientedAlignments.SwapsForReadOne | src/AssemblerAlign.cpp:474-477 | for a canonical record the pair is swapped iff the query is read 1 |
| OrientedAlignments.ReorientIsSymmetric | src/AssemblerAlign.cpp:469-487 | seen from the partner, the record points back at the query; from the other strand, at the partner's other strand |
| OrientedAlignments.OrientRecord | src/AssemblerAlign.cpp:466-489 | the loop body returns the partner and summary of `Reorient`; its three assertions hold |
| OrientedAlignments.OrientAll | src/AssemblerAlign.cpp:465-490 | the loop returns one entry per record index of the section, in section order |
| OrientedAlignments.FindOrientedAlignments | src/AssemblerAlign.cpp:454-492 | the result has one entry per index of the query's sorted bucket, in bucket order, each the record seen from the query |
| OrientedAlignments.OrientedAlignmentsOrderedAndComplete | src/AssemblerAlign.cpp:454-492 | the alignments of a query come ordered by partner, one for each canonical record involving the query's read |
| Palindromes.Delta | src/AssemblerAlign.cpp:609-611 | the distance between the two ordinals, below 2^31, so the `int32_t` subtraction and `abs` do not overflow |
| Palindromes.FractionBelow | src/AssemblerAlign.cpp:600-601 | the quotient `count / total` is below the threshold, compared exactly; never true for a total of 0 (NaN or infinity compares false) |
| Palindromes.IsPalindromic | src/AssemblerAlign.cpp:598-622 | a read is flagged iff it has no markers, or both its aligned fraction and its near-diagonal fraction reach their thresholds |
| Palindromes.CountNearDiagonal | src/AssemblerAlign.cpp:606-615 | the count is the number of matched pairs whose ordinals differ by less than `deltaThreshold`, at most the number of pairs |
| Palindromes.NearDiagonalCountIsCardinality | src/AssemblerAlign.cpp:606-615 | that count is the size of the set of positions whose ordinals differ by less than `deltaThreshold` |
| Palindromes.NearDiagonalCountMonotone | src/AssemblerAlign.cpp:611-613 | a larger delta threshold never lowers the count |
| Palindromes.PalindromicUnderLooserThresholds | src/AssemblerAlign.cpp:598-622 | lowering a fraction threshold or raising the delta threshold never unflags a read |
| Palindromes.ReadWithoutMarkersIsPalindromic | src/AssemblerAlign.cpp:598-622 | a read with no markers is flagged whatever the thresholds |
| Palindromes.PalindromicReadHasEnoughNearDiagonalPairs | src/AssemblerAlign.cpp:606-622 | a flagged read with markers has at least the near-diagonal fraction of its markers matched near the diagonal |
| Palindromes.FlagBatch | src/AssemblerAlign.cpp:586-623 | a read of the batch is flagged iff it passes both fraction tests; no other flag changes, and none is cleared |
| Palindromes.FlagPalindromicReadsThread | src/AssemblerAlign.cpp:579-624 | a thread flags exactly the palindromic reads of the batches it claimed |
| Palindromes.RunFlagThreads | src/AssemblerAlign.cpp:528-529 | from all flags clear, the threads leave every read flagged iff it is palindromic |
| Palindromes.CountFlags | src/AssemblerAlign.cpp:532-537 | the count is the number of flags set |
| Palindromes.FlagPalindromicReads | src/AssemblerAlign.cpp:521-537 | every read ends flagged iff palindromic, and the count reported is the number of palindromic reads |
| AlignmentMatrix.TruncDiv | src/AssemblerAlign.cpp:714-715 | 64-bit division agrees with floor division on non-negative operands, and is 0 for small negative ones |
| AlignmentMatrix.NxCells | src/AssemblerAlign.cpp:660-670 | the histogram has at least one column |
| AlignmentMatrix.NyCells | src/AssemblerAlign.cpp:662-671 | the histogram has at least one row |
| AlignmentMatrix.CellX | src/AssemblerAlign.cpp:712-714 | the column is the one whose x-range of width 100 holds `x = ordinal0 + ordinal1` |
| AlignmentMatrix.CellY | src/AssemblerAlign.cpp:713-715 | when `y = ordinal0 - ordinal1` is at least `yMin`, the row is the one whose y-range of height 20 above `yMin` holds `y` |
| AlignmentMatrix.CellInRange | src/AssemblerAlign.cpp:712-719 | the cell of every pair of ordinals within the reads is inside the histogram (asserts 716-719) |
| AlignmentMatrix.AdvanceFirst | src/AssemblerAlign.cpp:682-683 | skipping a marker of the first read with a smaller k-mer id skips no shared pair |
| AlignmentMatrix.AdvanceSecond | src/AssemblerAlign.cpp:684-685 | skipping a marker of the second read with a smaller k-mer id skips no shared pair |
| AlignmentMatrix.PassStreaks | src/AssemblerAlign.cpp:696-728 | passing the two streaks of a common k-mer id adds exactly the pairs of the streaks |
| AlignmentMatrix.MergeDone | src/AssemblerAlign.cpp:681 | once one list is exhausted, no shared pair remains unvisited |
| AlignmentMatrix.GridSumIncrement | src/AssemblerAlign.cpp:721 | one increment of a cell raises the histogram total by one |
| AlignmentMatrix.GridSumOfZeros | src/AssemblerAlign.cpp:672 | the histogram starts with total zero |
| AlignmentMatrix.AddSharedPair | src/AssemblerAlign.cpp:712-721 | a shared pair raises exactly its own cell by one |
| AlignmentMatrix.AddPairTotal | src/AssemblerAlign.cpp:712-721 | binning one pair raises the total by one iff the pair is shared |
| AlignmentMatrix.AddRowTotal | src/AssemblerAlign.cpp:709-722 | binning a row of pairs raises the total by the shared pairs of that row |
| AlignmentMatrix.AddBlockTotal | src/AssemblerAlign.cpp:707-724 | binning a block of pairs raises the total by the shared pairs of the block: none falls outside the grid |
| AlignmentMatrix.CellsHoldAllPairs | src/AssemblerAlign.cpp:672-729 | a histogram whose cells hold their shared pairs totals all the shared pairs |
| AlignmentMatrix.AddToCell | src/AssemblerAlign.cpp:721 | one cell goes up by one and no other changes |
| AlignmentMatrix.AddRow | src/AssemblerAlign.cpp:709-722 | every cell gains the pairs of one marker against the other streak that are binned to it |
| AlignmentMatrix.AddStreaks | src/AssemblerAlign.cpp:707-724 | every cell gains the pairs of the two streaks that are binned to it |
| AlignmentMatrix.StreakEnd | src/AssemblerAlign.cpp:698-703 | the scan stops at the end of the streak of the k-mer id, past at least one marker |
| AlignmentMatrix.PassCommonKmer | src/AssemblerAlign.cpp:687-728 | the common-k-mer branch moves past both streaks, and keeps every cell equal to the shared pairs visited so far that are binned to it |
| AlignmentMatrix.AnalyzeAlignmentMatrix | src/AssemblerAlign.cpp:627-729 | every cell ends holding the shared marker pairs binned to it, and the cells total the number of marker pairs with equal k-mer id |

## Left out

- Concurrency is not modelled. This covers `runThreads`, `setupLoadBalancing`,
  `getNextBatch` and the mutex. Threads run one after the other, over an
  arbitrary schedule `claimant`, and each thread owns its buffer.
- ComputeAlignments: the thread buffers are taken to be empty at entry. The
  source only resizes them (line 263), so records left there by an earlier
  call in the same process would be stored again; `StoreAsWritten` models
  that case (see Findings).
- `std::thread::hardware_concurrency()` is not modelled: `threadCount == 0`
  is not allowed.
- The alignment primitive, the marker retrieval and `computeTrim` are
  outside the model. Their results are inputs.
- `AlignmentInfo` and its `swap` and `reverseComplement` are opaque, with
  no laws assumed. So no round trip of the summary is claimed.
- The memory-mapped containers (`createNew`, `beginPass1`, `incrementCount`,
  `beginPass2`, `store`, `endPass2`) are modelled by arrays of counts,
  offsets and data.
  - Their source is not part of this model. `store` is assumed to fill a
    bucket from its start. The sorted table does not depend on this
    assumption, because the pair order is total.
- `SortBuckets`: during the sort the offsets are passed as a value, not as
  the array. The sort only reads them.
- The double-precision fraction tests are exact rational comparisons, with
  the thresholds as fractions. Rounding of `double` near a threshold is not
  modelled.
- `Ordinal`: ordinals at or above 2^31 are left out. Those are the ones
  whose `int32_t` conversion would change them.
- 32-bit and 64-bit overflow of counters, indices and histogram coordinates
  is not modelled: all integers are unbounded.
- All output is left out: `cout`, CSV and PNG files, timing, and the
  `activeCellCount` loop of `analyzeAlignmentMatrix`.
- `assemblerInfo->palindromicReadCount` is the returned count.
- Of the read flags, only `isPalindromic` is modelled.
- The debug wrappers `alignOrientedReads` and the print-only
  `alignOverlappingOrientedReads` are not modelled.
- `accessAlignmentData` and `checkAlignmentDataAreOpen` are not modelled.
  They check and open files.
- `scripts/WriteLocalReadGraphReads.py` is not modelled. It only parses
  arguments and calls the Python bindings.
- The definition of `OrientedReadId` is not part of this model. The type is
  rebuilt from its uses: the value is `2 * readId + strand`, and
  `flipStrand` toggles the strand.
- `AlignmentData::getOther` is not part of this model. `Other` defines it
  to agree with the reconstruction in `findOrientedAlignments`.

## Findings

| source | as written | input that shows it | evidently intended | confidence | as-written member | corrected member |
|---|---|---|---|---|---|---|
| src/AssemblerAlign.cpp:263 | `resize(threadCount)` keeps what each thread buffer already holds; threads only append (line 359), and the store copies every buffer (273-279) | a second `computeAlignments` in one process, where thread 0's buffer still holds a record and there are no candidates: that record is stored | the buffers are cleared before the threads run, so the store holds only this run's good records | low, not executed; it shows only when the function runs twice in one process | AlignmentComputation.StaleRecordIsStoredAgain | AlignmentComputation.ComputeAlignments |
