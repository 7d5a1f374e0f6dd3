/** The query side of the alignment table (`findOrientedAlignments`): the
    alignments of one oriented read, each seen from that read.

    A stored record names its reads as read 0 on strand 0 and read 1 on the
    strand of the same-strand flag. To present it from the point of view of
    the query `q`, the pair is swapped when `q` is read 1 of the record, and
    both reads are moved to the opposite strand when the query's strand
    differs from the strand the record gives to that read. The alignment
    summary follows the same two transformations, which are parameters of
    the model (`InfoOps`). */
module OrientedAlignments {
  import opened OrientedReads
  import opened AlignmentRecords
  import opened Sequences
  import opened AlignmentTable

  /** One alignment seen from the query: the oriented reads after the swap
      and the flip (`orientedReadId0` is then the query), and the summary. */
  datatype OrientedAlignment = OrientedAlignment(orientedReadId0: OrientedReadId, orientedReadId1: OrientedReadId, info: AlignmentInfo)

  /** The strand on which record `d` stores read `readId`. */
  function StoredStrand(d: AlignmentData, readId: nat): Strand {
    if readId == d.readId0 then 0 else PartnerStrand(d.isSameStrand)
  }

  /** The record must be swapped for `q`: `q` is not its read 0. */
  predicate SwapsFor(d: AlignmentData, q: OrientedReadId) {
    q.readId != d.readId0
  }

  /** The record must be flipped for `q`: `q` is not on the strand the record stores its read on. */
  predicate FlipsFor(d: AlignmentData, q: OrientedReadId) {
    q.strand != StoredStrand(d, q.readId)
  }

  /** The body of the query loop for one record `d` of the bucket of `q`:
      rebuild the oriented pair, swap it if `q` is not read 0, flip both
      strands if read 0 is not on `q`'s strand. The two checks of the source
      (read 0 is the query's read, then read 0 is the query) hold for every
      record that touches `q`. */
  function Reorient(d: AlignmentData, q: OrientedReadId, ops: InfoOps): (r: OrientedAlignment)
    requires Touches(d, q.Value())
    ensures r.orientedReadId0 == q
    ensures r.orientedReadId1 == Other(d, q)
    ensures !SwapsFor(d, q) && !FlipsFor(d, q) ==> r.info == d.info
    ensures SwapsFor(d, q) && !FlipsFor(d, q) ==> r.info == ops.swap(d.info)
    ensures !SwapsFor(d, q) && FlipsFor(d, q) ==> r.info == ops.reverseComplement(d.info)
    ensures SwapsFor(d, q) && FlipsFor(d, q) ==> r.info == ops.reverseComplement(ops.swap(d.info))
  {
    ValueParts(q);
    var p := OrientedPair(d.readId0, d.readId1, d.isSameStrand);
    var swapped :=
      if p.0.readId != q.readId then OrientedAlignment(p.1, p.0, ops.swap(d.info))
      else OrientedAlignment(p.0, p.1, d.info);
    if swapped.orientedReadId0.strand != q.strand then
      OrientedAlignment(swapped.orientedReadId0.FlipStrand(), swapped.orientedReadId1.FlipStrand(), ops.reverseComplement(swapped.info))
    else swapped
  }

  /** For a canonical record, the swap happens exactly when the query is read 1. */
  lemma SwapsForReadOne(d: AlignmentData, q: OrientedReadId)
    requires IsCanonical(d) && Touches(d, q.Value())
    ensures SwapsFor(d, q) <==> q.readId == d.readId1
  {
    ValueParts(q);
  }

  /** Seen from the partner, the record points back at the query; seen from
      the query's other strand, it points at the partner's other strand. */
  lemma ReorientIsSymmetric(d: AlignmentData, q: OrientedReadId, ops: InfoOps)
    requires IsCanonical(d) && Touches(d, q.Value())
    ensures Touches(d, Reorient(d, q, ops).orientedReadId1.Value())
    ensures Reorient(d, Reorient(d, q, ops).orientedReadId1, ops).orientedReadId1 == q
    ensures Touches(d, q.FlipStrand().Value())
    ensures Reorient(d, q.FlipStrand(), ops).orientedReadId1 == Reorient(d, q, ops).orientedReadId1.FlipStrand()
    ensures FlipsFor(d, q.FlipStrand()) <==> !FlipsFor(d, q)
  {
    OtherIsSymmetric(d, q);
    ValueParts(q);
    ValueParts(q.FlipStrand());
  }

  /** What the query returns for the entries `bucket` of the bucket of `q`:
      the partner and the summary of every record, in bucket order. */
  function OrientedAlignmentsOf(ad: seq<AlignmentData>, q: OrientedReadId, bucket: seq<nat>, ops: InfoOps): (r: seq<(OrientedReadId, AlignmentInfo)>)
    requires forall m :: 0 <= m < |bucket| ==> bucket[m] < |ad| && Touches(ad[bucket[m]], q.Value())
  {
    seq(|bucket|, m requires 0 <= m < |bucket| =>
      var a := Reorient(ad[bucket[m]], q, ops); (a.orientedReadId1, a.info))
  }

  /** `findOrientedAlignments`, on a table built by `ComputeAlignmentTable`
      for `readCount` reads: one entry per record index of the bucket of the
      query, in bucket order, each the record seen from the query. */
  method FindOrientedAlignments(ad: seq<AlignmentData>, toc: array<nat>, data: array<nat>, readCount: nat,
                                orientedReadId0Argument: OrientedReadId, ops: InfoOps)
    returns (result: seq<(OrientedReadId, AlignmentInfo)>)
    requires orientedReadId0Argument.readId < readCount
    requires PartOffsets(SortedBuckets(ad, 2 * readCount), toc[..])
    requires data[..] == Concat(SortedBuckets(ad, 2 * readCount))
    ensures SortedBucketIsTouching(ad, orientedReadId0Argument)
    ensures result == OrientedAlignmentsOf(ad, orientedReadId0Argument, SortedBucket(ad, orientedReadId0Argument.Value()), ops)
  {
    var k := orientedReadId0Argument.Value();
    ValueRange(orientedReadId0Argument, readCount);
    BucketLookup(ad, 2 * readCount, toc[..], data[..], k);
    SortedBucketTouches(ad, orientedReadId0Argument);
    var alignmentTable0 := data[toc[k]..toc[k + 1]];
    result := OrientAll(ad, alignmentTable0, orientedReadId0Argument, ops);
  }

  /** The loop of the query over the record indices `alignmentTable0` of
      the bucket of the query: each record, seen from the query, in order. */
  method OrientAll(ad: seq<AlignmentData>, alignmentTable0: seq<nat>, orientedReadId0Argument: OrientedReadId, ops: InfoOps)
    returns (result: seq<(OrientedReadId, AlignmentInfo)>)
    requires forall m :: 0 <= m < |alignmentTable0| ==>
      alignmentTable0[m] < |ad| && Touches(ad[alignmentTable0[m]], orientedReadId0Argument.Value())
    ensures result == OrientedAlignmentsOf(ad, orientedReadId0Argument, alignmentTable0, ops)
  {
    result := [];
    for m := 0 to |alignmentTable0|
      invariant result == OrientedAlignmentsOf(ad, orientedReadId0Argument, alignmentTable0[..m], ops)
    {
      var i := alignmentTable0[m];
      var orientedReadId1, alignmentInfo := OrientRecord(ad[i], orientedReadId0Argument, ops);
      OrientedAlignmentsOfAppend(ad, orientedReadId0Argument, alignmentTable0, m, ops);
      result := result + [(orientedReadId1, alignmentInfo)];
    }
    assert alignmentTable0[..|alignmentTable0|] == alignmentTable0;
  }

  /** The oriented alignments of a prefix grow by one entry per record. */
  lemma OrientedAlignmentsOfAppend(ad: seq<AlignmentData>, q: OrientedReadId, bucket: seq<nat>, m: nat, ops: InfoOps)
    requires forall m :: 0 <= m < |bucket| ==> bucket[m] < |ad| && Touches(ad[bucket[m]], q.Value())
    requires m < |bucket|
    ensures OrientedAlignmentsOf(ad, q, bucket[..m + 1], ops) ==
      OrientedAlignmentsOf(ad, q, bucket[..m], ops) + [(Reorient(ad[bucket[m]], q, ops).orientedReadId1, Reorient(ad[bucket[m]], q, ops).info)]
  {
  }

  /** The body of the query loop for one record `d` of the bucket of the
      query: it returns the partner and the summary of `Reorient`, and the
      three checks of the source hold along the way. */
  method OrientRecord(d: AlignmentData, orientedReadId0Argument: OrientedReadId, ops: InfoOps)
    returns (orientedReadId1: OrientedReadId, alignmentInfo: AlignmentInfo)
    requires Touches(d, orientedReadId0Argument.Value())
    ensures orientedReadId1 == Reorient(d, orientedReadId0Argument, ops).orientedReadId1
    ensures alignmentInfo == Reorient(d, orientedReadId0Argument, ops).info
  {
    var readId0 := orientedReadId0Argument.readId;
    var strand0 := orientedReadId0Argument.strand;
    ValueParts(orientedReadId0Argument);

    // The oriented reads the record refers to.
    var orientedReadId0 := OrientedReadId(d.readId0, 0);
    orientedReadId1 := OrientedReadId(d.readId1, if d.isSameStrand then 0 else 1);
    alignmentInfo := d.info;

    // Swap them, if necessary.
    if orientedReadId0.readId != readId0 {
      orientedReadId0, orientedReadId1 := orientedReadId1, orientedReadId0;
      alignmentInfo := ops.swap(alignmentInfo);
    }
    assert orientedReadId0.readId == readId0;

    // Reverse complement, if necessary.
    if orientedReadId0.strand != strand0 {
      orientedReadId0 := orientedReadId0.FlipStrand();
      orientedReadId1 := orientedReadId1.FlipStrand();
      alignmentInfo := ops.reverseComplement(alignmentInfo);
    }
    assert orientedReadId0.strand == strand0;
    assert orientedReadId0 == orientedReadId0Argument;
  }

  /** Every record in the sorted bucket of `q` touches `q`. */
  predicate SortedBucketIsTouching(ad: seq<AlignmentData>, q: OrientedReadId) {
    forall m :: 0 <= m < |SortedBucket(ad, q.Value())| ==>
      SortedBucket(ad, q.Value())[m] < |ad| && Touches(ad[SortedBucket(ad, q.Value())[m]], q.Value())
  }

  lemma SortedBucketTouches(ad: seq<AlignmentData>, q: OrientedReadId)
    ensures SortedBucketIsTouching(ad, q)
  {
    SortedBucketIsOrderedPermutation(ad, q.Value());
  }

  /** The alignments of `q` come out ordered by partner oriented read (the
      order the table's sort put them in), and, for canonical records, with
      one entry for each record that involves `q`'s read. */
  lemma OrientedAlignmentsOrderedAndComplete(ad: seq<AlignmentData>, q: OrientedReadId, ops: InfoOps)
    requires forall i :: 0 <= i < |ad| ==> IsCanonical(ad[i])
    ensures SortedBucketIsTouching(ad, q)
    ensures var r := OrientedAlignmentsOf(ad, q, SortedBucket(ad, q.Value()), ops);
      forall m, m' :: 0 <= m < m' < |r| ==> r[m].0.Value() <= r[m'].0.Value()
    ensures forall i :: 0 <= i < |ad| ==>
      multiset(SortedBucket(ad, q.Value()))[i] == if q.readId == ad[i].readId0 || q.readId == ad[i].readId1 then 1 else 0
  {
    var k := q.Value();
    SortedBucketTouches(ad, q);
    SortedBucketIsOrderedPermutation(ad, k);
    ValueInjective(q, FromValue(k));
    ValueParts(q);
    forall i | 0 <= i < |ad|
      ensures multiset(SortedBucket(ad, k))[i] == if q.readId == ad[i].readId0 || q.readId == ad[i].readId1 then 1 else 0
    {
      SortedBucketHoldsEachTouchingRecordOnce(ad, k, i);
    }
  }
}
