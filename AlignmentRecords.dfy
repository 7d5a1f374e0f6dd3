/** Alignment candidates and the canonical alignment record.

    A record stores one alignment of two reads once, with the lower read id
    first and that read on strand 0; the other three oriented forms of the
    same alignment are recovered from it on demand. */
module AlignmentRecords {
  import opened OrientedReads

  /** Summary of one alignment (marker count, per-side positions). Its
      layout and its transformations belong to code outside this model, so
      it is kept abstract here. */
  type AlignmentInfo(==)

  /** The two coordinate transformations of an AlignmentInfo that the query
      path needs: exchanging the roles of the two reads, and moving both reads
      to the opposite strand. They are supplied from outside the model and no
      law is assumed about them. */
  datatype InfoOps = InfoOps(
    swap: AlignmentInfo -> AlignmentInfo,
    reverseComplement: AlignmentInfo -> AlignmentInfo)

  /** A candidate pair of reads to be aligned. */
  datatype OrientedReadPair = OrientedReadPair(readId0: nat, readId1: nat, isSameStrand: bool)

  /** The canonical stored record of an accepted alignment. */
  datatype AlignmentData = AlignmentData(readId0: nat, readId1: nat, isSameStrand: bool, info: AlignmentInfo)

  predicate IsCanonicalPair(c: OrientedReadPair) {
    c.readId0 < c.readId1
  }

  predicate IsCanonical(d: AlignmentData) {
    d.readId0 < d.readId1
  }

  /** The strand read 1 is on when read 0 is on strand 0. */
  function PartnerStrand(isSameStrand: bool): (s: Strand)
    ensures s == 0 <==> isSameStrand
  {
    if isSameStrand then 0 else 1
  }

  /** The oriented reads that a candidate or a record refers to:
      read 0 on strand 0, read 1 on the strand given by the same-strand flag. */
  function OrientedPair(readId0: nat, readId1: nat, isSameStrand: bool): (p: (OrientedReadId, OrientedReadId))
    ensures p.0.readId == readId0 && p.0.strand == 0
    ensures p.1.readId == readId1 && (p.1.strand == p.0.strand <==> isSameStrand)
  {
    (OrientedReadId(readId0, 0), OrientedReadId(readId1, PartnerStrand(isSameStrand)))
  }

  /** The canonical record built from an accepted candidate and its alignment summary. */
  function MakeAlignmentData(c: OrientedReadPair, info: AlignmentInfo): (d: AlignmentData)
    ensures IsCanonicalPair(c) ==> IsCanonical(d)
    ensures OrientedPair(d.readId0, d.readId1, d.isSameStrand) == OrientedPair(c.readId0, c.readId1, c.isSameStrand)
  {
    AlignmentData(c.readId0, c.readId1, c.isSameStrand, info)
  }

  /** The four alignment-table keys of a record, in the order the table
      builder visits them: read 0, read 1, then both again on the opposite strand. */
  function TableKeys(d: AlignmentData): (keys: seq<nat>)
    ensures |keys| == 4
    ensures keys[0] / 2 == d.readId0 && keys[0] % 2 == 0
    ensures keys[1] / 2 == d.readId1 && (keys[1] % 2 == 0 <==> d.isSameStrand)
    ensures keys[2] / 2 == d.readId0 && keys[2] % 2 == 1
    ensures keys[3] / 2 == d.readId1 && keys[3] % 2 != keys[1] % 2
  {
    var p := OrientedPair(d.readId0, d.readId1, d.isSameStrand);
    [p.0.Value(), p.1.Value(), p.0.FlipStrand().Value(), p.1.FlipStrand().Value()]
  }

  /** The keys are the values of the record's oriented reads, in the order
      the table builder forms them: read 0 on strand 0, read 1 on its
      strand, then both flipped. */
  lemma TableKeysInOrder(d: AlignmentData)
    ensures var o0, o1 := OrientedReadId(d.readId0, 0), OrientedReadId(d.readId1, if d.isSameStrand then 0 else 1);
      TableKeys(d) == [o0.Value(), o1.Value(), o0.FlipStrand().Value(), o1.FlipStrand().Value()]
  {
  }

  /** Whether the oriented read with value `k` is one of the two reads of `d`,
      on either strand. */
  predicate Touches(d: AlignmentData, k: nat) {
    k / 2 == d.readId0 || k / 2 == d.readId1
  }

  /** The keys of a record are exactly the oriented reads it touches: both
      strands of read 0 and both strands of read 1. */
  lemma TableKeysAreTheTouchedReads(d: AlignmentData)
    ensures |TableKeys(d)| == 4
    ensures forall k: nat :: k in TableKeys(d) <==> Touches(d, k)
  {
    var keys := TableKeys(d);
    var s1 := PartnerStrand(d.isSameStrand);
    assert keys == [2 * d.readId0, 2 * d.readId1 + s1, 2 * d.readId0 + 1, 2 * d.readId1 + 1 - s1];
    forall k: nat | Touches(d, k) ensures k in keys {
      assert 2 * (k / 2) <= k < 2 * (k / 2) + 2;
      if k / 2 == d.readId0 {
        assert k == 2 * d.readId0 || k == 2 * d.readId0 + 1;
      } else {
        assert k == 2 * d.readId1 + s1 || k == 2 * d.readId1 + 1 - s1;
      }
    }
  }

  /** The four keys of a canonical record are distinct, because its two reads differ. */
  lemma TableKeysAreDistinct(d: AlignmentData)
    requires IsCanonical(d)
    ensures forall a, b :: 0 <= a < b < |TableKeys(d)| ==> TableKeys(d)[a] != TableKeys(d)[b]
  {
    var s1 := PartnerStrand(d.isSameStrand);
    assert TableKeys(d) == [2 * d.readId0, 2 * d.readId1 + s1, 2 * d.readId0 + 1, 2 * d.readId1 + 1 - s1];
  }

  /** The partner of oriented read `q` in record `d` (`AlignmentData::getOther`):
      the other read, on the same strand as `q` if the two reads align on the
      same strand, on the opposite strand otherwise. */
  function Other(d: AlignmentData, q: OrientedReadId): (o: OrientedReadId)
    requires Touches(d, q.Value())
    ensures Touches(d, o.Value())
    ensures IsCanonical(d) ==> o.readId != q.readId
    ensures o.strand == q.strand <==> d.isSameStrand
  {
    var strand: Strand := if d.isSameStrand then q.strand else 1 - q.strand;
    if q.readId == d.readId0 then OrientedReadId(d.readId1, strand)
    else OrientedReadId(d.readId0, strand)
  }

  /** Looking up the partner of the partner gives back the query, and the
      partner of the opposite strand is the partner on the opposite strand. */
  lemma OtherIsSymmetric(d: AlignmentData, q: OrientedReadId)
    requires IsCanonical(d) && Touches(d, q.Value())
    ensures Other(d, Other(d, q)) == q
    ensures Touches(d, q.FlipStrand().Value())
    ensures Other(d, q.FlipStrand()) == Other(d, q).FlipStrand()
  {
  }
}
