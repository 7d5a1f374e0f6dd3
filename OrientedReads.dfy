/** Oriented read identities: a read id together with a strand, packed into
    one dense value `2 * readId + strand` that indexes per-oriented-read tables. */
module OrientedReads {

  /** Strand 0 is the read as sequenced, strand 1 its reverse complement. */
  type Strand = s: nat | s < 2

  datatype OrientedReadId = OrientedReadId(readId: nat, strand: Strand) {

    /** The dense value used as an array index (`getValue`). */
    function Value(): nat {
      2 * readId + strand
    }

    /** The same read on the other strand (`flipStrand`). */
    function FlipStrand(): (o: OrientedReadId)
      ensures o.readId == readId && o.strand != strand
    {
      OrientedReadId(readId, 1 - strand)
    }
  }

  /** The oriented read whose value is `v`. */
  function FromValue(v: nat): (o: OrientedReadId)
    ensures o.Value() == v
  {
    OrientedReadId(v / 2, v % 2)
  }

  /** The value packs the read id above the strand bit. */
  lemma ValueParts(o: OrientedReadId)
    ensures o.Value() / 2 == o.readId && o.Value() % 2 == o.strand
  {
  }

  /** The value projection is one-to-one: it determines the read and the strand. */
  lemma ValueInjective(a: OrientedReadId, b: OrientedReadId)
    requires a.Value() == b.Value()
    ensures a == b
  {
    ValueParts(a);
    ValueParts(b);
  }

  /** Values of the reads `0 .. readCount-1` fill `[0, 2 * readCount)` exactly. */
  lemma ValueRange(o: OrientedReadId, readCount: nat)
    ensures o.Value() < 2 * readCount <==> o.readId < readCount
  {
  }

  /** Flipping the strand twice gives back the oriented read, and a flip
      toggles the low bit of the value. */
  lemma FlipStrandInvolution(o: OrientedReadId)
    ensures o.FlipStrand().FlipStrand() == o
    ensures o.FlipStrand().Value() == if o.strand == 0 then o.Value() + 1 else o.Value() - 1
  {
  }
}
