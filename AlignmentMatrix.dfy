/** The shared-marker histogram of two oriented reads
    (`analyzeAlignmentMatrix`): a merge-join over the markers of both reads,
    sorted by k-mer id, pairs every marker of one read with every marker of
    the other that has the same k-mer id, and counts each pair in a cell of a
    2-D histogram over the rotated coordinates `x = ordinal0 + ordinal1` and
    `y = ordinal0 - ordinal1`, with cells 100 wide in x and 20 high in y.

    The marker lists are inputs (their retrieval is outside the model); as
    the retrieval guarantees, each is sorted by k-mer id and the ordinals of
    a read with `n` markers are below `n`. */
module AlignmentMatrix {
  import opened Sequences

  /** A marker of an oriented read: its k-mer id and its position in the read. */
  datatype MarkerWithOrdinal = MarkerWithOrdinal(kmerId: nat, ordinal: nat)

  predicate SortedByKmerId(m: seq<MarkerWithOrdinal>) {
    forall i, j :: 0 <= i <= j < |m| ==> m[i].kmerId <= m[j].kmerId
  }

  predicate OrdinalsBelow(m: seq<MarkerWithOrdinal>, n: nat) {
    forall i :: 0 <= i < |m| ==> m[i].ordinal < n
  }

  /** The cell width in x and the cell height in y. */
  const Dx: nat := 100
  const Dy: nat := 20

  /** 64-bit signed division, which truncates toward zero. */
  function TruncDiv(a: int, b: nat): (q: int)
    requires b > 0
    ensures 0 <= a ==> q == a / b
    ensures -(b as int) < a < 0 ==> q == 0
  {
    if a >= 0 then a / b else -((-a) / b)
  }

  /** The number of histogram columns: `x` runs over `[0, n0 + n1 - 2]`. */
  function NxCells(n0: nat, n1: nat): (c: nat)
    ensures c >= 1
  {
    var xMin, xMax := 0, n0 + n1 - 2;
    var nx := xMax - xMin + 1;
    TruncDiv(nx - 1, Dx) + 1
  }

  /** The number of histogram rows: `y` runs over `[-n1, n0 - 1]`. */
  function NyCells(n0: nat, n1: nat): (c: nat)
    ensures c >= 1
  {
    var yMin, yMax := -(n1 as int), n0 - 1;
    var ny := yMax - yMin + 1;
    TruncDiv(ny - 1, Dy) + 1
  }

  /** The column of the pair of ordinals `(ordinal0, ordinal1)`: the one
      whose x-range `[Dx * c, Dx * (c + 1))` holds `x = ordinal0 + ordinal1`. */
  function CellX(ordinal0: nat, ordinal1: nat): (c: int)
    ensures 0 <= c && Dx * c <= ordinal0 + ordinal1 < Dx * (c + 1)
  {
    var xMin, x := 0, ordinal0 + ordinal1;
    TruncDiv(x - xMin, Dx)
  }

  /** The row of the pair of ordinals `(ordinal0, ordinal1)`; `n1` is the
      marker count of the second read. When `y = ordinal0 - ordinal1` is at
      least `yMin = -n1`, it is the row whose range
      `[yMin + Dy * c, yMin + Dy * (c + 1))` holds `y`. */
  function CellY(ordinal0: nat, ordinal1: nat, n1: nat): (c: int)
    ensures ordinal1 <= ordinal0 + n1 ==>
      0 <= c && Dy * c <= ordinal0 - ordinal1 + n1 < Dy * (c + 1)
  {
    var yMin, y := -(n1 as int), ordinal0 - ordinal1;
    TruncDiv(y - yMin, Dy)
  }

  lemma DivMonotone(a: nat, b: nat, d: nat)
    requires a <= b && d > 0
    ensures a / d <= b / d
  {
    var qa, qb := a / d, b / d;
    if qa > qb {
      MultiplyMonotone(d, qb + 1, qa);
    }
  }

  lemma MultiplyMonotone(d: nat, x: nat, y: nat)
    requires x <= y
    ensures d * x <= d * y
  {
  }

  /** The four checks of the histogram loop: every pair of ordinals of the
      two reads falls in a cell of the histogram. */
  lemma CellInRange(ordinal0: nat, ordinal1: nat, n0: nat, n1: nat)
    requires ordinal0 < n0 && ordinal1 < n1
    ensures 0 <= CellX(ordinal0, ordinal1) < NxCells(n0, n1)
    ensures 0 <= CellY(ordinal0, ordinal1, n1) < NyCells(n0, n1)
  {
    DivMonotone(ordinal0 + ordinal1, n0 + n1 - 2, Dx);
    DivMonotone(ordinal0 - ordinal1 + n1, n0 + n1 - 1, Dy);
  }

  /** Which pairs a count is about: all pairs, or those binned to one cell. */
  datatype CellFilter = AnyCell | CellAt(ix: int, iy: int)

  /** Marker `a` of the first read and marker `b` of the second share their
      k-mer id, and their ordinals fall in the cell `f` selects. */
  predicate Counted(a: MarkerWithOrdinal, b: MarkerWithOrdinal, n1: nat, f: CellFilter) {
    a.kmerId == b.kmerId &&
    (f.CellAt? ==> CellX(a.ordinal, b.ordinal) == f.ix && CellY(a.ordinal, b.ordinal, n1) == f.iy)
  }

  /** The pairs `(i, j)`, `j` in `[b0, b1)`, counted by `f`. */
  function RowCount(m0: seq<MarkerWithOrdinal>, m1: seq<MarkerWithOrdinal>, f: CellFilter,
                    i: nat, b0: nat, b1: nat): nat
    requires i < |m0| && b0 <= b1 <= |m1|
    decreases b1
  {
    if b1 == b0 then 0
    else RowCount(m0, m1, f, i, b0, b1 - 1) + if Counted(m0[i], m1[b1 - 1], |m1|, f) then 1 else 0
  }

  /** The pairs `(i, j)`, `i` in `[a0, a1)` and `j` in `[b0, b1)`, counted by `f`. */
  function BlockCount(m0: seq<MarkerWithOrdinal>, m1: seq<MarkerWithOrdinal>, f: CellFilter,
                      a0: nat, a1: nat, b0: nat, b1: nat): nat
    requires a0 <= a1 <= |m0| && b0 <= b1 <= |m1|
    decreases a1
  {
    if a1 == a0 then 0
    else BlockCount(m0, m1, f, a0, a1 - 1, b0, b1) + RowCount(m0, m1, f, a1 - 1, b0, b1)
  }

  /** The number of pairs of markers, one of each read, with the same k-mer id. */
  function SharedMarkerPairs(m0: seq<MarkerWithOrdinal>, m1: seq<MarkerWithOrdinal>): nat {
    BlockCount(m0, m1, AnyCell, 0, |m0|, 0, |m1|)
  }

  /** The number of those pairs binned to cell `(ix, iy)`. */
  function SharedMarkerPairsInCell(m0: seq<MarkerWithOrdinal>, m1: seq<MarkerWithOrdinal>, ix: int, iy: int): nat {
    BlockCount(m0, m1, CellAt(ix, iy), 0, |m0|, 0, |m1|)
  }

  // ---------------------------------------------------------------------------
  // Splitting and vanishing blocks

  lemma {:induction false} RowSplit(m0: seq<MarkerWithOrdinal>, m1: seq<MarkerWithOrdinal>, f: CellFilter,
                                    i: nat, b0: nat, b1: nat, b2: nat)
    requires i < |m0| && b0 <= b1 <= b2 <= |m1|
    ensures RowCount(m0, m1, f, i, b0, b2) == RowCount(m0, m1, f, i, b0, b1) + RowCount(m0, m1, f, i, b1, b2)
    decreases b2
  {
    if b2 > b1 {
      RowSplit(m0, m1, f, i, b0, b1, b2 - 1);
    }
  }

  /** A block splits between two columns. */
  lemma {:induction false} ColumnSplit(m0: seq<MarkerWithOrdinal>, m1: seq<MarkerWithOrdinal>, f: CellFilter,
                                       a0: nat, a1: nat, b0: nat, b1: nat, b2: nat)
    requires a0 <= a1 <= |m0| && b0 <= b1 <= b2 <= |m1|
    ensures BlockCount(m0, m1, f, a0, a1, b0, b2) == BlockCount(m0, m1, f, a0, a1, b0, b1) + BlockCount(m0, m1, f, a0, a1, b1, b2)
    decreases a1
  {
    if a1 > a0 {
      ColumnSplit(m0, m1, f, a0, a1 - 1, b0, b1, b2);
      RowSplit(m0, m1, f, a1 - 1, b0, b1, b2);
    }
  }

  /** A block splits between two rows. */
  lemma {:induction false} RowsSplit(m0: seq<MarkerWithOrdinal>, m1: seq<MarkerWithOrdinal>, f: CellFilter,
                                     a0: nat, a1: nat, a2: nat, b0: nat, b1: nat)
    requires a0 <= a1 <= a2 <= |m0| && b0 <= b1 <= |m1|
    ensures BlockCount(m0, m1, f, a0, a2, b0, b1) == BlockCount(m0, m1, f, a0, a1, b0, b1) + BlockCount(m0, m1, f, a1, a2, b0, b1)
    decreases a2
  {
    if a2 > a1 {
      RowsSplit(m0, m1, f, a0, a1, a2 - 1, b0, b1);
    }
  }

  /** A row whose k-mer id lies strictly above the k-mer ids of `[b0, b1)` counts nothing. */
  lemma {:induction false} RowAboveIsEmpty(m0: seq<MarkerWithOrdinal>, m1: seq<MarkerWithOrdinal>, f: CellFilter,
                                           i: nat, b0: nat, b1: nat)
    requires i < |m0| && b0 <= b1 <= |m1|
    requires forall j :: b0 <= j < b1 ==> m1[j].kmerId < m0[i].kmerId
    ensures RowCount(m0, m1, f, i, b0, b1) == 0
    decreases b1
  {
    if b1 > b0 {
      RowAboveIsEmpty(m0, m1, f, i, b0, b1 - 1);
    }
  }

  /** A row whose k-mer id lies strictly below the k-mer ids of `[b0, b1)` counts nothing. */
  lemma {:induction false} RowBelowIsEmpty(m0: seq<MarkerWithOrdinal>, m1: seq<MarkerWithOrdinal>, f: CellFilter,
                                           i: nat, b0: nat, b1: nat)
    requires i < |m0| && b0 <= b1 <= |m1|
    requires forall j :: b0 <= j < b1 ==> m0[i].kmerId < m1[j].kmerId
    ensures RowCount(m0, m1, f, i, b0, b1) == 0
    decreases b1
  {
    if b1 > b0 {
      RowBelowIsEmpty(m0, m1, f, i, b0, b1 - 1);
    }
  }

  /** When every k-mer id of rows `[a0, a1)` is below every k-mer id of
      columns `[b0, b1)`, the block counts nothing. */
  lemma {:induction false} BlockBelowIsEmpty(m0: seq<MarkerWithOrdinal>, m1: seq<MarkerWithOrdinal>, f: CellFilter,
                                             a0: nat, a1: nat, b0: nat, b1: nat)
    requires a0 <= a1 <= |m0| && b0 <= b1 <= |m1|
    requires forall i, j :: a0 <= i < a1 && b0 <= j < b1 ==> m0[i].kmerId < m1[j].kmerId
    ensures BlockCount(m0, m1, f, a0, a1, b0, b1) == 0
    decreases a1
  {
    if a1 > a0 {
      BlockBelowIsEmpty(m0, m1, f, a0, a1 - 1, b0, b1);
      RowBelowIsEmpty(m0, m1, f, a1 - 1, b0, b1);
    }
  }

  /** The same with the rows above the columns. */
  lemma {:induction false} BlockAboveIsEmpty(m0: seq<MarkerWithOrdinal>, m1: seq<MarkerWithOrdinal>, f: CellFilter,
                                             a0: nat, a1: nat, b0: nat, b1: nat)
    requires a0 <= a1 <= |m0| && b0 <= b1 <= |m1|
    requires forall i, j :: a0 <= i < a1 && b0 <= j < b1 ==> m1[j].kmerId < m0[i].kmerId
    ensures BlockCount(m0, m1, f, a0, a1, b0, b1) == 0
    decreases a1
  {
    if a1 > a0 {
      BlockAboveIsEmpty(m0, m1, f, a0, a1 - 1, b0, b1);
      RowAboveIsEmpty(m0, m1, f, a1 - 1, b0, b1);
    }
  }

  // ---------------------------------------------------------------------------
  // The merge-join

  /** The merge state `(it0, it1)`: every marker of the first read before
      `it0` has a k-mer id below that of marker `it1` of the second read, and
      the other way round. */
  predicate MergeFrontier(m0: seq<MarkerWithOrdinal>, m1: seq<MarkerWithOrdinal>, it0: nat, it1: nat) {
    it0 <= |m0| && it1 <= |m1| &&
    (it0 > 0 && it1 < |m1| ==> m0[it0 - 1].kmerId < m1[it1].kmerId) &&
    (it1 > 0 && it0 < |m0| ==> m1[it1 - 1].kmerId < m0[it0].kmerId)
  }

  /** Skipping marker `it0` of the first read, whose k-mer id is below that
      of marker `it1` of the second, skips no shared pair. */
  lemma AdvanceFirst(m0: seq<MarkerWithOrdinal>, m1: seq<MarkerWithOrdinal>, it0: nat, it1: nat)
    requires SortedByKmerId(m0) && SortedByKmerId(m1)
    requires MergeFrontier(m0, m1, it0, it1) && it0 < |m0| && it1 < |m1| && m0[it0].kmerId < m1[it1].kmerId
    ensures MergeFrontier(m0, m1, it0 + 1, it1)
    ensures forall f :: BlockCount(m0, m1, f, 0, it0 + 1, 0, it1) == BlockCount(m0, m1, f, 0, it0, 0, it1)
  {
    forall f ensures BlockCount(m0, m1, f, 0, it0 + 1, 0, it1) == BlockCount(m0, m1, f, 0, it0, 0, it1) {
      RowAboveIsEmpty(m0, m1, f, it0, 0, it1);
    }
  }

  /** Skipping marker `it1` of the second read, whose k-mer id is below that
      of marker `it0` of the first, skips no shared pair. */
  lemma AdvanceSecond(m0: seq<MarkerWithOrdinal>, m1: seq<MarkerWithOrdinal>, it0: nat, it1: nat)
    requires SortedByKmerId(m0) && SortedByKmerId(m1)
    requires MergeFrontier(m0, m1, it0, it1) && it0 < |m0| && it1 < |m1| && m1[it1].kmerId < m0[it0].kmerId
    ensures MergeFrontier(m0, m1, it0, it1 + 1)
    ensures forall f :: BlockCount(m0, m1, f, 0, it0, 0, it1 + 1) == BlockCount(m0, m1, f, 0, it0, 0, it1)
  {
    forall f ensures BlockCount(m0, m1, f, 0, it0, 0, it1 + 1) == BlockCount(m0, m1, f, 0, it0, 0, it1) {
      ColumnSplit(m0, m1, f, 0, it0, 0, it1, it1 + 1);
      BlockBelowIsEmpty(m0, m1, f, 0, it0, it1, it1 + 1);
    }
  }

  /** `[begin, end)` is the streak of k-mer id `kmerId` that starts at `begin`. */
  predicate IsStreak(m: seq<MarkerWithOrdinal>, kmerId: nat, begin: nat, end: nat) {
    begin <= end <= |m| &&
    (forall i :: begin <= i < end ==> m[i].kmerId == kmerId) &&
    (end < |m| ==> m[end].kmerId != kmerId)
  }

  /** Passing two streaks of the same k-mer id adds the pairs of the streaks
      and nothing else. */
  lemma PassStreaks(m0: seq<MarkerWithOrdinal>, m1: seq<MarkerWithOrdinal>,
                    it0: nat, it1: nat, end0: nat, end1: nat)
    requires SortedByKmerId(m0) && SortedByKmerId(m1)
    requires MergeFrontier(m0, m1, it0, it1) && it0 < |m0| && it1 < |m1| && m0[it0].kmerId == m1[it1].kmerId
    requires IsStreak(m0, m0[it0].kmerId, it0, end0) && IsStreak(m1, m0[it0].kmerId, it1, end1)
    ensures MergeFrontier(m0, m1, end0, end1)
    ensures forall f ::
      BlockCount(m0, m1, f, 0, end0, 0, end1) == BlockCount(m0, m1, f, 0, it0, 0, it1) + BlockCount(m0, m1, f, it0, end0, it1, end1)
  {
    var k := m0[it0].kmerId;
    assert end0 > 0 && end0 < |m0| ==> m0[end0 - 1].kmerId <= k < m0[end0].kmerId;
    assert end1 > 0 && end1 < |m1| ==> m1[end1 - 1].kmerId <= k < m1[end1].kmerId;
    forall f ensures BlockCount(m0, m1, f, 0, end0, 0, end1)
         == BlockCount(m0, m1, f, 0, it0, 0, it1) + BlockCount(m0, m1, f, it0, end0, it1, end1)
    {
      RowsSplit(m0, m1, f, 0, it0, end0, 0, end1);
      ColumnSplit(m0, m1, f, 0, it0, 0, it1, end1);
      ColumnSplit(m0, m1, f, it0, end0, 0, it1, end1);
      BlockBelowIsEmpty(m0, m1, f, 0, it0, it1, end1);
      BlockAboveIsEmpty(m0, m1, f, it0, end0, 0, it1);
    }
  }

  /** When one read is exhausted, the pairs met so far are all the shared pairs. */
  lemma MergeDone(m0: seq<MarkerWithOrdinal>, m1: seq<MarkerWithOrdinal>, it0: nat, it1: nat)
    requires SortedByKmerId(m0) && SortedByKmerId(m1)
    requires MergeFrontier(m0, m1, it0, it1) && (it0 == |m0| || it1 == |m1|)
    ensures forall f :: BlockCount(m0, m1, f, 0, |m0|, 0, |m1|) == BlockCount(m0, m1, f, 0, it0, 0, it1)
  {
    forall f ensures BlockCount(m0, m1, f, 0, |m0|, 0, |m1|) == BlockCount(m0, m1, f, 0, it0, 0, it1) {
      MergeDoneFor(m0, m1, f, it0, it1);
    }
  }

  lemma MergeDoneFor(m0: seq<MarkerWithOrdinal>, m1: seq<MarkerWithOrdinal>, f: CellFilter, it0: nat, it1: nat)
    requires SortedByKmerId(m0) && SortedByKmerId(m1)
    requires MergeFrontier(m0, m1, it0, it1) && (it0 == |m0| || it1 == |m1|)
    ensures BlockCount(m0, m1, f, 0, |m0|, 0, |m1|) == BlockCount(m0, m1, f, 0, it0, 0, it1)
  {
    RowsSplit(m0, m1, f, 0, it0, |m0|, 0, |m1|);
    ColumnSplit(m0, m1, f, 0, it0, 0, it1, |m1|);
    ColumnSplit(m0, m1, f, it0, |m0|, 0, it1, |m1|);
    if it0 == |m0| {
      if it0 > 0 && it1 < |m1| {
        BlockBelowIsEmpty(m0, m1, f, 0, it0, it1, |m1|);
      }
    } else {
      if it1 > 0 {
        BlockAboveIsEmpty(m0, m1, f, it0, |m0|, 0, it1);
      }
    }
  }

  /** In a block of two streaks of one k-mer id every pair is shared, so
      the pairs of one row of it are the ones its cells receive. */
  lemma StreakRowStep(m0: seq<MarkerWithOrdinal>, m1: seq<MarkerWithOrdinal>, f: CellFilter, i: nat, b0: nat, j: nat)
    requires i < |m0| && b0 <= j < |m1| && m0[i].kmerId == m1[j].kmerId
    ensures RowCount(m0, m1, f, i, b0, j + 1) == RowCount(m0, m1, f, i, b0, j) +
      if f.AnyCell? || (f.ix == CellX(m0[i].ordinal, m1[j].ordinal) && f.iy == CellY(m0[i].ordinal, m1[j].ordinal, |m1|)) then 1 else 0
  {
  }

  // ---------------------------------------------------------------------------
  // The histogram

  /** The histogram as a sequence of columns. */
  ghost function Snapshot(h: array2<nat>): seq<seq<nat>>
    reads h
  {
    seq(h.Length0, x requires 0 <= x < h.Length0 reads h =>
      seq(h.Length1, y requires 0 <= y < h.Length1 reads h => h[x, y]))
  }

  /** The total of all cells. */
  function GridSum(s: seq<seq<nat>>): nat
    decreases |s|
  {
    if |s| == 0 then 0 else GridSum(s[..|s| - 1]) + Sum(s[|s| - 1])
  }

  lemma {:induction false} GridSumIncrement(s: seq<seq<nat>>, x: nat, y: nat)
    requires x < |s| && y < |s[x]|
    ensures GridSum(s[x := s[x][y := s[x][y] + 1]]) == GridSum(s) + 1
    decreases |s|
  {
    var n := |s|;
    var t := s[x := s[x][y := s[x][y] + 1]];
    assert t[..n - 1] == if x < n - 1 then s[..n - 1][x := s[x][y := s[x][y] + 1]] else s[..n - 1];
    if x < n - 1 {
      GridSumIncrement(s[..n - 1], x, y);
    } else {
      SumIncrement(s[x], y);
    }
  }

  lemma {:induction false} GridSumOfZeros(s: seq<seq<nat>>)
    requires forall x, y :: 0 <= x < |s| && 0 <= y < |s[x]| ==> s[x][y] == 0
    ensures GridSum(s) == 0
    decreases |s|
  {
    if |s| > 0 {
      GridSumOfZeros(s[..|s| - 1]);
      var last := s[|s| - 1];
      assert last == seq(|last|, _ => 0);
      SumOfZeros(|last|);
    }
  }

  /** Grid `s` with one more in cell `(x, y)`. */
  function Bump(s: seq<seq<nat>>, x: nat, y: nat): seq<seq<nat>>
    requires x < |s| && y < |s[x]|
  {
    s[x := s[x][y := s[x][y] + 1]]
  }

  /** An `nx` by `ny` grid of zeros. */
  function Zeros(nx: nat, ny: nat): seq<seq<nat>> {
    seq(nx, _ => seq(ny, _ => 0))
  }

  /** Grid `g` with every cell `(x, y)` raised by the pairs of the block
      `[a0, a1) x [b0, b1)` that are binned to it. */
  function AddBlock(g: seq<seq<nat>>, m0: seq<MarkerWithOrdinal>, m1: seq<MarkerWithOrdinal>,
                    a0: nat, a1: nat, b0: nat, b1: nat): (r: seq<seq<nat>>)
    requires a0 <= a1 <= |m0| && b0 <= b1 <= |m1|
    ensures |r| == |g| && forall x :: 0 <= x < |g| ==> |r[x]| == |g[x]|
  {
    seq(|g|, x requires 0 <= x < |g| =>
      seq(|g[x]|, y requires 0 <= y < |g[x]| => g[x][y] + BlockCount(m0, m1, CellAt(x, y), a0, a1, b0, b1)))
  }

  /** A block without rows or without columns adds nothing. */
  lemma AddEmptyBlock(g: seq<seq<nat>>, m0: seq<MarkerWithOrdinal>, m1: seq<MarkerWithOrdinal>, a0: nat, a1: nat, b0: nat, b1: nat)
    requires a0 <= a1 <= |m0| && b0 <= b1 <= |m1| && (a0 == a1 || b0 == b1)
    ensures AddBlock(g, m0, m1, a0, a1, b0, b1) == g
  {
    var r := AddBlock(g, m0, m1, a0, a1, b0, b1);
    forall x | 0 <= x < |g| ensures r[x] == g[x] {
      forall y | 0 <= y < |g[x]| ensures r[x][y] == g[x][y] {
        BlockBelowIsEmpty(m0, m1, CellAt(x, y), a0, a1, b0, b1);
      }
    }
  }

  /** A block grows by one row at a time. */
  lemma AddNextRow(g: seq<seq<nat>>, m0: seq<MarkerWithOrdinal>, m1: seq<MarkerWithOrdinal>, a0: nat, i: nat, b0: nat, b1: nat)
    requires a0 <= i < |m0| && b0 <= b1 <= |m1|
    ensures AddBlock(AddBlock(g, m0, m1, a0, i, b0, b1), m0, m1, i, i + 1, b0, b1) == AddBlock(g, m0, m1, a0, i + 1, b0, b1)
  {
    var after := AddBlock(AddBlock(g, m0, m1, a0, i, b0, b1), m0, m1, i, i + 1, b0, b1);
    var whole := AddBlock(g, m0, m1, a0, i + 1, b0, b1);
    forall x | 0 <= x < |g| ensures after[x] == whole[x] {
      forall y | 0 <= y < |g[x]| ensures after[x][y] == whole[x][y] {
        var f := CellAt(x, y);
        assert BlockCount(m0, m1, f, i, i + 1, b0, b1) == RowCount(m0, m1, f, i, b0, b1);
      }
    }
  }

  /** A pair `(i, j)` whose k-mer ids differ adds nothing. */
  lemma AddUnsharedPair(g: seq<seq<nat>>, m0: seq<MarkerWithOrdinal>, m1: seq<MarkerWithOrdinal>, i: nat, b0: nat, j: nat)
    requires i < |m0| && b0 <= j < |m1| && m0[i].kmerId != m1[j].kmerId
    ensures AddBlock(g, m0, m1, i, i + 1, b0, j + 1) == AddBlock(g, m0, m1, i, i + 1, b0, j)
  {
    var after := AddBlock(g, m0, m1, i, i + 1, b0, j + 1);
    var before := AddBlock(g, m0, m1, i, i + 1, b0, j);
    forall x | 0 <= x < |g| ensures after[x] == before[x] {
      forall y | 0 <= y < |g[x]| ensures after[x][y] == before[x][y] {
        var f := CellAt(x, y);
        assert BlockCount(m0, m1, f, i, i + 1, b0, j + 1) == RowCount(m0, m1, f, i, b0, j + 1);
        assert BlockCount(m0, m1, f, i, i + 1, b0, j) == RowCount(m0, m1, f, i, b0, j);
      }
    }
  }

  /** A pair `(i, j)` with a shared k-mer id is one more in its own cell. */
  lemma AddSharedPair(g: seq<seq<nat>>, m0: seq<MarkerWithOrdinal>, m1: seq<MarkerWithOrdinal>, i: nat, b0: nat, j: nat, ix: nat, iy: nat)
    requires i < |m0| && b0 <= j < |m1| && m0[i].kmerId == m1[j].kmerId
    requires ix == CellX(m0[i].ordinal, m1[j].ordinal) && iy == CellY(m0[i].ordinal, m1[j].ordinal, |m1|)
    requires ix < |g| && iy < |g[ix]|
    ensures AddBlock(g, m0, m1, i, i + 1, b0, j + 1) == Bump(AddBlock(g, m0, m1, i, i + 1, b0, j), ix, iy)
  {
    var after := AddBlock(g, m0, m1, i, i + 1, b0, j + 1);
    var bumped := Bump(AddBlock(g, m0, m1, i, i + 1, b0, j), ix, iy);
    forall x | 0 <= x < |g| ensures after[x] == bumped[x] {
      forall y | 0 <= y < |g[x]| ensures after[x][y] == bumped[x][y] {
        var f := CellAt(x, y);
        assert BlockCount(m0, m1, f, i, i + 1, b0, j + 1) == RowCount(m0, m1, f, i, b0, j + 1);
        assert BlockCount(m0, m1, f, i, i + 1, b0, j) == RowCount(m0, m1, f, i, b0, j);
        StreakRowStep(m0, m1, f, i, b0, j);
      }
    }
  }

  /** Grids of the histogram's shape. */
  predicate HistogramShape(g: seq<seq<nat>>, n0: nat, n1: nat) {
    |g| == NxCells(n0, n1) && forall x :: 0 <= x < |g| ==> |g[x]| == NyCells(n0, n1)
  }

  /** Binning the pairs `(i, j)`, `j` in `[b0, b1)`, raises the total by
      the number of shared pairs among them: each lands in exactly one
      cell of the grid. */
  lemma {:induction false} AddRowTotal(g: seq<seq<nat>>, m0: seq<MarkerWithOrdinal>, m1: seq<MarkerWithOrdinal>, i: nat, b0: nat, b1: nat)
    requires i < |m0| && b0 <= b1 <= |m1|
    requires OrdinalsBelow(m0, |m0|) && OrdinalsBelow(m1, |m1|) && HistogramShape(g, |m0|, |m1|)
    ensures GridSum(AddBlock(g, m0, m1, i, i + 1, b0, b1)) == GridSum(g) + RowCount(m0, m1, AnyCell, i, b0, b1)
    decreases b1
  {
    if b1 == b0 {
      AddEmptyBlock(g, m0, m1, i, i + 1, b0, b0);
    } else {
      var j := b1 - 1;
      AddRowTotal(g, m0, m1, i, b0, j);
      AddPairTotal(g, m0, m1, i, b0, j);
    }
  }

  /** Binning one more pair `(i, j)` raises the total by one exactly when
      the pair is shared. */
  lemma AddPairTotal(g: seq<seq<nat>>, m0: seq<MarkerWithOrdinal>, m1: seq<MarkerWithOrdinal>, i: nat, b0: nat, j: nat)
    requires i < |m0| && b0 <= j < |m1|
    requires OrdinalsBelow(m0, |m0|) && OrdinalsBelow(m1, |m1|) && HistogramShape(g, |m0|, |m1|)
    ensures GridSum(AddBlock(g, m0, m1, i, i + 1, b0, j + 1)) ==
      GridSum(AddBlock(g, m0, m1, i, i + 1, b0, j)) + if m0[i].kmerId == m1[j].kmerId then 1 else 0
  {
    if m0[i].kmerId == m1[j].kmerId {
      var ordinal0, ordinal1 := m0[i].ordinal, m1[j].ordinal;
      CellInRange(ordinal0, ordinal1, |m0|, |m1|);
      var ix: nat, iy: nat := CellX(ordinal0, ordinal1), CellY(ordinal0, ordinal1, |m1|);
      AddSharedPair(g, m0, m1, i, b0, j, ix, iy);
      GridSumIncrement(AddBlock(g, m0, m1, i, i + 1, b0, j), ix, iy);
    } else {
      AddUnsharedPair(g, m0, m1, i, b0, j);
    }
  }

  /** Binning the pairs of a block raises the total by the number of
      shared pairs in the block. */
  lemma {:induction false} AddBlockTotal(g: seq<seq<nat>>, m0: seq<MarkerWithOrdinal>, m1: seq<MarkerWithOrdinal>,
                                         a0: nat, a1: nat, b0: nat, b1: nat)
    requires a0 <= a1 <= |m0| && b0 <= b1 <= |m1|
    requires OrdinalsBelow(m0, |m0|) && OrdinalsBelow(m1, |m1|) && HistogramShape(g, |m0|, |m1|)
    ensures GridSum(AddBlock(g, m0, m1, a0, a1, b0, b1)) == GridSum(g) + BlockCount(m0, m1, AnyCell, a0, a1, b0, b1)
    decreases a1
  {
    if a1 == a0 {
      AddEmptyBlock(g, m0, m1, a0, a1, b0, b1);
    } else {
      var i := a1 - 1;
      AddBlockTotal(g, m0, m1, a0, i, b0, b1);
      AddNextRowTotal(g, m0, m1, a0, i, b0, b1);
    }
  }

  /** Binning one more row of a block raises the total by the shared pairs of that row. */
  lemma AddNextRowTotal(g: seq<seq<nat>>, m0: seq<MarkerWithOrdinal>, m1: seq<MarkerWithOrdinal>,
                        a0: nat, i: nat, b0: nat, b1: nat)
    requires a0 <= i < |m0| && b0 <= b1 <= |m1|
    requires OrdinalsBelow(m0, |m0|) && OrdinalsBelow(m1, |m1|) && HistogramShape(g, |m0|, |m1|)
    ensures GridSum(AddBlock(g, m0, m1, a0, i + 1, b0, b1)) ==
      GridSum(AddBlock(g, m0, m1, a0, i, b0, b1)) + RowCount(m0, m1, AnyCell, i, b0, b1)
  {
    var before := AddBlock(g, m0, m1, a0, i, b0, b1);
    AddRowTotal(before, m0, m1, i, b0, b1);
    AddNextRow(g, m0, m1, a0, i, b0, b1);
  }

  /** A histogram-shaped grid whose every cell holds the shared pairs
      binned to it sums to all the shared pairs: no pair falls outside the grid. */
  lemma CellsHoldAllPairs(s: seq<seq<nat>>, m0: seq<MarkerWithOrdinal>, m1: seq<MarkerWithOrdinal>)
    requires OrdinalsBelow(m0, |m0|) && OrdinalsBelow(m1, |m1|) && HistogramShape(s, |m0|, |m1|)
    requires forall x, y :: 0 <= x < |s| && 0 <= y < |s[x]| ==> s[x][y] == SharedMarkerPairsInCell(m0, m1, x, y)
    ensures GridSum(s) == SharedMarkerPairs(m0, m1)
  {
    var zeros := Zeros(|s|, NyCells(|m0|, |m1|));
    var r := AddBlock(zeros, m0, m1, 0, |m0|, 0, |m1|);
    forall x | 0 <= x < |s| ensures s[x] == r[x] {
      forall y | 0 <= y < |s[x]| ensures s[x][y] == r[x][y] {
      }
    }
    assert s == r;
    GridSumOfZeros(zeros);
    AddBlockTotal(zeros, m0, m1, 0, |m0|, 0, |m1|);
  }

  /** `++histogram[ix][iy]`: that cell goes up by one and no other changes. */
  method AddToCell(histogram: array2<nat>, ix: nat, iy: nat)
    requires ix < histogram.Length0 && iy < histogram.Length1
    modifies histogram
    ensures forall x, y {:trigger histogram[x, y]} :: 0 <= x < histogram.Length0 && 0 <= y < histogram.Length1 ==>
      histogram[x, y] == old(histogram[x, y]) + if x == ix && y == iy then 1 else 0
  {
    histogram[ix, iy] := histogram[ix, iy] + 1;
  }

  /** Each cell of the histogram holds the pairs of the block
      `[a0, a1) x [b0, b1)` that are binned to it. */
  ghost predicate HoldsBlock(histogram: array2<nat>, m0: seq<MarkerWithOrdinal>, m1: seq<MarkerWithOrdinal>,
                             a0: nat, a1: nat, b0: nat, b1: nat)
    requires a0 <= a1 <= |m0| && b0 <= b1 <= |m1|
    reads histogram
  {
    (forall x, y {:trigger histogram[x, y]} :: 0 <= x < histogram.Length0 && 0 <= y < histogram.Length1 ==>
       histogram[x, y] == BlockCount(m0, m1, CellAt(x, y), a0, a1, b0, b1))
  }

  /** The inner pair loop for marker `i` of the first read against the streak
      `[b0, b1)` of the second: every pair lands in its cell. */
  method AddRow(histogram: array2<nat>, m0: seq<MarkerWithOrdinal>, m1: seq<MarkerWithOrdinal>, i: nat, b0: nat, b1: nat)
    requires i < |m0| && b0 <= b1 <= |m1|
    requires forall j :: b0 <= j < b1 ==> m1[j].kmerId == m0[i].kmerId
    requires OrdinalsBelow(m0, |m0|) && OrdinalsBelow(m1, |m1|)
    requires histogram.Length0 == NxCells(|m0|, |m1|) && histogram.Length1 == NyCells(|m0|, |m1|)
    modifies histogram
    ensures forall x, y {:trigger histogram[x, y]} :: 0 <= x < histogram.Length0 && 0 <= y < histogram.Length1 ==>
      histogram[x, y] == old(histogram[x, y]) + RowCount(m0, m1, CellAt(x, y), i, b0, b1)
  {
    assert forall f :: RowCount(m0, m1, f, i, b0, b0) == 0;
    var n1 := |m1|;
    var ordinal0 := m0[i].ordinal;
    for j := b0 to b1
      invariant forall x, y {:trigger histogram[x, y]} :: 0 <= x < histogram.Length0 && 0 <= y < histogram.Length1 ==>
        histogram[x, y] == old(histogram[x, y]) + RowCount(m0, m1, CellAt(x, y), i, b0, j)
    {
      var ordinal1 := m1[j].ordinal;
      var ix := CellX(ordinal0, ordinal1);
      var iy := CellY(ordinal0, ordinal1, n1);
      CellInRange(ordinal0, ordinal1, |m0|, n1);
      assert ix >= 0;
      assert iy >= 0;
      assert ix < NxCells(|m0|, n1);
      assert iy < NyCells(|m0|, n1);
      AddToCell(histogram, ix, iy);
      forall x, y | 0 <= x < histogram.Length0 && 0 <= y < histogram.Length1
        ensures RowCount(m0, m1, CellAt(x, y), i, b0, j + 1) == RowCount(m0, m1, CellAt(x, y), i, b0, j) + if x == ix && y == iy then 1 else 0
      {
        StreakRowStep(m0, m1, CellAt(x, y), i, b0, j);
      }
    }
  }

  /** The loop over the pairs of two streaks `[a0, a1)` and `[b0, b1)` of one k-mer id. */
  method AddStreaks(histogram: array2<nat>, m0: seq<MarkerWithOrdinal>, m1: seq<MarkerWithOrdinal>,
                    a0: nat, a1: nat, b0: nat, b1: nat)
    requires a0 <= a1 <= |m0| && b0 <= b1 <= |m1|
    requires forall i, j :: a0 <= i < a1 && b0 <= j < b1 ==> m0[i].kmerId == m1[j].kmerId
    requires OrdinalsBelow(m0, |m0|) && OrdinalsBelow(m1, |m1|)
    requires histogram.Length0 == NxCells(|m0|, |m1|) && histogram.Length1 == NyCells(|m0|, |m1|)
    modifies histogram
    ensures forall x, y {:trigger histogram[x, y]} :: 0 <= x < histogram.Length0 && 0 <= y < histogram.Length1 ==>
      histogram[x, y] == old(histogram[x, y]) + BlockCount(m0, m1, CellAt(x, y), a0, a1, b0, b1)
  {
    assert forall f :: BlockCount(m0, m1, f, a0, a0, b0, b1) == 0;
    for i := a0 to a1
      invariant forall x, y {:trigger histogram[x, y]} :: 0 <= x < histogram.Length0 && 0 <= y < histogram.Length1 ==>
        histogram[x, y] == old(histogram[x, y]) + BlockCount(m0, m1, CellAt(x, y), a0, i, b0, b1)
    {
      AddRow(histogram, m0, m1, i, b0, b1);
      NextRow(m0, m1, a0, i, b0, b1);
    }
  }

  /** A block grows by one row at a time. */
  lemma NextRow(m0: seq<MarkerWithOrdinal>, m1: seq<MarkerWithOrdinal>, a0: nat, i: nat, b0: nat, b1: nat)
    requires a0 <= i < |m0| && b0 <= b1 <= |m1|
    ensures forall f :: BlockCount(m0, m1, f, a0, i + 1, b0, b1) == BlockCount(m0, m1, f, a0, i, b0, b1) + RowCount(m0, m1, f, i, b0, b1)
  {
  }

  /** The end of the streak of `kmerId` that starts at `begin`. */
  method StreakEnd(m: seq<MarkerWithOrdinal>, kmerId: nat, begin: nat) returns (end: nat)
    requires begin < |m| && m[begin].kmerId == kmerId
    ensures IsStreak(m, kmerId, begin, end)
    ensures begin < end
  {
    end := begin;
    while end < |m| && m[end].kmerId == kmerId
      invariant begin <= end <= |m|
      invariant forall i :: begin <= i < end ==> m[i].kmerId == kmerId
      decreases |m| - end
    {
      end := end + 1;
    }
  }

  /** The branch of the merge-join for a k-mer id both reads have at the
      merge state `(it0, it1)`: find its streak in both reads, bin every
      pair of the two streaks, and continue after both streaks. */
  method PassCommonKmer(histogram: array2<nat>, m0: seq<MarkerWithOrdinal>, m1: seq<MarkerWithOrdinal>,
                        it0: nat, it1: nat) returns (it0End: nat, it1End: nat)
    requires SortedByKmerId(m0) && SortedByKmerId(m1)
    requires OrdinalsBelow(m0, |m0|) && OrdinalsBelow(m1, |m1|)
    requires MergeFrontier(m0, m1, it0, it1) && it0 < |m0| && it1 < |m1| && m0[it0].kmerId == m1[it1].kmerId
    requires histogram.Length0 == NxCells(|m0|, |m1|) && histogram.Length1 == NyCells(|m0|, |m1|)
    requires HoldsBlock(histogram, m0, m1, 0, it0, 0, it1)
    modifies histogram
    ensures it0 < it0End && it1 < it1End && MergeFrontier(m0, m1, it0End, it1End)
    ensures HoldsBlock(histogram, m0, m1, 0, it0End, 0, it1End)
  {
    var kmerId := m0[it0].kmerId;
    it0End := StreakEnd(m0, kmerId, it0);
    it1End := StreakEnd(m1, kmerId, it1);
    PassStreaks(m0, m1, it0, it1, it0End, it1End);
    AddStreaks(histogram, m0, m1, it0, it0End, it1, it1End);
  }

  /** `analyzeAlignmentMatrix`, histogram part: walk both marker lists in
      k-mer id order, and for every streak of a k-mer id the two reads share
      add each pair of the streaks to its cell. Each cell ends holding the
      shared pairs binned to it, and the cells together all shared pairs. */
  method AnalyzeAlignmentMatrix(markers0: seq<MarkerWithOrdinal>, markers1: seq<MarkerWithOrdinal>)
    returns (histogram: array2<nat>)
    requires SortedByKmerId(markers0) && SortedByKmerId(markers1)
    requires OrdinalsBelow(markers0, |markers0|) && OrdinalsBelow(markers1, |markers1|)
    ensures fresh(histogram)
    ensures histogram.Length0 == NxCells(|markers0|, |markers1|) && histogram.Length1 == NyCells(|markers0|, |markers1|)
    ensures forall x, y {:trigger histogram[x, y]} :: 0 <= x < histogram.Length0 && 0 <= y < histogram.Length1 ==>
      histogram[x, y] == SharedMarkerPairsInCell(markers0, markers1, x, y)
    ensures GridSum(Snapshot(histogram)) == SharedMarkerPairs(markers0, markers1)
  {
    var n0, n1 := |markers0|, |markers1|;
    var nxCells := NxCells(n0, n1);
    var nyCells := NyCells(n0, n1);
    histogram := new nat[nxCells, nyCells]((x, y) => 0);

    // Joint loop over the markers, looking for common k-mer ids.
    var it0, it1 := 0, 0;
    while it0 != n0 && it1 != n1
      invariant MergeFrontier(markers0, markers1, it0, it1)
      invariant HoldsBlock(histogram, markers0, markers1, 0, it0, 0, it1)
      decreases (n0 - it0) + (n1 - it1)
    {
      if markers0[it0].kmerId < markers1[it1].kmerId {
        AdvanceFirst(markers0, markers1, it0, it1);
        it0 := it0 + 1;
      } else if markers1[it1].kmerId < markers0[it0].kmerId {
        AdvanceSecond(markers0, markers1, it0, it1);
        it1 := it1 + 1;
      } else {
        it0, it1 := PassCommonKmer(histogram, markers0, markers1, it0, it1);
      }
    }
    MergeDone(markers0, markers1, it0, it1);
    forall x, y | 0 <= x < nxCells && 0 <= y < nyCells
      ensures Snapshot(histogram)[x][y] == SharedMarkerPairsInCell(markers0, markers1, x, y)
    {
      assert histogram[x, y] == BlockCount(markers0, markers1, CellAt(x, y), 0, it0, 0, it1);
    }
    CellsHoldAllPairs(Snapshot(histogram), markers0, markers1);
  }
}
