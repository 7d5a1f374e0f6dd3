/** The alignment table (`computeAlignmentTable`): for every oriented read,
    the indices of the stored alignment records that involve it, sorted by
    the partner oriented read.

    The table has one bucket per oriented read, `2 * readCount` in all,
    indexed by the oriented read's value. It is kept as an offset array
    `toc` and a `data` array: bucket `k` is `data[toc[k]..toc[k + 1]]`.
    It is built like a counting sort: pass 1 counts the entries of every
    bucket, the offsets are the prefix sums of the counts, and pass 2
    writes every record index into its four buckets. Each bucket is then
    sorted by `(partner oriented read, record index)`. */
module AlignmentTable {
  import opened OrientedReads
  import opened AlignmentRecords
  import opened Sequences

  // ---------------------------------------------------------------------------
  // Bucket contents before the sort

  /** How many times `k` occurs in `keys`. */
  function Occurrences(keys: seq<nat>, k: nat): (c: nat)
    ensures c <= |keys|
    ensures c > 0 <==> k in keys
    decreases |keys|
  {
    if |keys| == 0 then 0
    else
      assert keys == keys[..|keys| - 1] + [keys[|keys| - 1]];
      Occurrences(keys[..|keys| - 1], k) + (if keys[|keys| - 1] == k then 1 else 0)
  }

  /** A key occurs once in a sequence of distinct keys that holds it. */
  lemma {:induction false} OccurrencesOfDistinct(keys: seq<nat>, k: nat)
    requires forall a, b :: 0 <= a < b < |keys| ==> keys[a] != keys[b]
    ensures Occurrences(keys, k) == if k in keys then 1 else 0
    decreases |keys|
  {
    if |keys| > 0 {
      var front := keys[..|keys| - 1];
      OccurrencesOfDistinct(front, k);
      assert keys == front + [keys[|keys| - 1]];
      if keys[|keys| - 1] == k {
        assert k !in front;
      }
    }
  }

  /** One store of pass 2: record index `alignmentIndex` goes into bucket `key`. */
  datatype Store = Store(key: nat, alignmentIndex: nat)

  /** The stores for record `i`, one per table key, in key order. */
  function RecordStores(keys: seq<nat>, i: nat): seq<Store> {
    seq(|keys|, j requires 0 <= j < |keys| => Store(keys[j], i))
  }

  /** Every store that pass 1 counts and pass 2 performs, in the order of
      the two passes: record by record, and the four keys of each record in
      `TableKeys` order. */
  function StoreOps(ad: seq<AlignmentData>): (ops: seq<Store>)
    ensures |ops| == 4 * |ad|
    decreases |ad|
  {
    if |ad| == 0 then []
    else StoreOps(ad[..|ad| - 1]) + RecordStores(TableKeys(ad[|ad| - 1]), |ad| - 1)
  }

  /** Store `4 * i + j` puts record `i` into the bucket of its key `j`. */
  lemma {:induction false} StoreOpsAt(ad: seq<AlignmentData>, i: nat, j: nat)
    requires i < |ad| && j < 4
    ensures StoreOps(ad)[4 * i + j] == Store(TableKeys(ad[i])[j], i)
    decreases |ad|
  {
    var n := |ad|;
    if i < n - 1 {
      StoreOpsAt(ad[..n - 1], i, j);
      assert ad[..n - 1][i] == ad[i];
    }
  }

  /** The record indices, in order, of the stores into bucket `k`. */
  function BucketOf(ops: seq<Store>, k: nat): seq<nat>
    decreases |ops|
  {
    if |ops| == 0 then []
    else BucketOf(ops[..|ops| - 1], k) + (if ops[|ops| - 1].key == k then [ops[|ops| - 1].alignmentIndex] else [])
  }

  /** The contents of bucket `k` before the sort. */
  function Bucket(ad: seq<AlignmentData>, k: nat): seq<nat> {
    BucketOf(StoreOps(ad), k)
  }

  lemma BucketOfStep(ops: seq<Store>, p: nat, k: nat)
    requires p < |ops|
    ensures BucketOf(ops[..p + 1], k) == BucketOf(ops[..p], k) + (if ops[p].key == k then [ops[p].alignmentIndex] else [])
  {
    assert ops[..p + 1][..p] == ops[..p];
  }

  lemma {:induction false} BucketOfPrefix(ops: seq<Store>, p: nat, k: nat)
    requires p <= |ops|
    ensures |BucketOf(ops[..p], k)| <= |BucketOf(ops, k)|
    decreases |ops| - p
  {
    if p < |ops| {
      BucketOfStep(ops, p, k);
      BucketOfPrefix(ops, p + 1, k);
    } else {
      assert ops[..p] == ops;
    }
  }

  lemma {:induction false} BucketOfAppend(a: seq<Store>, b: seq<Store>, k: nat)
    ensures BucketOf(a + b, k) == BucketOf(a, k) + BucketOf(b, k)
    decreases |b|
  {
    if |b| > 0 {
      var n, c := |b|, a + b;
      assert c[..|c| - 1] == a + b[..n - 1] && c[|c| - 1] == b[n - 1];
      var last := if b[n - 1].key == k then [b[n - 1].alignmentIndex] else [];
      assert BucketOf(c, k) == BucketOf(a + b[..n - 1], k) + last;
      BucketOfAppend(a, b[..n - 1], k);
      AppendAssoc(BucketOf(a, k), BucketOf(b[..n - 1], k), last);
    } else {
      assert a + b == a;
    }
  }

  /** The stores of one record add to bucket `k` one copy of the record
      index per key equal to `k`. */
  lemma {:induction false} BucketOfRecord(keys: seq<nat>, i: nat, k: nat)
    ensures BucketOf(RecordStores(keys, i), k) == seq(Occurrences(keys, k), _ => i)
    decreases |keys|
  {
    var n := |keys|;
    if n > 0 {
      assert RecordStores(keys, i)[..n - 1] == RecordStores(keys[..n - 1], i);
      BucketOfRecord(keys[..n - 1], i, k);
      var c := Occurrences(keys[..n - 1], k);
      assert seq(c + 1, _ => i) == seq(c, _ => i) + [i];
    }
  }

  /** Adding record `i` adds its copies at the end of bucket `k`. */
  lemma BucketStep(ad: seq<AlignmentData>, i: nat, k: nat)
    requires i < |ad|
    ensures Bucket(ad[..i + 1], k) == Bucket(ad[..i], k) + seq(Occurrences(TableKeys(ad[i]), k), _ => i)
  {
    assert ad[..i + 1][..i] == ad[..i];
    BucketOfAppend(StoreOps(ad[..i]), RecordStores(TableKeys(ad[i]), i), k);
    BucketOfRecord(TableKeys(ad[i]), i, k);
  }

  /** Every entry of bucket `k` is a record index whose record touches the oriented read `k`. */
  lemma {:induction false} BucketTouches(ad: seq<AlignmentData>, k: nat)
    ensures forall m :: 0 <= m < |Bucket(ad, k)| ==> Bucket(ad, k)[m] < |ad| && Touches(ad[Bucket(ad, k)[m]], k)
    decreases |ad|
  {
    if |ad| > 0 {
      var n := |ad|;
      BucketTouches(ad[..n - 1], k);
      BucketStep(ad, n - 1, k);
      assert ad[..n] == ad;
      TableKeysAreTheTouchedReads(ad[n - 1]);
      var front: seq<nat> := Bucket(ad[..n - 1], k);
      forall m | 0 <= m < |Bucket(ad, k)| ensures Bucket(ad, k)[m] < n && Touches(ad[Bucket(ad, k)[m]], k) {
        if m < |front| {
          assert Bucket(ad, k)[m] == front[m];
          assert ad[..n - 1][front[m]] == ad[front[m]];
        } else {
          assert Bucket(ad, k)[m] == n - 1;
        }
      }
    }
  }

  /** Record `i` appears in bucket `k` once for each of its table keys equal to `k`. */
  lemma {:induction false} BucketMultiplicity(ad: seq<AlignmentData>, k: nat, i: nat)
    ensures multiset(Bucket(ad, k))[i] == if i < |ad| then Occurrences(TableKeys(ad[i]), k) else 0
    decreases |ad|
  {
    if |ad| > 0 {
      var n := |ad|;
      var front: seq<nat> := Bucket(ad[..n - 1], k);
      BucketMultiplicity(ad[..n - 1], k, i);
      BucketStep(ad, n - 1, k);
      assert ad[..n] == ad;
      var copies: seq<nat> := seq(Occurrences(TableKeys(ad[n - 1]), k), _ => n - 1);
      assert multiset(Bucket(ad, k)) == multiset(front) + multiset(copies);
      CopiesMultiplicity(n - 1, |copies|, i);
      if i < n - 1 {
        assert ad[..n - 1][i] == ad[i];
        assert multiset(copies)[i] == 0;
      } else if i == n - 1 {
        assert multiset(front)[i] == 0;
      } else {
        assert multiset(front)[i] == 0 && multiset(copies)[i] == 0;
      }
    }
  }

  lemma {:induction false} CopiesMultiplicity(x: nat, c: nat, y: nat)
    ensures multiset(seq(c, _ => x))[y] == if y == x then c else 0
  {
    if c > 0 {
      CopiesMultiplicity(x, c - 1, y);
      assert seq(c, _ => x) == seq(c - 1, _ => x) + [x];
    }
  }

  /** A canonical record is stored exactly once in each of the four buckets
      of the oriented reads it touches, and in no other bucket. */
  lemma RecordStoredOncePerTouchedRead(ad: seq<AlignmentData>, k: nat, i: nat)
    requires i < |ad| && IsCanonical(ad[i])
    ensures multiset(Bucket(ad, k))[i] == if Touches(ad[i], k) then 1 else 0
  {
    BucketMultiplicity(ad, k, i);
    TableKeysAreTheTouchedReads(ad[i]);
    TableKeysAreDistinct(ad[i]);
    OccurrencesOfDistinct(TableKeys(ad[i]), k);
  }

  // ---------------------------------------------------------------------------
  // The sort of a bucket

  /** What the sort phase sorts for one bucket entry: the value of the partner
      oriented read (`getOther`), then the record index. */
  datatype Entry = Entry(partner: nat, alignmentIndex: nat)

  /** The order of `std::pair`: by partner, then by record index. */
  predicate EntryLe(a: Entry, b: Entry) {
    a.partner < b.partner || (a.partner == b.partner && a.alignmentIndex <= b.alignmentIndex)
  }

  predicate SortedEntries(s: seq<Entry>) {
    forall i, j :: 0 <= i < j < |s| ==> EntryLe(s[i], s[j])
  }

  function InsertEntry(x: Entry, s: seq<Entry>): (r: seq<Entry>)
    requires SortedEntries(s)
    ensures SortedEntries(r)
    ensures multiset(r) == multiset(s) + multiset{x} && |r| == |s| + 1
    decreases |s|
  {
    if |s| == 0 then [x]
    else if EntryLe(x, s[0]) then [x] + s
    else
      var rest := InsertEntry(x, s[1..]);
      assert s == [s[0]] + s[1..];
      assert forall j :: 0 <= j < |rest| ==> EntryLe(s[0], rest[j]) by {
        forall j | 0 <= j < |rest| ensures EntryLe(s[0], rest[j]) {
          assert rest[j] in multiset(rest);
          if rest[j] != x {
            assert rest[j] in multiset(s[1..]);
          }
        }
      }
      [s[0]] + rest
  }

  /** The sort of a bucket's entries (`std::sort`): sorted, and a permutation. */
  function SortEntries(s: seq<Entry>): (r: seq<Entry>)
    ensures SortedEntries(r)
    ensures multiset(r) == multiset(s) && |r| == |s|
    decreases |s|
  {
    if |s| == 0 then []
    else
      assert s == [s[0]] + s[1..];
      InsertEntry(s[0], SortEntries(s[1..]))
  }

  /** The record indices of a sequence of entries. */
  function Indexes(v: seq<Entry>): (r: seq<nat>)
    ensures |r| == |v| && forall m :: 0 <= m < |v| ==> r[m] == v[m].alignmentIndex
  {
    seq(|v|, m requires 0 <= m < |v| => v[m].alignmentIndex)
  }

  lemma {:induction false} IndexesOfPermutation(v: seq<Entry>, w: seq<Entry>)
    requires multiset(v) == multiset(w)
    ensures multiset(Indexes(v)) == multiset(Indexes(w))
    decreases |v|
  {
    if |v| > 0 {
      var x := v[|v| - 1];
      assert x in multiset(w);
      var m :| 0 <= m < |w| && w[m] == x;
      var v', w' := v[..|v| - 1], w[..m] + w[m + 1..];
      assert v == v' + [x];
      assert w == w[..m] + ([x] + w[m + 1..]);
      assert multiset(v') == multiset(w') by {
        assert multiset(w) == multiset(w[..m]) + multiset{x} + multiset(w[m + 1..]);
        assert multiset(w') == multiset(w[..m]) + multiset(w[m + 1..]);
        MultisetCancel(multiset(v'), multiset(w'), x);
      }
      IndexesOfPermutation(v', w');
      IndexesAppend(v', [x]);
      IndexesAppend(w[..m], [x] + w[m + 1..]);
      IndexesAppend([x], w[m + 1..]);
      IndexesAppend(w[..m], w[m + 1..]);
    }
  }

  lemma IndexesAppend(a: seq<Entry>, b: seq<Entry>)
    ensures Indexes(a + b) == Indexes(a) + Indexes(b)
  {
  }

  /** The partner, as the sort phase computes it, of the record at index `i`
      in the bucket of oriented read `q`. */
  function PartnerValue(ad: seq<AlignmentData>, q: OrientedReadId, i: nat): nat
    requires i < |ad| && Touches(ad[i], q.Value())
  {
    Other(ad[i], q).Value()
  }

  /** The pairs the sort phase builds for the entries `section` of the bucket of `q`. */
  function BucketEntries(ad: seq<AlignmentData>, q: OrientedReadId, section: seq<nat>): (v: seq<Entry>)
    requires forall m :: 0 <= m < |section| ==> section[m] < |ad| && Touches(ad[section[m]], q.Value())
    ensures |v| == |section| && Indexes(v) == section
  {
    seq(|section|, m requires 0 <= m < |section| => Entry(PartnerValue(ad, q, section[m]), section[m]))
  }

  /** The contents of bucket `k` after the sort. */
  function SortedBucket(ad: seq<AlignmentData>, k: nat): seq<nat>
  {
    BucketTouches(ad, k);
    Indexes(SortEntries(BucketEntries(ad, FromValue(k), Bucket(ad, k))))
  }

  /** After the sort, bucket `k` is a permutation of its contents before the
      sort, ordered by partner oriented read and then by record index. */
  lemma SortedBucketIsOrderedPermutation(ad: seq<AlignmentData>, k: nat)
    ensures multiset(SortedBucket(ad, k)) == multiset(Bucket(ad, k))
    ensures |SortedBucket(ad, k)| == |Bucket(ad, k)|
    ensures forall m :: 0 <= m < |SortedBucket(ad, k)| ==>
      SortedBucket(ad, k)[m] < |ad| && Touches(ad[SortedBucket(ad, k)[m]], k)
    ensures forall m, m' :: 0 <= m < m' < |SortedBucket(ad, k)| ==>
      var i, i' := SortedBucket(ad, k)[m], SortedBucket(ad, k)[m'];
      EntryLe(Entry(PartnerValue(ad, FromValue(k), i), i), Entry(PartnerValue(ad, FromValue(k), i'), i'))
  {
    var q := FromValue(k);
    BucketTouches(ad, k);
    var unsorted := BucketEntries(ad, q, Bucket(ad, k));
    var sorted := SortEntries(unsorted);
    IndexesOfPermutation(sorted, unsorted);
    assert |SortedBucket(ad, k)| == |Bucket(ad, k)| by {
      assert |multiset(SortedBucket(ad, k))| == |multiset(Bucket(ad, k))|;
    }
    forall m | 0 <= m < |sorted|
      ensures sorted[m].alignmentIndex < |ad| && Touches(ad[sorted[m].alignmentIndex], k)
      ensures sorted[m].partner == PartnerValue(ad, q, sorted[m].alignmentIndex)
    {
      assert sorted[m] in multiset(unsorted);
      var j :| 0 <= j < |unsorted| && unsorted[j] == sorted[m];
    }
  }

  /** After the sort, bucket `k` still holds every canonical record that
      touches oriented read `k` exactly once, and no other record. */
  lemma SortedBucketHoldsEachTouchingRecordOnce(ad: seq<AlignmentData>, k: nat, i: nat)
    requires i < |ad| ==> IsCanonical(ad[i])
    ensures multiset(SortedBucket(ad, k))[i] == if i < |ad| && Touches(ad[i], k) then 1 else 0
  {
    SortedBucketIsOrderedPermutation(ad, k);
    if i < |ad| {
      RecordStoredOncePerTouchedRead(ad, k, i);
    } else {
      BucketMultiplicity(ad, k, i);
    }
  }

  // ---------------------------------------------------------------------------
  // The table in memory

  /** Every key of every record names one of the buckets `0 .. bucketCount-1`. */
  predicate KeysBelow(ad: seq<AlignmentData>, bucketCount: nat) {
    forall i, j :: 0 <= i < |ad| && 0 <= j < |TableKeys(ad[i])| ==> TableKeys(ad[i])[j] < bucketCount
  }

  /** The buckets `0 .. n-1` that a sequence of stores fills. */
  function BucketsOf(ops: seq<Store>, n: nat): seq<seq<nat>> {
    seq(n, k requires 0 <= k < n => BucketOf(ops, k))
  }

  /** The buckets of the oriented reads with values `0 .. n-1`, before the sort. */
  function Buckets(ad: seq<AlignmentData>, n: nat): seq<seq<nat>> {
    BucketsOf(StoreOps(ad), n)
  }

  /** The buckets of the oriented reads with values `0 .. n-1`, after the sort. */
  function SortedBuckets(ad: seq<AlignmentData>, n: nat): seq<seq<nat>> {
    seq(n, k requires 0 <= k < n => SortedBucket(ad, k))
  }

  /** The counts of buckets `0 .. n-1` after the first `p` stores. */
  function Counts(ops: seq<Store>, p: nat, n: nat): seq<nat>
    requires p <= |ops|
  {
    seq(n, k requires 0 <= k < n => |BucketOf(ops[..p], k)|)
  }

  /** The next free position of buckets `0 .. n-1` after the first `p` stores. */
  function Cursors(offsets: seq<nat>, ops: seq<Store>, p: nat, n: nat): seq<nat>
    requires p <= |ops| && n <= |offsets|
  {
    seq(n, k requires 0 <= k < n => offsets[k] + |BucketOf(ops[..p], k)|)
  }

  /** Store `p` adds one entry to the bucket it names and leaves the others alone. */
  lemma CountsStep(ops: seq<Store>, p: nat, n: nat)
    requires p < |ops| && ops[p].key < n
    ensures forall k :: 0 <= k < n ==> |BucketOf(ops[..p + 1], k)| == |BucketOf(ops[..p], k)| + if k == ops[p].key then 1 else 0
    ensures Counts(ops, p + 1, n) == Counts(ops, p, n)[ops[p].key := Counts(ops, p, n)[ops[p].key] + 1]
  {
    forall k | 0 <= k < n ensures |BucketOf(ops[..p + 1], k)| == |BucketOf(ops[..p], k)| + if k == ops[p].key then 1 else 0 {
      BucketOfStep(ops, p, k);
    }
  }

  /** Store `p` advances the cursor of the bucket it names and no other. */
  lemma CursorsStep(offsets: seq<nat>, ops: seq<Store>, p: nat, n: nat)
    requires p < |ops| && ops[p].key < n <= |offsets|
    ensures Cursors(offsets, ops, p + 1, n) == Cursors(offsets, ops, p, n)[ops[p].key := Cursors(offsets, ops, p, n)[ops[p].key] + 1]
  {
    CountsStep(ops, p, n);
  }

  /** The data array during pass 2, after the first `p` stores: every bucket
      holds the entries stored so far, then the initial zeros up to its final size. */
  function Layout(ops: seq<Store>, p: nat, n: nat): seq<seq<nat>>
    requires p <= |ops|
  {
    assert forall k :: |BucketOf(ops[..p], k)| <= |BucketOf(ops, k)| by {
      forall k { BucketOfPrefix(ops, p, k); }
    }
    seq(n, k requires 0 <= k < n => BucketOf(ops[..p], k) + seq(|BucketOf(ops, k)| - |BucketOf(ops[..p], k)|, _ => 0))
  }

  /** The layout keeps every bucket at its final size, so the bucket offsets
      locate its parts. */
  lemma LayoutOffsets(ops: seq<Store>, p: nat, n: nat, offsets: seq<nat>)
    requires p <= |ops| && PartOffsets(BucketsOf(ops, n), offsets)
    ensures PartOffsets(Layout(ops, p, n), offsets)
  {
    forall k | 0 <= k < n ensures |Layout(ops, p, n)[k]| == |BucketsOf(ops, n)[k]| {
      BucketOfPrefix(ops, p, k);
    }
  }

  /** Before any store the data array is all zeros. */
  lemma LayoutStart(ops: seq<Store>, n: nat, offsets: seq<nat>)
    requires PartOffsets(BucketsOf(ops, n), offsets)
    ensures PartOffsets(Layout(ops, 0, n), offsets)
    ensures Concat(Layout(ops, 0, n)) == seq(offsets[n], _ => 0)
  {
    var start := Layout(ops, 0, n);
    LayoutOffsets(ops, 0, n, offsets);
    forall k, m | 0 <= k < n && 0 <= m < |start[k]| ensures start[k][m] == 0 {
      assert ops[..0] == [];
      assert BucketOf(ops[..0], k) == [];
    }
    ConcatOfConstant(start, 0);
    PrefixLength(start, offsets, n);
    assert start[..n] == start;
    assert |Concat(start)| == offsets[n];
  }

  /** After the last store the data array is the concatenation of the buckets. */
  lemma LayoutEnd(ops: seq<Store>, n: nat)
    ensures Layout(ops, |ops|, n) == BucketsOf(ops, n)
  {
    assert ops[..|ops|] == ops;
    forall k | 0 <= k < n ensures Layout(ops, |ops|, n)[k] == BucketsOf(ops, n)[k] {
      var b := BucketOf(ops, k);
      assert b + seq(0, _ => 0) == b;
    }
  }

  /** Writing into the first free slot of a bucket's zero padding. */
  lemma FillSlot(filled: seq<nat>, x: nat, room: nat)
    requires room > 0
    ensures (filled + seq(room, _ => 0))[|filled| := x] == (filled + [x]) + seq(room - 1, _ => 0)
  {
  }

  /** Store `p` changes the layout of its own bucket only, by filling its
      first free slot. */
  lemma LayoutStep(ops: seq<Store>, p: nat, n: nat)
    requires p < |ops| && ops[p].key < n
    ensures |BucketOf(ops[..p], ops[p].key)| < |Layout(ops, p, n)[ops[p].key]|
    ensures Layout(ops, p + 1, n)
      == Layout(ops, p, n)[ops[p].key := Layout(ops, p, n)[ops[p].key][|BucketOf(ops[..p], ops[p].key)| := ops[p].alignmentIndex]]
  {
    var key, x := ops[p].key, ops[p].alignmentIndex;
    var filled := BucketOf(ops[..p], key);
    BucketOfStep(ops, p, key);
    BucketOfPrefix(ops, p + 1, key);
    var room := |BucketOf(ops, key)| - |filled|;
    FillSlot(filled, x, room);
    forall k | 0 <= k < n && k != key ensures BucketOf(ops[..p + 1], k) == BucketOf(ops[..p], k) {
      BucketOfStep(ops, p, k);
    }
  }

  /** Store `p` writes its record index at the cursor of its bucket. */
  lemma StoreInto(ops: seq<Store>, p: nat, n: nat, offsets: seq<nat>)
    requires p < |ops| && ops[p].key < n
    requires PartOffsets(BucketsOf(ops, n), offsets)
    ensures offsets[ops[p].key] + |BucketOf(ops[..p], ops[p].key)| < |Concat(Layout(ops, p, n))|
    ensures Concat(Layout(ops, p, n))[offsets[ops[p].key] + |BucketOf(ops[..p], ops[p].key)| := ops[p].alignmentIndex]
      == Concat(Layout(ops, p + 1, n))
  {
    LayoutStep(ops, p, n);
    LayoutOffsets(ops, p, n, offsets);
    ConcatWrite(Layout(ops, p, n), offsets, ops[p].key, |BucketOf(ops[..p], ops[p].key)|, ops[p].alignmentIndex);
  }

  // ---------------------------------------------------------------------------
  // The build

  /** Pass 1 (`beginPass1` / `incrementCount`): count the entries of every
      bucket, four per record. */
  method CountEntries(ad: seq<AlignmentData>, bucketCount: nat) returns (counts: array<nat>)
    requires KeysBelow(ad, bucketCount)
    ensures fresh(counts) && counts.Length == bucketCount
    ensures forall k :: 0 <= k < bucketCount ==> counts[k] == |Bucket(ad, k)|
    ensures Sum(counts[..]) == 4 * |ad|
  {
    counts := new nat[bucketCount](_ => 0);
    ghost var ops := StoreOps(ad);
    CountsAtStart(ops, bucketCount);
    assert counts[..] == Counts(ops, 0, bucketCount);
    ghost var p := 0;
    for i := 0 to |ad|
      invariant p == 4 * i
      invariant counts[..] == Counts(ops, p, bucketCount) && Sum(counts[..]) == p
    {
      CountRecord(ad, i, counts, ops, p);
      p := p + 4;
    }
    CountsOfAll(ad, bucketCount);
  }

  /** Before any store, every count is zero. */
  lemma CountsAtStart(ops: seq<Store>, n: nat)
    ensures Counts(ops, 0, n) == seq(n, _ => 0) && Sum(Counts(ops, 0, n)) == 0
  {
    assert Counts(ops, 0, n) == seq(n, _ => 0);
    SumOfZeros(n);
  }

  /** After all the stores, the counts are the bucket sizes. */
  lemma CountsOfAll(ad: seq<AlignmentData>, n: nat)
    ensures forall k :: 0 <= k < n ==> Counts(StoreOps(ad), 4 * |ad|, n)[k] == |Bucket(ad, k)|
  {
    assert StoreOps(ad)[..4 * |ad|] == StoreOps(ad);
  }

  /** Pass 1 for record `i`: count its four keys, read 0, read 1, then both
      on the opposite strand; these are stores `p .. p+3`. */
  method CountRecord(ad: seq<AlignmentData>, i: nat, counts: array<nat>, ghost ops: seq<Store>, ghost p: nat)
    requires i < |ad| && p == 4 * i && ops == StoreOps(ad) && KeysBelow(ad, counts.Length)
    requires counts[..] == Counts(ops, p, counts.Length) && Sum(counts[..]) == p
    modifies counts
    ensures counts[..] == Counts(ops, p + 4, counts.Length) && Sum(counts[..]) == p + 4
  {
    var d := ad[i];
    var orientedReadId0 := OrientedReadId(d.readId0, 0);
    var orientedReadId1 := OrientedReadId(d.readId1, if d.isSameStrand then 0 else 1);
    KeysOfRecord(ad, i, p, counts.Length);
    IncrementCount(counts, orientedReadId0.Value(), ops, p);
    IncrementCount(counts, orientedReadId1.Value(), ops, p + 1);
    orientedReadId0 := orientedReadId0.FlipStrand();
    orientedReadId1 := orientedReadId1.FlipStrand();
    IncrementCount(counts, orientedReadId0.Value(), ops, p + 2);
    IncrementCount(counts, orientedReadId1.Value(), ops, p + 3);
  }

  /** The four stores of record `i`, in the order both passes perform them:
      read 0, read 1, then both on the opposite strand. */
  lemma KeysOfRecord(ad: seq<AlignmentData>, i: nat, p: nat, bucketCount: nat)
    requires i < |ad| && p == 4 * i && KeysBelow(ad, bucketCount)
    ensures var d, ops := ad[i], StoreOps(ad);
      var o0, o1 := OrientedReadId(d.readId0, 0), OrientedReadId(d.readId1, if d.isSameStrand then 0 else 1);
      ops[p] == Store(o0.Value(), i) && o0.Value() < bucketCount &&
      ops[p + 1] == Store(o1.Value(), i) && o1.Value() < bucketCount &&
      ops[p + 2] == Store(o0.FlipStrand().Value(), i) && o0.FlipStrand().Value() < bucketCount &&
      ops[p + 3] == Store(o1.FlipStrand().Value(), i) && o1.FlipStrand().Value() < bucketCount
  {
    TableKeysInOrder(ad[i]);
    KeyOfRecord(ad, i, 0, p, bucketCount);
    KeyOfRecord(ad, i, 1, p + 1, bucketCount);
    KeyOfRecord(ad, i, 2, p + 2, bucketCount);
    KeyOfRecord(ad, i, 3, p + 3, bucketCount);
  }

  /** Store `p = 4 * i + j` is key `j` of record `i`, and it names a bucket of the table. */
  lemma KeyOfRecord(ad: seq<AlignmentData>, i: nat, j: nat, p: nat, bucketCount: nat)
    requires i < |ad| && j < 4 && p == 4 * i + j && KeysBelow(ad, bucketCount)
    ensures StoreOps(ad)[p] == Store(TableKeys(ad[i])[j], i) && TableKeys(ad[i])[j] < bucketCount
  {
    StoreOpsAt(ad, i, j);
  }

  /** `incrementCount`: one more entry for bucket `key`, which is store `p`. */
  method IncrementCount(counts: array<nat>, key: nat, ghost ops: seq<Store>, ghost p: nat)
    requires p < |ops| && ops[p].key == key && key < counts.Length
    requires counts[..] == Counts(ops, p, counts.Length) && Sum(counts[..]) == p
    modifies counts
    ensures counts[..] == old(counts[..])[key := old(counts[key]) + 1]
    ensures counts[..] == Counts(ops, p + 1, counts.Length) && Sum(counts[..]) == p + 1
  {
    SumIncrement(counts[..], key);
    CountsStep(ops, p, counts.Length);
    counts[key] := counts[key] + 1;
  }

  /** `beginPass2`: the offset of every bucket is the sum of the counts of the
      buckets before it, and the last offset is the total. */
  method Offsets(counts: array<nat>) returns (toc: array<nat>)
    ensures fresh(toc) && toc.Length == counts.Length + 1
    ensures toc[0] == 0 && toc[counts.Length] == Sum(counts[..])
    ensures forall k :: 0 <= k < counts.Length ==> toc[k + 1] == toc[k] + counts[k]
  {
    toc := new nat[counts.Length + 1](_ => 0);
    for k := 0 to counts.Length
      invariant toc[0] == 0 && toc[k] == Sum(counts[..k])
      invariant forall a :: 0 <= a < k ==> toc[a + 1] == toc[a] + counts[a]
    {
      assert counts[..k + 1][..k] == counts[..k];
      toc[k + 1] := toc[k] + counts[k];
    }
    assert counts[..counts.Length] == counts[..];
  }

  /** Pass 2 (`store`): write every record index into its four buckets, in
      record order, each at the cursor of its bucket. The data array starts
      zeroed and sized to the total count; afterwards it is the
      concatenation of the buckets. */
  method StoreEntries(ad: seq<AlignmentData>, toc: array<nat>, data: array<nat>)
    requires toc.Length >= 1 && toc != data
    requires KeysBelow(ad, toc.Length - 1)
    requires PartOffsets(Buckets(ad, toc.Length - 1), toc[..])
    requires data[..] == seq(data.Length, _ => 0) && data.Length == toc[toc.Length - 1]
    modifies data
    ensures data[..] == Concat(Buckets(ad, toc.Length - 1))
  {
    var bucketCount := toc.Length - 1;
    ghost var ops := StoreOps(ad);
    ghost var offsets := toc[..];
    var fill := new nat[bucketCount](k requires 0 <= k < bucketCount reads toc => toc[k]);
    assert fill[..] == Cursors(offsets, ops, 0, bucketCount);
    LayoutStart(ops, bucketCount, offsets);
    ghost var p := 0;
    for i := 0 to |ad|
      invariant p == 4 * i && fill != data
      invariant fill[..] == Cursors(offsets, ops, p, bucketCount)
      invariant data[..] == Concat(Layout(ops, p, bucketCount))
    {
      StoreRecord(ad, i, data, fill, ops, p, offsets);
      p := p + 4;
    }
    LayoutEnd(ops, bucketCount);
  }

  /** Pass 2 for record `i`: store its index under its four keys, in the
      order of pass 1; these are stores `p .. p+3`. */
  method StoreRecord(ad: seq<AlignmentData>, i: nat, data: array<nat>, fill: array<nat>,
                     ghost ops: seq<Store>, ghost p: nat, ghost offsets: seq<nat>)
    requires i < |ad| && p == 4 * i && ops == StoreOps(ad) && KeysBelow(ad, fill.Length) && fill != data
    requires PartOffsets(BucketsOf(ops, fill.Length), offsets)
    requires fill[..] == Cursors(offsets, ops, p, fill.Length)
    requires data[..] == Concat(Layout(ops, p, fill.Length))
    modifies data, fill
    ensures fill[..] == Cursors(offsets, ops, p + 4, fill.Length)
    ensures data[..] == Concat(Layout(ops, p + 4, fill.Length))
  {
    var d := ad[i];
    var orientedReadId0 := OrientedReadId(d.readId0, 0);
    var orientedReadId1 := OrientedReadId(d.readId1, if d.isSameStrand then 0 else 1);
    KeysOfRecord(ad, i, p, fill.Length);
    StoreEntry(data, fill, orientedReadId0.Value(), i, ops, p, offsets);
    StoreEntry(data, fill, orientedReadId1.Value(), i, ops, p + 1, offsets);
    orientedReadId0 := orientedReadId0.FlipStrand();
    orientedReadId1 := orientedReadId1.FlipStrand();
    StoreEntry(data, fill, orientedReadId0.Value(), i, ops, p + 2, offsets);
    StoreEntry(data, fill, orientedReadId1.Value(), i, ops, p + 3, offsets);
  }

  /** `store`: put record index `x` at the cursor of bucket `key` and advance
      the cursor; this is store `p`. */
  method StoreEntry(data: array<nat>, fill: array<nat>, key: nat, x: nat,
                    ghost ops: seq<Store>, ghost p: nat, ghost offsets: seq<nat>)
    requires data != fill && p < |ops| && ops[p] == Store(key, x) && key < fill.Length
    requires PartOffsets(BucketsOf(ops, fill.Length), offsets)
    requires fill[..] == Cursors(offsets, ops, p, fill.Length)
    requires data[..] == Concat(Layout(ops, p, fill.Length))
    modifies data, fill
    ensures fill[..] == Cursors(offsets, ops, p + 1, fill.Length)
    ensures data[..] == Concat(Layout(ops, p + 1, fill.Length))
  {
    StoreInto(ops, p, fill.Length, offsets);
    CursorsStep(offsets, ops, p, fill.Length);
    var position := fill[key];
    data[position] := x;
    fill[key] := position + 1;
  }

  /** The sort phase's pairs for one bucket: every entry with its partner. */
  method PairWithPartners(ad: seq<AlignmentData>, q: OrientedReadId, section: seq<nat>) returns (v: seq<Entry>)
    requires forall m :: 0 <= m < |section| ==> section[m] < |ad| && Touches(ad[section[m]], q.Value())
    ensures v == BucketEntries(ad, q, section)
  {
    v := [];
    for m := 0 to |section|
      invariant v == BucketEntries(ad, q, section[..m])
    {
      assert section[..m + 1] == section[..m] + [section[m]];
      var alignmentIndex := section[m];
      var other := Other(ad[alignmentIndex], q);
      v := v + [Entry(other.Value(), alignmentIndex)];
    }
    assert section[..|section|] == section;
  }

  /** Write the record indices of the sorted pairs over a bucket, in place. */
  method WriteBack(data: array<nat>, start: nat, v: seq<Entry>, ghost before: seq<nat>, ghost section: seq<nat>, ghost after: seq<nat>)
    requires data[..] == before + section + after && start == |before| && |v| == |section|
    modifies data
    ensures data[..] == before + Indexes(v) + after
  {
    for m := 0 to |v|
      invariant data[..] == before + (Indexes(v)[..m] + section[m..]) + after
    {
      WriteInside(before, Indexes(v)[..m] + section[m..], after, m, v[m].alignmentIndex);
      data[start + m] := v[m].alignmentIndex;
      assert (Indexes(v)[..m] + section[m..])[m := v[m].alignmentIndex] == Indexes(v)[..m + 1] + section[m + 1..];
    }
    assert Indexes(v)[..|v|] + section[|v|..] == Indexes(v);
  }

  /** The sort of one bucket (the body of the sort loop): read the bucket of
      `q`, pair every entry with its partner, sort the pairs and write the
      record indices back. Only that bucket changes. */
  method SortBucket(ad: seq<AlignmentData>, toc: seq<nat>, data: array<nat>, q: OrientedReadId, ghost sections: seq<seq<nat>>)
    requires q.Value() < |sections|
    requires PartOffsets(sections, toc) && data[..] == Concat(sections)
    requires sections[q.Value()] == Bucket(ad, q.Value())
    modifies data
    ensures data[..] == Concat(sections[q.Value() := SortedBucket(ad, q.Value())])
  {
    var k := q.Value();
    ValueInjective(q, FromValue(k));
    ConcatPart(sections, toc, k);
    PrefixLength(sections, toc, k);
    assert sections[k := sections[k]] == sections;
    ConcatAround(sections, k, sections[k]);
    var section := data[toc[k]..toc[k + 1]];
    BucketTouches(ad, k);
    var v := PairWithPartners(ad, q, section);
    v := SortEntries(v);
    WriteBack(data, toc[k], v, Concat(sections[..k]), section, Concat(sections[k + 1..]));
    ConcatAround(sections, k, SortedBucket(ad, k));
  }

  /** `computeAlignmentTable`. The readIds of the records must be below
      `readCount`, since the table has a bucket for both strands of every
      read. The result holds the sorted buckets one after the other, and
      `toc` gives where each starts; `BucketLookup` reads bucket `k` back as
      `data[toc[k]..toc[k + 1]]`. */
  method ComputeAlignmentTable(ad: seq<AlignmentData>, readCount: nat) returns (toc: array<nat>, data: array<nat>)
    requires forall i :: 0 <= i < |ad| ==> ad[i].readId0 < readCount && ad[i].readId1 < readCount
    ensures fresh(toc) && fresh(data)
    ensures data.Length == 4 * |ad|
    ensures PartOffsets(SortedBuckets(ad, 2 * readCount), toc[..])
    ensures data[..] == Concat(SortedBuckets(ad, 2 * readCount))
  {
    var bucketCount := 2 * readCount;
    forall i, j | 0 <= i < |ad| && 0 <= j < |TableKeys(ad[i])| ensures TableKeys(ad[i])[j] < bucketCount {
      TableKeysAreTheTouchedReads(ad[i]);
      assert TableKeys(ad[i])[j] in TableKeys(ad[i]);
    }
    var counts := CountEntries(ad, bucketCount);
    toc := Offsets(counts);
    assert counts[..bucketCount] == counts[..];
    assert PartOffsets(Buckets(ad, bucketCount), toc[..]);
    data := new nat[toc[bucketCount]](_ => 0);
    assert data[..] == seq(data.Length, _ => 0);
    StoreEntries(ad, toc, data);
    SortBuckets(ad, toc[..], data, readCount);
  }

  /** Reading the table: bucket `k` lies between offsets `k` and `k + 1`,
      the offsets never decrease, and the last one is the size of the data. */
  lemma BucketLookup(ad: seq<AlignmentData>, n: nat, offsets: seq<nat>, data: seq<nat>, k: nat)
    requires PartOffsets(SortedBuckets(ad, n), offsets) && data == Concat(SortedBuckets(ad, n)) && k < n
    ensures offsets[k] <= offsets[k + 1] <= offsets[n] == |data|
    ensures data[offsets[k]..offsets[k + 1]] == SortedBucket(ad, k)
  {
    ConcatPart(SortedBuckets(ad, n), offsets, k);
    OffsetsIncrease(SortedBuckets(ad, n), offsets, k + 1, n);
  }

  /** The sort loop of `computeAlignmentTable`: sort the bucket of every
      oriented read in turn. The sort only reads the offsets `toc`, so it
      takes them as a value; they stay valid, since a sort does not change
      the size of a bucket. */
  method SortBuckets(ad: seq<AlignmentData>, toc: seq<nat>, data: array<nat>, readCount: nat)
    requires PartOffsets(Buckets(ad, 2 * readCount), toc)
    requires data[..] == Concat(Buckets(ad, 2 * readCount))
    modifies data
    ensures PartOffsets(SortedBuckets(ad, 2 * readCount), toc)
    ensures data[..] == Concat(SortedBuckets(ad, 2 * readCount))
  {
    var bucketCount := 2 * readCount;
    ghost var sections := Buckets(ad, bucketCount);
    NothingSorted(ad, bucketCount);
    for readId0 := 0 to readCount
      invariant SortedUpTo(ad, bucketCount, 2 * readId0, sections)
      invariant PartOffsets(sections, toc) && data[..] == Concat(sections)
    {
      sections := SortRead(ad, toc, data, readId0, bucketCount, sections);
    }
    AllSorted(ad, bucketCount, sections);
  }

  /** The inner sort loop: sort the buckets of both strands of read `readId0`. */
  method SortRead(ad: seq<AlignmentData>, toc: seq<nat>, data: array<nat>, readId0: nat, ghost n: nat, ghost sections: seq<seq<nat>>)
    returns (ghost sections': seq<seq<nat>>)
    requires 2 * (readId0 + 1) <= n && SortedUpTo(ad, n, 2 * readId0, sections)
    requires PartOffsets(sections, toc) && data[..] == Concat(sections)
    modifies data
    ensures SortedUpTo(ad, n, 2 * (readId0 + 1), sections')
    ensures PartOffsets(sections', toc) && data[..] == Concat(sections')
  {
    sections' := sections;
    for strand0 := 0 to 2
      invariant SortedUpTo(ad, n, 2 * readId0 + strand0, sections')
      invariant PartOffsets(sections', toc) && data[..] == Concat(sections')
    {
      var orientedReadId0 := OrientedReadId(readId0, strand0);
      sections' := SortNext(ad, toc, data, orientedReadId0, n, sections');
    }
  }

  /** One step of the sort loop: sort the bucket of `q`, the first one not
      sorted yet. */
  method SortNext(ad: seq<AlignmentData>, toc: seq<nat>, data: array<nat>, q: OrientedReadId, ghost n: nat, ghost sections: seq<seq<nat>>)
    returns (ghost sections': seq<seq<nat>>)
    requires q.Value() < n && SortedUpTo(ad, n, q.Value(), sections)
    requires PartOffsets(sections, toc) && data[..] == Concat(sections)
    modifies data
    ensures SortedUpTo(ad, n, q.Value() + 1, sections')
    ensures PartOffsets(sections', toc) && data[..] == Concat(sections')
  {
    UnsortedAt(ad, n, q.Value(), sections);
    SortBucket(ad, toc, data, q, sections);
    sections' := SortStep(ad, n, q.Value(), sections, toc);
  }

  /** The sort phase has sorted buckets `0 .. d-1` and not touched the others. */
  predicate SortedUpTo(ad: seq<AlignmentData>, n: nat, d: nat, sections: seq<seq<nat>>) {
    d <= n && sections == SortedBuckets(ad, n)[..d] + Buckets(ad, n)[d..]
  }

  /** Nothing is sorted at the start, and everything at the end. */
  lemma NothingSorted(ad: seq<AlignmentData>, n: nat)
    ensures SortedUpTo(ad, n, 0, Buckets(ad, n))
  {
    assert SortedBuckets(ad, n)[..0] + Buckets(ad, n)[0..] == Buckets(ad, n);
  }

  lemma AllSorted(ad: seq<AlignmentData>, n: nat, sections: seq<seq<nat>>)
    requires SortedUpTo(ad, n, n, sections)
    ensures sections == SortedBuckets(ad, n)
  {
    assert SortedBuckets(ad, n)[..n] + Buckets(ad, n)[n..] == SortedBuckets(ad, n);
  }

  /** Bucket `k` is the first one not sorted yet. */
  lemma UnsortedAt(ad: seq<AlignmentData>, n: nat, k: nat, sections: seq<seq<nat>>)
    requires k < n && SortedUpTo(ad, n, k, sections)
    ensures |sections| == n && sections[k] == Bucket(ad, k)
  {
    assert sections[k] == Buckets(ad, n)[k];
  }

  /** Sorting bucket `k` moves it from the unsorted to the sorted side and keeps the offsets. */
  lemma SortStep(ad: seq<AlignmentData>, n: nat, k: nat, sections: seq<seq<nat>>, offsets: seq<nat>) returns (sections': seq<seq<nat>>)
    requires k < n && SortedUpTo(ad, n, k, sections)
    requires PartOffsets(sections, offsets)
    ensures sections' == sections[k := SortedBucket(ad, k)]
    ensures SortedUpTo(ad, n, k + 1, sections')
    ensures PartOffsets(sections', offsets)
  {
    SortedBucketIsOrderedPermutation(ad, k);
    sections' := sections[k := SortedBucket(ad, k)];
    assert sections' == SortedBuckets(ad, n)[..k + 1] + Buckets(ad, n)[k + 1..];
  }
}
