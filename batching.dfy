/** The batch-creation loop of the client: it cuts the rows [0, height) of the
    coordinate grid into contiguous ranges of at most batchSize rows. */
module Batching {
  import opened Common

  /** `range(0, height, 0)` raises ValueError. */
  datatype BatchError = ZeroBatchSize

  /** The number of values of `range(0, height, batchSize)`: ceil(height / batchSize). */
  function BatchCount(height: nat, batchSize: nat): nat
    requires batchSize >= 1
  {
    (height + batchSize - 1) / batchSize
  }

  /** The row range (start_row, end_row) of the k-th batch. */
  function RangeAt(k: nat, batchSize: nat, height: nat): (nat, nat)
  {
    (k * batchSize, Min(k * batchSize + batchSize, height))
  }

  /** The row ranges, in the order the loop creates them. */
  function Partition(height: nat, batchSize: nat): seq<(nat, nat)>
    requires batchSize >= 1
  {
    seq(BatchCount(height, batchSize), k requires 0 <= k => RangeAt(k, batchSize, height))
  }

  /** The batch for rows [startRow, endRow): the grid rows, the shared station
      data, the power and the mask rows, each sliced as Python slices them. */
  function MakeBatch(lonsGrid: seq<GridRow>, latsGrid: seq<GridRow>, knownData: KnownData, power: real,
                     polygonMask: Option<seq<seq<bool>>>, startRow: nat, endRow: nat): (b: Batch)
    ensures b.startRow == startRow && b.endRow == endRow
    ensures b.knownData == knownData && b.power == power
    ensures startRow <= endRow <= |lonsGrid| ==> b.lonsGrid == lonsGrid[startRow..endRow]
    ensures startRow <= endRow <= |latsGrid| ==> b.latsGrid == latsGrid[startRow..endRow]
    ensures b.polygonMask.None? <==> polygonMask.None?
    ensures polygonMask.Some? && startRow <= endRow <= |polygonMask.value| ==>
              b.polygonMask == Some(polygonMask.value[startRow..endRow])
  {
    Batch(startRow, endRow, Slice(lonsGrid, startRow, endRow), Slice(latsGrid, startRow, endRow),
          knownData, power,
          match polygonMask
          case None => None
          case Some(m) => Some(Slice(m, startRow, endRow)))
  }

  /** The k-th batch the loop creates. */
  function BatchAt(lonsGrid: seq<GridRow>, latsGrid: seq<GridRow>, knownData: KnownData, power: real,
                   polygonMask: Option<seq<seq<bool>>>, batchSize: nat, k: nat): (b: Batch)
    ensures batchSize >= 1 && k < BatchCount(|lonsGrid|, batchSize) ==>
              (b.startRow, b.endRow) == Partition(|lonsGrid|, batchSize)[k]
  {
    var range := RangeAt(k, batchSize, |lonsGrid|);
    MakeBatch(lonsGrid, latsGrid, knownData, power, polygonMask, range.0, range.1)
  }

  /** The loop `for start_row in range(0, height, batch_size)` with `height`
      the number of rows of the longitude grid. */
  method CreateBatches(lonsGrid: seq<GridRow>, latsGrid: seq<GridRow>, knownData: KnownData, power: real,
                       polygonMask: Option<seq<seq<bool>>>, batchSize: int)
    returns (r: Result<seq<Batch>, BatchError>)
    ensures r.Failure? <==> batchSize == 0
    ensures r.Failure? ==> r.error == ZeroBatchSize
    ensures batchSize < 0 ==> r == Success([])
    ensures batchSize > 0 ==>
              r.Success? && |r.value| == BatchCount(|lonsGrid|, batchSize) &&
              forall k :: 0 <= k < |r.value| ==>
                r.value[k] == BatchAt(lonsGrid, latsGrid, knownData, power, polygonMask, batchSize, k)
  {
    if batchSize == 0 {
      return Failure(ZeroBatchSize);
    }
    if batchSize < 0 {
      return Success([]);
    }
    var height := |lonsGrid|;
    var batches: seq<Batch> := [];
    var startRow: nat := 0;
    while startRow < height
      invariant startRow == |batches| * batchSize
      invariant |batches| == 0 || startRow - batchSize < height
      invariant forall k :: 0 <= k < |batches| ==>
                  batches[k] == BatchAt(lonsGrid, latsGrid, knownData, power, polygonMask, batchSize, k)
      decreases height - startRow
    {
      var endRow := Min(startRow + batchSize, height);
      ghost var n := |batches|;
      assert RangeAt(n, batchSize, height) == (startRow, endRow);
      batches := batches + [MakeBatch(lonsGrid, latsGrid, knownData, power, polygonMask, startRow, endRow)];
      NextStart(n, batchSize);
      startRow := startRow + batchSize;
    }
    if |batches| > 0 {
      NextStart(|batches| - 1, batchSize);
    }
    CountFromBounds(|batches|, batchSize, height);
    return Success(batches);
  }

  // ---------------------------------------------------------------------
  // Arithmetic helpers

  /** The start of batch n + 1 is one batch size past the start of batch n. */
  lemma NextStart(n: nat, batchSize: nat)
    ensures (n + 1) * batchSize == n * batchSize + batchSize
  {
  }

  /** A loop that stops at the first multiple of batchSize at or past height
      has run BatchCount(height, batchSize) times. */
  lemma CountFromBounds(n: nat, batchSize: nat, height: nat)
    requires batchSize >= 1
    requires height <= n * batchSize
    requires n == 0 || (n - 1) * batchSize < height
    ensures n == BatchCount(height, batchSize)
  {
    if n == 0 {
      DivIsUnique(height + batchSize - 1, batchSize, 0);
    } else {
      assert (n - 1) * batchSize + batchSize == n * batchSize;
      DivIsUnique(height + batchSize - 1, batchSize, n);
    }
  }

  /** The count is ceil(height / batchSize): n batches of batchSize rows reach
      height, n - 1 do not. */
  lemma BatchCountBounds(height: nat, batchSize: nat)
    requires batchSize >= 1
    ensures var n := BatchCount(height, batchSize);
            height <= n * batchSize &&
            (n == 0 <==> height == 0) &&
            (n > 0 ==> (n - 1) * batchSize < height)
  {
    var n := BatchCount(height, batchSize);
    var x := height + batchSize - 1;
    assert x == n * batchSize + x % batchSize;
    if n > 0 {
      assert (n - 1) * batchSize + batchSize == n * batchSize;
    }
  }

  /** Every batch but none past the last starts inside the grid. */
  lemma StartInside(k: nat, height: nat, batchSize: nat)
    requires batchSize >= 1
    requires k < BatchCount(height, batchSize)
    ensures k * batchSize < height
  {
    BatchCountBounds(height, batchSize);
    MulMonotone(k, BatchCount(height, batchSize) - 1, batchSize);
  }

  // ---------------------------------------------------------------------
  // Properties of the partition

  /** For 45 rows in batches of 20: (0,20), (20,40), (40,45). */
  lemma PartitionExample()
    ensures Partition(45, 20) == [(0, 20), (20, 40), (40, 45)]
  {
    assert BatchCount(45, 20) == 3;
  }

  /** The first batch starts at row 0, the last ends at height, and each batch
      ends where the next one starts. */
  lemma PartitionContiguous(height: nat, batchSize: nat)
    requires batchSize >= 1
    ensures var p := Partition(height, batchSize);
            (|p| > 0 ==> p[0].0 == 0 && p[|p| - 1].1 == height) &&
            (forall k :: 0 <= k < |p| - 1 ==> p[k].1 == p[k + 1].0)
  {
    var p := Partition(height, batchSize);
    var n := |p|;
    BatchCountBounds(height, batchSize);
    if n > 0 {
      assert (n - 1) * batchSize + batchSize == n * batchSize;
    }
    forall k | 0 <= k < n - 1
      ensures p[k].1 == p[k + 1].0
    {
      StartInside(k + 1, height, batchSize);
      assert k * batchSize + batchSize == (k + 1) * batchSize;
    }
  }

  /** Each batch holds between 1 and batchSize rows; all but the last hold
      exactly batchSize. */
  lemma PartitionSizes(height: nat, batchSize: nat)
    requires batchSize >= 1
    ensures var p := Partition(height, batchSize);
            forall k :: 0 <= k < |p| ==>
              1 <= p[k].1 - p[k].0 <= batchSize &&
              (k < |p| - 1 ==> p[k].1 - p[k].0 == batchSize)
  {
    var p := Partition(height, batchSize);
    forall k | 0 <= k < |p|
      ensures 1 <= p[k].1 - p[k].0 <= batchSize
      ensures k < |p| - 1 ==> p[k].1 - p[k].0 == batchSize
    {
      StartInside(k, height, batchSize);
      if k < |p| - 1 {
        StartInside(k + 1, height, batchSize);
        assert (k + 1) * batchSize == k * batchSize + batchSize;
      }
    }
  }

  /** Start rows are the multiples of batchSize, strictly ascending. */
  lemma PartitionAscending(height: nat, batchSize: nat)
    requires batchSize >= 1
    ensures var p := Partition(height, batchSize);
            (forall k :: 0 <= k < |p| ==> p[k].0 % batchSize == 0) &&
            (forall j, k :: 0 <= j < k < |p| ==> p[j].0 < p[k].0)
  {
    var p := Partition(height, batchSize);
    forall k | 0 <= k < |p|
      ensures p[k].0 % batchSize == 0
    {
      DivIsUnique(k * batchSize, batchSize, k);
    }
    forall j, k | 0 <= j < k < |p|
      ensures p[j].0 < p[k].0
    {
      MulMonotone(j + 1, k, batchSize);
    }
  }

  /** No two batches share a row. */
  lemma PartitionDisjoint(height: nat, batchSize: nat)
    requires batchSize >= 1
    ensures var p := Partition(height, batchSize);
            forall j, k :: 0 <= j < k < |p| ==> p[j].1 <= p[k].0
  {
    var p := Partition(height, batchSize);
    forall j, k | 0 <= j < k < |p|
      ensures p[j].1 <= p[k].0
    {
      MulMonotone(j + 1, k, batchSize);
      assert (j + 1) * batchSize == j * batchSize + batchSize;
      assert p[j].1 <= (j + 1) * batchSize;
      assert p[k].0 == k * batchSize;
    }
  }

  /** Row `row` lies in one of the ranges of `p`. */
  ghost predicate Covered(p: seq<(nat, nat)>, row: nat)
  {
    exists k :: 0 <= k < |p| && p[k].0 <= row < p[k].1
  }

  /** The batches cover exactly the rows [0, height). */
  lemma PartitionCovers(height: nat, batchSize: nat)
    requires batchSize >= 1
    ensures var p := Partition(height, batchSize);
            (forall k :: 0 <= k < |p| ==> p[k].1 <= height) &&
            (forall row: nat :: row < height ==> Covered(p, row))
  {
    var p := Partition(height, batchSize);
    forall row: nat | row < height
      ensures Covered(p, row)
    {
      var k := row / batchSize;
      assert row == k * batchSize + row % batchSize;
      BatchCountBounds(height, batchSize);
      if k >= |p| {
        MulMonotone(|p|, k, batchSize);
      }
      assert p[k].0 <= row < p[k].1;
    }
  }
}
