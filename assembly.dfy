/** Reassembly of the returned batches into the H x W x 2 output raster: the
    raster is prefilled with nodata in both bands, then each returned block is
    copied over its rows. */
module Assembly {
  import opened Common
  import Batching

  /** One entry of the results mapping, in the mapping's iteration order:
      the submitted start row and the block returned for it, if any. */
  datatype ResultItem = ResultItem(startRow: nat, result: Option<Block>)

  /** Outcome of the assembly step: the client stops early when no batch
      came back; otherwise it has the raster and the count of merged batches. */
  datatype Assembled = NoResults | Assembled(raster: seq<seq<Pixel>>, successfulBatches: nat)

  function NodataRow(width: nat): (row: seq<Pixel>)
    ensures |row| == width
    ensures forall c :: 0 <= c < width ==> row[c] == NodataPixel
  {
    seq(width, _ => NodataPixel)
  }

  /** `np.full((height, width, 2), np.nan)`. */
  function NodataRaster(height: nat, width: nat): (raster: seq<seq<Pixel>>)
    ensures |raster| == height
    ensures forall r :: 0 <= r < height ==> raster[r] == NodataRow(width)
  {
    seq(height, _ => NodataRow(width))
  }

  /** `raster[start:start + len(block)] = block`. */
  function Overlay(raster: seq<seq<Pixel>>, start: nat, block: Block): (r: seq<seq<Pixel>>)
    requires start + |block| <= |raster|
    ensures |r| == |raster|
    ensures forall i :: 0 <= i < |r| ==>
              r[i] == if start <= i < start + |block| then block[i - start] else raster[i]
  {
    raster[..start] + block + raster[start + |block|..]
  }

  /** The item carries a block that overwrites row `row`. */
  predicate Writes(x: ResultItem, row: nat)
  {
    x.result.Some? && x.startRow <= row < x.startRow + |x.result.value|
  }

  /** Every block lies inside the raster and has `width` columns: what the
      slice assignment needs to match shapes. */
  predicate Fits(items: seq<ResultItem>, height: nat, width: nat)
  {
    forall i :: 0 <= i < |items| && items[i].result.Some? ==>
      items[i].startRow + |items[i].result.value| <= height &&
      forall row :: 0 <= row < |items[i].result.value| ==> |items[i].result.value[row]| == width
  }

  /** Different items never write the same row. */
  ghost predicate Disjoint(items: seq<ResultItem>)
  {
    forall x, y :: x in items && y in items && x != y && x.result.Some? && y.result.Some? ==>
      x.startRow + |x.result.value| <= y.startRow || y.startRow + |y.result.value| <= x.startRow
  }

  function MergeStep(raster: seq<seq<Pixel>>, x: ResultItem): (r: seq<seq<Pixel>>)
    requires x.result.Some? ==> x.startRow + |x.result.value| <= |raster|
    ensures |r| == |raster|
  {
    if x.result.Some? then Overlay(raster, x.startRow, x.result.value) else raster
  }

  /** The raster after merging `items` in order into `raster`. */
  function MergeAll(raster: seq<seq<Pixel>>, items: seq<ResultItem>): (r: seq<seq<Pixel>>)
    requires forall i :: 0 <= i < |items| && items[i].result.Some? ==>
               items[i].startRow + |items[i].result.value| <= |raster|
    ensures |r| == |raster|
    decreases |items|
  {
    if items == [] then raster
    else MergeStep(MergeAll(raster, items[..|items| - 1]), items[|items| - 1])
  }

  /** The number of items that carry a block. */
  function MergedCount(items: seq<ResultItem>): nat
  {
    if items == [] then 0
    else MergedCount(items[..|items| - 1]) + (if items[|items| - 1].result.Some? then 1 else 0)
  }

  /** The slice assignment of one block, in place. */
  method MergeInto(a: array<seq<Pixel>>, start: nat, block: Block)
    requires start + |block| <= a.Length
    modifies a
    ensures a[..] == Overlay(old(a[..]), start, block)
  {
    for j := 0 to |block|
      invariant forall i :: 0 <= i < a.Length ==>
                  a[i] == if start <= i < start + j then block[i - start] else old(a[i])
    {
      a[start + j] := block[j];
    }
  }

  /** The assembly step of the client: stop when the mapping is empty,
      otherwise prefill the raster with nodata, copy every returned block over
      its rows and count the merged batches. */
  method AssembleRaster(height: nat, width: nat, items: seq<ResultItem>) returns (out: Assembled)
    requires Fits(items, height, width)
    ensures items == [] <==> out == NoResults
    ensures items != [] ==>
              out == Assembled(MergeAll(NodataRaster(height, width), items), MergedCount(items))
  {
    if |items| == 0 {
      return NoResults;
    }
    var a := new seq<Pixel>[height](_ => NodataRow(width));
    assert a[..] == NodataRaster(height, width);
    var successful := 0;
    for i := 0 to |items|
      invariant a[..] == MergeAll(NodataRaster(height, width), items[..i])
      invariant successful == MergedCount(items[..i])
    {
      assert items[..i + 1][..i] == items[..i];
      var x := items[i];
      if x.result.Some? {
        MergeInto(a, x.startRow, x.result.value);
        successful := successful + 1;
      }
    }
    assert items[..|items|] == items;
    return Assembled(a[..], successful);
  }

  // ---------------------------------------------------------------------
  // Properties of the merge

  /** A row that no item writes keeps its value; in particular, in a raster
      prefilled with nodata, the rows of batches that never came back stay
      nodata in both bands. */
  lemma {:induction false} UnwrittenRowUnchanged(raster: seq<seq<Pixel>>, items: seq<ResultItem>, row: nat)
    requires forall i :: 0 <= i < |items| && items[i].result.Some? ==>
               items[i].startRow + |items[i].result.value| <= |raster|
    requires row < |raster|
    requires forall i :: 0 <= i < |items| ==> !Writes(items[i], row)
    ensures MergeAll(raster, items)[row] == raster[row]
  {
    if items != [] {
      UnwrittenRowUnchanged(raster, items[..|items| - 1], row);
    }
  }

  /** With disjoint items, a row written by item `x` holds the matching row of
      x's block, both bands, whatever the order of the items. */
  lemma {:induction false} WrittenRowFromItsBlock(raster: seq<seq<Pixel>>, items: seq<ResultItem>, x: ResultItem, row: nat)
    requires forall i :: 0 <= i < |items| && items[i].result.Some? ==>
               items[i].startRow + |items[i].result.value| <= |raster|
    requires Disjoint(items)
    requires x in items && Writes(x, row)
    ensures row < |raster|
    ensures MergeAll(raster, items)[row] == x.result.value[row - x.startRow]
  {
    var n := |items|;
    var last := items[n - 1];
    var prefix := items[..n - 1];
    if last == x {
      assert row < |raster|;
    } else {
      assert x in prefix by {
        var i :| 0 <= i < n && items[i] == x;
        assert prefix[i] == x;
      }
      assert !Writes(last, row);
      assert Disjoint(prefix) by {
        forall x', y' | x' in prefix && y' in prefix
          ensures x' in items && y' in items
        {
        }
      }
      WrittenRowFromItsBlock(raster, prefix, x, row);
    }
  }

  /** Two sequences with the same members are disjoint together. */
  lemma SameMembersDisjoint(items: seq<ResultItem>, others: seq<ResultItem>)
    requires forall x :: x in items <==> x in others
    requires Disjoint(items)
    ensures Disjoint(others)
  {
  }

  /** Row `row` is the same after merging either of two disjoint sequences
      with the same members. */
  lemma RowAgrees(raster: seq<seq<Pixel>>, items: seq<ResultItem>, others: seq<ResultItem>, row: nat)
    requires forall i :: 0 <= i < |items| && items[i].result.Some? ==>
               items[i].startRow + |items[i].result.value| <= |raster|
    requires forall i :: 0 <= i < |others| && others[i].result.Some? ==>
               others[i].startRow + |others[i].result.value| <= |raster|
    requires forall x :: x in items <==> x in others
    requires Disjoint(items) && Disjoint(others)
    requires row < |raster|
    ensures MergeAll(raster, items)[row] == MergeAll(raster, others)[row]
  {
    if x :| x in items && Writes(x, row) {
      WrittenRowFromItsBlock(raster, items, x, row);
      WrittenRowFromItsBlock(raster, others, x, row);
    } else {
      assert forall i :: 0 <= i < |others| ==> others[i] in items;
      UnwrittenRowUnchanged(raster, items, row);
      UnwrittenRowUnchanged(raster, others, row);
    }
  }

  /** Completion order does not matter: merging the same disjoint items in any
      order gives the same raster. */
  lemma MergeOrderIndependent(raster: seq<seq<Pixel>>, items: seq<ResultItem>, others: seq<ResultItem>)
    requires forall i :: 0 <= i < |items| && items[i].result.Some? ==>
               items[i].startRow + |items[i].result.value| <= |raster|
    requires multiset(items) == multiset(others)
    requires Disjoint(items)
    ensures forall i :: 0 <= i < |others| && others[i].result.Some? ==>
              others[i].startRow + |others[i].result.value| <= |raster|
    ensures MergeAll(raster, items) == MergeAll(raster, others)
  {
    assert forall x :: x in items <==> x in others by {
      forall x ensures x in items <==> x in others {
        assert x in items <==> x in multiset(items);
        assert x in others <==> x in multiset(others);
      }
    }
    forall i | 0 <= i < |others| && others[i].result.Some?
      ensures others[i].startRow + |others[i].result.value| <= |raster|
    {
      assert others[i] in items;
      var j :| 0 <= j < |items| && items[j] == others[i];
    }
    SameMembersDisjoint(items, others);
    forall row | 0 <= row < |raster|
      ensures MergeAll(raster, items)[row] == MergeAll(raster, others)[row]
    {
      RowAgrees(raster, items, others, row);
    }
  }

  /** Merging the same (start row, block) a second time changes nothing. */
  lemma MergeTwiceIsOnce(raster: seq<seq<Pixel>>, x: ResultItem)
    requires x.result.Some? ==> x.startRow + |x.result.value| <= |raster|
    ensures MergeStep(MergeStep(raster, x), x) == MergeStep(raster, x)
  {
    var once := MergeStep(raster, x);
    var twice := MergeStep(once, x);
    assert forall i :: 0 <= i < |raster| ==> twice[i] == once[i];
  }

  /** `successful_batches` never exceeds the number of entries, and equals it
      when every entry carries a block. */
  lemma {:induction false} MergedCountBounds(items: seq<ResultItem>)
    ensures MergedCount(items) <= |items|
    ensures (forall i :: 0 <= i < |items| ==> items[i].result.Some?) ==> MergedCount(items) == |items|
    ensures MergedCount(items) == 0 <==> forall i :: 0 <= i < |items| ==> items[i].result.None?
  {
    if items != [] {
      var prefix := items[..|items| - 1];
      MergedCountBounds(prefix);
      assert forall i :: 0 <= i < |prefix| ==> prefix[i] == items[i];
    }
  }

  /** The entries come from a mapping: no start row appears twice. */
  ghost predicate DistinctKeys(items: seq<ResultItem>)
  {
    forall x, y :: x in items && y in items && x.startRow == y.startRow ==> x == y
  }

  /** Blocks that come back for batches of the partition, each with as many
      rows as its batch, never overlap, so the merge of the client does not
      depend on the order in which they arrive. */
  lemma PartitionBlocksDisjoint(height: nat, batchSize: nat, items: seq<ResultItem>)
    requires batchSize >= 1
    requires DistinctKeys(items)
    requires forall x :: x in items && x.result.Some? ==>
               exists k :: 0 <= k < |Batching.Partition(height, batchSize)| &&
                           x.startRow == Batching.Partition(height, batchSize)[k].0 &&
                           |x.result.value| == Batching.Partition(height, batchSize)[k].1 - x.startRow
    ensures Disjoint(items)
  {
    var p := Batching.Partition(height, batchSize);
    Batching.PartitionDisjoint(height, batchSize);
    Batching.PartitionSizes(height, batchSize);
    forall x, y | x in items && y in items && x != y && x.result.Some? && y.result.Some?
      ensures x.startRow + |x.result.value| <= y.startRow || y.startRow + |y.result.value| <= x.startRow
    {
      var j :| 0 <= j < |p| && x.startRow == p[j].0 && |x.result.value| == p[j].1 - x.startRow;
      var k :| 0 <= k < |p| && y.startRow == p[k].0 && |y.result.value| == p[k].1 - y.startRow;
      assert j != k;
    }
  }
}
