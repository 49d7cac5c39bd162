/** Cutting the collected ids into consecutive delete batches of at most
    one hundred ids, the most one delete request accepts.
 */
module Batching {

  /** Ids per delete request. */
  const BatchSize: nat := 100

  /** A Python slice `s[lo:hi]` with non-negative bounds: both ends are
      clamped to the length of `s`. */
  function Slice(s: seq<int>, lo: nat, hi: nat): seq<int>
    requires lo <= hi
  {
    var b := if hi <= |s| then hi else |s|;
    var a := if lo <= b then lo else b;
    s[a..b]
  }

  /** Concatenation of a sequence of batches. */
  function Concat(bs: seq<seq<int>>): seq<int>
  {
    if |bs| == 0 then [] else bs[0] + Concat(bs[1..])
  }

  /** The batches, cut front to back: none is empty, none exceeds the batch
      size, and there are ceil(|ids| / BatchSize) of them. */
  function Batches(ids: seq<int>): (bs: seq<seq<int>>)
    ensures forall k :: 0 <= k < |bs| ==> 0 < |bs[k]| <= BatchSize
    ensures |bs| == (|ids| + BatchSize - 1) / BatchSize
    decreases |ids|
  {
    if |ids| == 0 then []
    else
      var n := if |ids| < BatchSize then |ids| else BatchSize;
      [ids[..n]] + Batches(ids[n..])
  }

  /** The batches partition `ids`: their concatenation is `ids`, so no id is
      dropped, duplicated or reordered. */
  lemma {:induction false} BatchesPartition(ids: seq<int>)
    ensures Concat(Batches(ids)) == ids
    decreases |ids|
  {
    if |ids| > 0 {
      var n := if |ids| < BatchSize then |ids| else BatchSize;
      var bs := Batches(ids);
      assert bs[1..] == Batches(ids[n..]);
      BatchesPartition(ids[n..]);
      assert ids == ids[..n] + ids[n..];
    }
  }

  /** The slices app.py's loop at lines 85-86 takes, written as a
      comprehension: `[ids[i:i + 100] for i in range(0, len(ids), 100)]`. */
  function Strided(ids: seq<int>): seq<seq<int>>
  {
    seq((|ids| + BatchSize - 1) / BatchSize,
        k requires 0 <= k => Slice(ids, k * BatchSize, k * BatchSize + BatchSize))
  }

  /** Batch `k` is the Python slice `ids[100 k : 100 k + 100]`. */
  lemma {:induction false} BatchAt(ids: seq<int>, k: nat)
    requires k < |Batches(ids)|
    ensures Batches(ids)[k] == Slice(ids, k * BatchSize, k * BatchSize + BatchSize)
    decreases |ids|
  {
    var n := if |ids| < BatchSize then |ids| else BatchSize;
    var tail := ids[n..];
    assert Batches(ids) == [ids[..n]] + Batches(tail);
    if k > 0 {
      assert n == BatchSize;
      BatchAt(tail, k - 1);
      var lo := (k - 1) * BatchSize;
      assert k * BatchSize == lo + BatchSize;
      ShiftSlice(ids, lo, lo + BatchSize);
    }
  }

  /** Slicing after dropping one batch is slicing further along. */
  lemma ShiftSlice(ids: seq<int>, lo: nat, hi: nat)
    requires lo <= hi && BatchSize <= |ids|
    ensures Slice(ids[BatchSize..], lo, hi) == Slice(ids, lo + BatchSize, hi + BatchSize)
  {
  }

  /** The recursive cut and app.py's strided slicing produce the same
      batches. */
  lemma BatchesAreStrided(ids: seq<int>)
    ensures Batches(ids) == Strided(ids)
  {
    var bs, st := Batches(ids), Strided(ids);
    assert |bs| == |st|;
    forall k | 0 <= k < |bs|
      ensures bs[k] == st[k]
    {
      BatchAt(ids, k);
      assert st[k] == Slice(ids, k * BatchSize, k * BatchSize + BatchSize);
    }
    assert bs == st;
  }

  /** Every batch but the last is full. */
  lemma BatchesFullButLast(ids: seq<int>)
    ensures forall k :: 0 <= k < |Batches(ids)| - 1 ==> |Batches(ids)[k]| == BatchSize
  {
    var bs := Batches(ids);
    forall k | 0 <= k < |bs| - 1
      ensures |bs[k]| == BatchSize
    {
      BatchAt(ids, k);
      assert (k + 1) * BatchSize < |ids| + BatchSize - 1 by {
        assert k + 1 < (|ids| + BatchSize - 1) / BatchSize;
      }
    }
  }

  /** Concatenation distributes over appending batch lists. */
  lemma {:induction false} ConcatAppend(a: seq<seq<int>>, b: seq<seq<int>>)
    ensures Concat(a + b) == Concat(a) + Concat(b)
  {
    if |a| > 0 {
      assert (a + b)[1..] == a[1..] + b;
      ConcatAppend(a[1..], b);
    } else {
      assert a + b == b;
    }
  }
}
