/**
 * How `backup_videos` cuts the list of video ids into requests of at most
 * 50 ids, the most one `videos().list` call accepts.
 */
module Batching {
  import opened Seqs

  const BatchSize: nat := 50

  /** The concatenation of a sequence of sequences, in order. */
  function Flatten<T>(ss: seq<seq<T>>): seq<T>
  {
    if ss == [] then [] else ss[0] + Flatten(ss[1..])
  }

  /** Number of batches for `n` ids: one per started block of 50. */
  function BatchCount(n: nat): nat
    decreases n
  {
    if n == 0 then 0 else if n <= BatchSize then 1 else 1 + BatchCount(n - BatchSize)
  }

  /**
   * The batches of `ids`: the first 50 ids, then the batches of the rest;
   * a list of at most 50 ids is one batch, the empty list none.
   */
  function Batches<T>(ids: seq<T>): seq<seq<T>>
    decreases |ids|
  {
    if |ids| == 0 then []
    else if |ids| <= BatchSize then [ids]
    else [ids[..BatchSize]] + Batches(ids[BatchSize..])
  }

  function Min(a: int, b: int): int
  {
    if a <= b then a else b
  }

  /** Joining the batches gives back the id list, in order. */
  lemma {:induction false} BatchesCover<T>(ids: seq<T>)
    ensures Flatten(Batches(ids)) == ids
    decreases |ids|
  {
    if |ids| > BatchSize {
      var rest := ids[BatchSize..];
      BatchesCover(rest);
      assert ([ids[..BatchSize]] + Batches(rest))[1..] == Batches(rest);
      assert ids == ids[..BatchSize] + rest;
    } else if |ids| > 0 {
      assert [ids][1..] == [];
      assert ids + [] == ids;
    }
  }

  /** There are `BatchCount(n)` batches; none is empty, none exceeds 50, all but the last hold exactly 50. */
  lemma {:induction false} BatchesSizes<T>(ids: seq<T>)
    ensures |Batches(ids)| == BatchCount(|ids|)
    ensures forall j :: 0 <= j < |Batches(ids)| ==> 1 <= |Batches(ids)[j]| <= BatchSize
    ensures forall j :: 0 <= j < |Batches(ids)| - 1 ==> |Batches(ids)[j]| == BatchSize
    decreases |ids|
  {
    if |ids| > BatchSize {
      var rest := ids[BatchSize..];
      BatchesSizes(rest);
      forall j | 0 < j < |Batches(ids)|
        ensures Batches(ids)[j] == Batches(rest)[j - 1]
      {
      }
    }
  }

  /** The batch count is `(n + batch_size - 1) // batch_size`, the total the script reports. */
  lemma {:induction false} BatchCountIsCeiling(n: nat)
    ensures BatchCount(n) == (n + BatchSize - 1) / BatchSize
    decreases n
  {
    if n > BatchSize {
      BatchCountIsCeiling(n - BatchSize);
      assert (n + BatchSize - 1) / BatchSize == (n - 1) / BatchSize + 1;
    }
  }

  /** The loop index `50 * b` is inside the list exactly while batch `b` exists. */
  lemma {:induction false} BatchIndexInRange(n: nat, b: nat)
    ensures BatchSize * b < n <==> b < BatchCount(n)
    decreases n
  {
    if b > 0 {
      assert BatchSize * b == BatchSize * (b - 1) + BatchSize;
      if n > BatchSize {
        BatchIndexInRange(n - BatchSize, b - 1);
      }
    }
  }

  lemma ShiftByOneBatch(j: nat, n: nat)
    requires 0 < j && BatchSize < n
    ensures BatchSize * j == BatchSize * (j - 1) + BatchSize
    ensures Min(BatchSize * j + BatchSize, n) == Min(BatchSize * (j - 1) + BatchSize, n - BatchSize) + BatchSize
  {
  }

  /**
   * Batch number `j` is the slice the loop `for i in range(0, n, 50)` takes
   * at `i = 50 * j`.
   */
  lemma {:induction false} BatchesAreSlices<T>(ids: seq<T>, j: nat)
    requires j < |Batches(ids)|
    ensures BatchSize * j <= Min(BatchSize * j + BatchSize, |ids|) <= |ids|
    ensures Batches(ids)[j] == ids[BatchSize * j..Min(BatchSize * j + BatchSize, |ids|)]
    decreases |ids|
  {
    if |ids| > BatchSize && j > 0 {
      var rest := ids[BatchSize..];
      assert Batches(ids)[j] == Batches(rest)[j - 1];
      BatchesAreSlices(rest, j - 1);
      ShiftByOneBatch(j, |ids|);
      SliceOfSuffix(ids, BatchSize, BatchSize * (j - 1), Min(BatchSize * (j - 1) + BatchSize, |rest|));
    }
  }

  /**
   * One step of `for i in range(0, n, 50)`: the slice `ids[i:i + 50]` is the
   * first batch of what is left from `i` on.
   */
  lemma NextBatch<T>(ids: seq<T>, i: nat)
    requires i < |ids|
    ensures Batches(ids[i..]) == [ids[i..Min(i + BatchSize, |ids|)]] + Batches(ids[Min(i + BatchSize, |ids|)..])
  {
    var rest := ids[i..];
    if |rest| > BatchSize {
      assert rest[..BatchSize] == ids[i..i + BatchSize];
      assert rest[BatchSize..] == ids[i + BatchSize..];
    } else {
      assert Min(i + BatchSize, |ids|) == |ids|;
      assert ids[i..|ids|] == rest;
      assert ids[|ids|..] == [];
    }
  }

  /** 112 ids, as three pages of 50, 50 and 12 yield them, are fetched in three requests of 50, 50 and 12. */
  lemma ThreePageScenario<T>(ids: seq<T>)
    requires |ids| == 112
    ensures |Batches(ids)| == 3
    ensures Batches(ids) == [ids[..50], ids[50..100], ids[100..]]
  {
    var rest := ids[50..];
    assert Batches(ids) == [ids[..50]] + Batches(rest);
    assert Batches(rest) == [rest[..50]] + Batches(rest[50..]);
    assert Batches(rest[50..]) == [rest[50..]];
    assert rest[..50] == ids[50..100];
    assert rest[50..] == ids[100..];
  }
}
