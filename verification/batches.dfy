/**
  Partition of the records into insert batches of at most 1000 rows, taken
  in order: batch `k` holds the records from position `1000 * k` up to but
  not including position `1000 * k + 1000`.
 */
module Batches {

  /** Rows per insert statement. */
  const BatchSize: nat := 1000

  function Min(a: int, b: int): int {
    if a <= b then a else b
  }

  /** Split `s` into consecutive batches; the last one may be short. */
  function Chunks<T>(s: seq<T>): (cs: seq<seq<T>>)
    ensures |cs| == (|s| + BatchSize - 1) / BatchSize
    ensures forall k :: 0 <= k < |cs| ==> 0 < |cs[k]| <= BatchSize
    ensures forall k :: 0 <= k < |cs| - 1 ==> |cs[k]| == BatchSize
    decreases |s|
  {
    if |s| == 0 then []
    else if |s| <= BatchSize then [s]
    else [s[..BatchSize]] + Chunks(s[BatchSize..])
  }

  /** Concatenate a sequence of batches. */
  function Flatten<T>(cs: seq<seq<T>>): seq<T> {
    if |cs| == 0 then [] else cs[0] + Flatten(cs[1..])
  }

  lemma {:induction false} FlattenAppend<T>(a: seq<seq<T>>, b: seq<seq<T>>)
    ensures Flatten(a + b) == Flatten(a) + Flatten(b)
    decreases |a|
  {
    if |a| == 0 {
      assert a + b == b;
    } else {
      assert (a + b)[1..] == a[1..] + b;
      FlattenAppend(a[1..], b);
    }
  }

  /** Concatenating the batches gives back the records, in order. */
  lemma {:induction false} FlattenChunks<T>(s: seq<T>)
    ensures Flatten(Chunks(s)) == s
    decreases |s|
  {
    if |s| == 0 {
    } else if |s| <= BatchSize {
      assert Flatten(Chunks(s)) == s + Flatten([]);
    } else {
      FlattenChunks(s[BatchSize..]);
      assert Chunks(s)[1..] == Chunks(s[BatchSize..]);
      assert s == s[..BatchSize] + s[BatchSize..];
    }
  }

  /**
    Batch `k` is the slice of the records that starts at `1000 * k` and is
    1000 long, cut short at the end of the records.
   */
  lemma {:induction false} ChunkIsSlice<T>(s: seq<T>, k: nat)
    requires k < |Chunks(s)|
    ensures k * BatchSize <= |s|
    ensures Chunks(s)[k] == s[k * BatchSize .. Min(k * BatchSize + BatchSize, |s|)]
    decreases |s|
  {
    if |s| <= BatchSize {
    } else if k == 0 {
    } else {
      ChunkIsSlice(s[BatchSize..], k - 1);
      assert Chunks(s)[k] == Chunks(s[BatchSize..])[k - 1];
      assert s[BatchSize..][(k - 1) * BatchSize .. Min((k - 1) * BatchSize + BatchSize, |s| - BatchSize)]
        == s[k * BatchSize .. Min(k * BatchSize + BatchSize, |s|)];
    }
  }

  /** No records make no batches. */
  lemma NoRecordsNoChunks<T>(s: seq<T>)
    ensures |Chunks(s)| == 0 <==> |s| == 0
  {
  }
}
