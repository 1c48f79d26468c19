/** Vocabulary shared by both watcher pipelines and the record schemas. */
module Common {

  datatype Option<+T> = None | Some(value: T)

  datatype Result<+T, +E> = Success(value: T) | Failure(error: E)

  /** A Mongo ObjectId. The model only compares identifiers for equality. */
  type UserId = nat

  /** The `currency` enum that Deposit and Withdrawal share. */
  datatype Currency = ETH | SOL

  /** Why the document store refused to insert a document. */
  datatype StoreError =
    | RequiredPathMissing(path: string)  // a `required` String path held "" or nothing
    | DuplicateKey(key: string)          // a `unique` index already holds this value

  /** The heights lo, lo+1, ..., hi that a scan cycle walks, in the order it walks them. */
  function Heights(lo: nat, hi: nat): (hs: seq<nat>)
    decreases hi + 1 - lo
  {
    if lo > hi then [] else [lo] + Heights(lo + 1, hi)
  }

  /** Every height from lo to hi appears exactly once, in ascending order. */
  lemma {:induction false} HeightsAscending(lo: nat, hi: nat)
    ensures lo <= hi + 1 ==> |Heights(lo, hi)| == hi + 1 - lo
    ensures lo > hi ==> Heights(lo, hi) == []
    ensures forall k :: 0 <= k < |Heights(lo, hi)| ==> Heights(lo, hi)[k] == lo + k
    decreases hi + 1 - lo
  {
    if lo <= hi {
      HeightsAscending(lo + 1, hi);
      var rest := Heights(lo + 1, hi);
      assert Heights(lo, hi) == [lo] + rest;
      forall k | 0 < k < |Heights(lo, hi)|
        ensures Heights(lo, hi)[k] == lo + k
      {
        assert Heights(lo, hi)[k] == rest[k - 1];
      }
    }
  }

  /** Walking lo..hi is walking lo..mid and then mid+1..hi. */
  lemma {:induction false} HeightsSplit(lo: nat, mid: nat, hi: nat)
    requires lo <= mid + 1 <= hi + 1
    ensures Heights(lo, hi) == Heights(lo, mid) + Heights(mid + 1, hi)
    decreases mid + 1 - lo
  {
    if lo <= mid {
      HeightsSplit(lo + 1, mid, hi);
      assert Heights(lo, hi) == [lo] + Heights(lo + 1, hi);
      assert Heights(lo, mid) == [lo] + Heights(lo + 1, mid);
    }
  }
}
