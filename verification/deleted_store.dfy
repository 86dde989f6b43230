/** The set of deleted ids kept by the hook: insertion-ordered, trimmed to its
    newest entries once it grows past a threshold. */
module DeletedStore {
  import opened InsertionSet

  const CleanupThreshold := 200
  const CleanupTarget := 100

  /** `addDeletedId`. */
  function AddDeletedId(ids: seq<string>, x: string): (r: seq<string>)
    ensures x in r
    ensures forall y :: y != x ==> (y in r <==> y in ids)
    ensures x in ids ==> r == ids
    ensures x !in ids ==> r == ids + [x]
    ensures NoDup(ids) ==> NoDup(r)
  {
    Add(ids, x)
  }

  /** Adding an id twice is adding it once. */
  lemma AddIdempotent(ids: seq<string>, x: string)
    ensures AddDeletedId(AddDeletedId(ids, x), x) == AddDeletedId(ids, x)
  {
  }

  /** The cleanup effect: above the threshold the set keeps only its newest
      `CleanupTarget` entries, in order; otherwise it is left alone. */
  function Cleanup(ids: seq<string>): (r: seq<string>)
    ensures |ids| <= CleanupThreshold ==> r == ids
    ensures |ids| > CleanupThreshold ==> |r| == CleanupTarget && ids == ids[..|ids| - CleanupTarget] + r
    ensures |r| <= CleanupThreshold
    ensures NoDup(ids) ==> NoDup(r)
  {
    if |ids| > CleanupThreshold then ids[|ids| - CleanupTarget..] else ids
  }

  /** The effect runs again on the trimmed set and leaves it alone. */
  lemma CleanupIdempotent(ids: seq<string>)
    ensures Cleanup(Cleanup(ids)) == Cleanup(ids)
  {
  }

  /** An id that was not yet in the set survives the cleanup that its own
      insertion may trigger. */
  lemma NewIdSurvivesCleanup(ids: seq<string>, x: string)
    requires x !in ids
    ensures x in Cleanup(AddDeletedId(ids, x))
  {
    var added := AddDeletedId(ids, x);
    assert added == ids + [x];
    assert added[|added| - 1] == x;
  }

  /** The cleanup forgets exactly the oldest entries. */
  lemma CleanupForgetsOldest(ids: seq<string>, i: nat)
    requires NoDup(ids) && |ids| > CleanupThreshold && i < |ids|
    ensures ids[i] in Cleanup(ids) <==> i >= |ids| - CleanupTarget
  {
    var r := Cleanup(ids);
    if i >= |ids| - CleanupTarget {
      assert r[i - (|ids| - CleanupTarget)] == ids[i];
    }
  }

  /** `clearDeletedItems`. */
  function ClearDeletedItems(): (r: seq<string>)
    ensures forall y :: y !in r
  {
    []
  }

  /** The rollback of `onError`: `set.delete(itemId)`. */
  function RemoveDeletedId(ids: seq<string>, x: string): (r: seq<string>)
    ensures x !in r
    ensures forall y :: y != x ==> (y in r <==> y in ids)
    ensures IsSubseq(r, ids)
    ensures x !in ids ==> r == ids
    ensures NoDup(ids) ==> NoDup(r)
  {
    Delete(ids, x)
  }
}
