/** The hook's deletion bookkeeping as a state machine: one transition per
    callback or effect, with the clock and network outcomes as parameters. */
module Sync {
  import opened Options
  import opened Nostr
  import opened WishlistTypes
  import opened InsertionSet
  import opened IdOrder
  import opened FilterCodec
  import opened Merge
  import opened View
  import opened DeletedStore
  import opened ItemCodec

  /** The quiet period before the deleted-id list is published. */
  const PublishDelay := 2000

  /** A scheduled `filterEventMutation.mutate(ids)`. */
  datatype Pending = Pending(ids: seq<string>, due: int)

  /** `deletedIds` (state), the cached query data, `lastPublishedIdsRef` and
      the timer held in `publishTimerRef`. */
  datatype State = State(
    deletedIds: seq<string>,
    cache: Option<seq<Item>>,
    lastPublishedIds: seq<string>,
    pending: Option<Pending>)

  predicate Valid(s: State) {
    && NoDup(s.deletedIds)
    && Sorted(s.lastPublishedIds)
    && NoDup(s.lastPublishedIds)
    && (s.pending.Some? ==> NoDup(s.pending.value.ids))
  }

  lemma SortKeepsNoDup(ids: seq<string>)
    ensures NoDup(ids) ==> NoDup(SortIds(ids))
  {
    if NoDup(ids) {
      PermutationNoDup(ids, SortIds(ids));
    }
  }

  /** The first render: the stored ids as a `Set`, no cached list, nothing
      published, no timer. */
  function Init(stored: seq<string>): (s: State)
    ensures Valid(s)
    ensures forall y :: y in s.deletedIds <==> y in stored
    ensures forall i, j :: 0 <= i < j < |s.deletedIds| ==>
      FirstIndex(stored, s.deletedIds[i]) < FirstIndex(stored, s.deletedIds[j])
    ensures NoDup(stored) ==> s.deletedIds == stored
    ensures s.cache.None? && s.pending.None? && s.lastPublishedIds == []
  {
    State(FromSeq(stored), None, [], None)
  }

  /** The list the page shows. */
  function Wishlist(s: State): (w: seq<Item>)
    ensures s.cache.None? ==> w == []
    ensures forall y :: y in w <==> s.cache.Some? && y in s.cache.value && y.id !in s.deletedIds
  {
    Visible(s.cache.GetOr([]), s.deletedIds)
  }

  /** A successful wishlist query replaces the cached list. A failed one
      leaves the state as it is. */
  function QuerySucceeded(s: State, events: seq<Event>): (r: State)
    ensures r.cache.Some? && UniqueIds(r.cache.value) && NewestFirst(r.cache.value)
    ensures r.cache.Some? ==> forall y :: y in r.cache.value ==> IsLastParse(events, y)
    ensures r.cache.Some? ==> CoversParsedIds(events, r.cache.value)
    ensures r.deletedIds == s.deletedIds && r.lastPublishedIds == s.lastPublishedIds
    ensures r.pending == s.pending
    ensures Valid(s) ==> Valid(r)
  {
    s.(cache := Some(MergeEvents(events)))
  }

  /** The delete mutation's `onMutate(itemId)`: the id is recorded as deleted,
      the cached list loses its items with that id, and the previous list is
      returned as the rollback context. */
  function OnMutate(s: State, x: string): (r: (State, Option<seq<Item>>))
    ensures x in r.0.deletedIds
    ensures forall y :: y != x ==> (y in r.0.deletedIds <==> y in s.deletedIds)
    ensures x in s.deletedIds ==> r.0.deletedIds == s.deletedIds
    ensures x !in s.deletedIds ==> r.0.deletedIds == s.deletedIds + [x]
    ensures r.1 == s.cache
    ensures r.0.cache.Some? <==> s.cache.Some?
    ensures s.cache.Some? ==>
      && (forall y :: y in r.0.cache.value <==> y in s.cache.value && y.id != x)
      && (forall y :: multiset(r.0.cache.value)[y] == if y.id == x then 0 else multiset(s.cache.value)[y])
      && IsSubseq(r.0.cache.value, s.cache.value)
    ensures r.0.lastPublishedIds == s.lastPublishedIds && r.0.pending == s.pending
    ensures Valid(s) ==> Valid(r.0)
  {
    var deleted := AddDeletedId(s.deletedIds, x);
    var cache := match s.cache
      case Some(previous) => Some(Visible(previous, [x]))
      case None => None;
    (s.(deletedIds := deleted, cache := cache), s.cache)
  }

  /** The delete mutation's `onError`: the id is removed from the deleted set
      and a defined snapshot is put back into the cache. */
  function OnDeleteError(s: State, x: string, previous: Option<seq<Item>>): (r: State)
    ensures x !in r.deletedIds
    ensures forall y :: y != x ==> (y in r.deletedIds <==> y in s.deletedIds)
    ensures IsSubseq(r.deletedIds, s.deletedIds)
    ensures x !in s.deletedIds ==> r.deletedIds == s.deletedIds
    ensures r.cache == if previous.Some? then previous else s.cache
    ensures r.lastPublishedIds == s.lastPublishedIds && r.pending == s.pending
    ensures Valid(s) ==> Valid(r)
  {
    var cache := if previous.Some? then previous else s.cache;
    s.(deletedIds := RemoveDeletedId(s.deletedIds, x), cache := cache)
  }

  /** The cleanup effect that follows every change of `deletedIds`. */
  function CleanupEffect(s: State): (r: State)
    ensures |r.deletedIds| <= CleanupThreshold
    ensures forall y :: y in r.deletedIds ==> y in s.deletedIds
    ensures |s.deletedIds| <= CleanupThreshold ==> r.deletedIds == s.deletedIds
    ensures |s.deletedIds| > CleanupThreshold ==>
      |r.deletedIds| == CleanupTarget &&
      s.deletedIds == s.deletedIds[..|s.deletedIds| - CleanupTarget] + r.deletedIds
    ensures r.cache == s.cache && r.lastPublishedIds == s.lastPublishedIds && r.pending == s.pending
    ensures Valid(s) ==> Valid(r)
  {
    s.(deletedIds := Cleanup(s.deletedIds))
  }

  /** The effect on a newly loaded filter event: its ids replace the deleted
      set, and their sorted list is recorded as already published. */
  function LoadRemoteFilter(s: State, latest: Option<Event>): (r: State)
    ensures latest.None? ==> r == s
    ensures latest.Some? ==> r.deletedIds == ParseFilterEventIds(latest)
    ensures latest.Some? ==> multiset(r.lastPublishedIds) == multiset(r.deletedIds)
    ensures r.cache == s.cache && r.pending == s.pending
    ensures Valid(s) ==> Valid(r)
  {
    match latest
    case None => s
    case Some(_) =>
      var ids := ParseFilterEventIds(latest);
      PermutationNoDup(ids, SortIds(ids));
      s.(deletedIds := ids, lastPublishedIds := SortIds(ids))
  }

  /** The publish effect. The previous run's cleanup has cleared any pending
      timer; a new one is set when a user is logged in and the sorted deleted
      ids differ from the last published list. */
  function PublishEffect(s: State, loggedIn: bool, nowMs: int): (r: State)
    ensures r.deletedIds == s.deletedIds && r.cache == s.cache
    ensures r.lastPublishedIds == s.lastPublishedIds
    ensures r.pending.Some? <==> loggedIn && SortIds(s.deletedIds) != s.lastPublishedIds
    ensures r.pending.Some? ==>
      && r.pending.value.due == nowMs + PublishDelay
      && Sorted(r.pending.value.ids)
      && multiset(r.pending.value.ids) == multiset(s.deletedIds)
    ensures Valid(s) ==> Valid(r)
  {
    var ids := SortIds(s.deletedIds);
    SortKeepsNoDup(s.deletedIds);
    var pending :=
      if loggedIn && !AreSameIdList(ids, s.lastPublishedIds) then Some(Pending(ids, nowMs + PublishDelay))
      else None;
    s.(pending := pending)
  }

  /** The clock reaches `nowMs`: a due timer fires and hands its list to the
      filter-event mutation. */
  function TimerFired(s: State, nowMs: int): (r: (State, Option<seq<string>>))
    ensures r.1.Some? <==> s.pending.Some? && s.pending.value.due <= nowMs
    ensures r.1.Some? ==> r.1.value == s.pending.value.ids && r.0.pending.None?
    ensures r.1.None? ==> r.0 == s
    ensures r.0.deletedIds == s.deletedIds && r.0.cache == s.cache
    ensures r.0.lastPublishedIds == s.lastPublishedIds
    ensures Valid(s) ==> Valid(r.0) && (r.1.Some? ==> NoDup(r.1.value))
  {
    match s.pending
    case Some(p) =>
      if p.due <= nowMs then (s.(pending := None), Some(p.ids)) else (s, None)
    case None => (s, None)
  }

  /** The filter-event mutation's `onSuccess`: the published list, sorted,
      becomes the last published list. A failure changes nothing. */
  function OnPublishSuccess(s: State, ids: seq<string>): (r: State)
    ensures Sorted(r.lastPublishedIds) && multiset(r.lastPublishedIds) == multiset(ids)
    ensures r.deletedIds == s.deletedIds && r.cache == s.cache && r.pending == s.pending
    ensures Valid(s) && NoDup(ids) ==> Valid(r)
  {
    var sorted := SortIds(ids);
    SortKeepsNoDup(ids);
    s.(lastPublishedIds := sorted)
  }

  /** `clearDeletedItems`. */
  function ClearDeleted(s: State): (r: State)
    ensures r.deletedIds == [] && Wishlist(r) == s.cache.GetOr([])
    ensures r.cache == s.cache && r.lastPublishedIds == s.lastPublishedIds && r.pending == s.pending
    ensures Valid(s) ==> Valid(r)
  {
    NothingDeletedShowsAll(s.cache.GetOr([]));
    s.(deletedIds := ClearDeletedItems())
  }

  /** Rollback: after `onMutate(x)` and a failed publish, the cache is the
      snapshot again and `x` is not deleted. An id that was not deleted before
      leaves the set exactly as it was; one that was deleted before is removed
      from it all the same. */
  lemma RollbackRestores(s: State, x: string)
    requires Valid(s)
    ensures var (m, previous) := OnMutate(s, x);
      var r := OnDeleteError(m, x, previous);
      && r.cache == s.cache
      && x !in r.deletedIds
      && (x !in s.deletedIds ==> r.deletedIds == s.deletedIds)
      && (x in s.deletedIds ==> r.deletedIds == RemoveDeletedId(s.deletedIds, x))
      && r.lastPublishedIds == s.lastPublishedIds && r.pending == s.pending
  {
    if x !in s.deletedIds {
      DeleteAppended(s.deletedIds, x);
    }
  }

  /** What the hook does between the optimistic delete and its outcome without
      touching the deleted set: query results (also ones started before the
      delete), further deletes, publish effects, timers and publish outcomes. */
  datatype Step =
    | QueryResult(events: seq<Event>)
    | DeleteAnother(id: string)
    | Effect(loggedIn: bool, nowMs: int)
    | Timer(nowMs: int)
    | Published(ids: seq<string>)

  function Apply(s: State, step: Step): State {
    match step
    case QueryResult(events) => QuerySucceeded(s, events)
    case DeleteAnother(id) => OnMutate(s, id).0
    case Effect(loggedIn, nowMs) => PublishEffect(s, loggedIn, nowMs)
    case Timer(nowMs) => TimerFired(s, nowMs).0
    case Published(ids) => OnPublishSuccess(s, ids)
  }

  function RunSteps(s: State, steps: seq<Step>): State
    decreases |steps|
  {
    if |steps| == 0 then s else RunSteps(Apply(s, steps[0]), steps[1..])
  }

  /** A deleted id stays deleted, and hidden, through any such steps. */
  lemma {:induction false} DeletionSticks(s: State, x: string, steps: seq<Step>)
    requires x in s.deletedIds
    ensures x in RunSteps(s, steps).deletedIds
    ensures forall y :: y in Wishlist(RunSteps(s, steps)) ==> y.id != x
    decreases |steps|
  {
    if |steps| > 0 {
      DeletionSticks(Apply(s, steps[0]), x, steps[1..]);
    }
  }

  /** Once `onMutate(x)` ran, item `x` is absent from the shown list, even when
      a query started before the delete later returns it. */
  lemma OptimisticDeleteHides(s: State, x: string, steps: seq<Step>)
    ensures forall y :: y in Wishlist(RunSteps(OnMutate(s, x).0, steps)) ==> y.id != x
  {
    DeletionSticks(OnMutate(s, x).0, x, steps);
  }

  /** A remote load is not among those steps, and with it the guarantee
      fails: a deletion-list event for the empty list that arrives after the
      delete replaces the local set, and the deleted item shows again once
      the items query returns it. */
  lemma RemoteLoadCanUnhide(pubkey: string, p: Payload, freshId: string, nowMs: int,
                            filterEventId: string, itemEventId: string)
    requires p.id == Some("x")
    ensures var deleted := OnMutate(Init([]), "x").0;
      var loaded := LoadRemoteFilter(deleted, Some(Sign(BuildFilterEvent(pubkey, [], nowMs), filterEventId)));
      var queried := QuerySucceeded(loaded, [Sign(BuildEvent(pubkey, p, freshId, nowMs), itemEventId)]);
      && "x" in deleted.deletedIds
      && Expected(p, freshId, nowMs, itemEventId) in Wishlist(queried)
      && Expected(p, freshId, nowMs, itemEventId).id == "x"
  {
    var deleted := OnMutate(Init([]), "x").0;
    var filterEvent := Sign(BuildFilterEvent(pubkey, [], nowMs), filterEventId);
    FilterCodec.RoundTrip(pubkey, [], nowMs, filterEventId);
    var loaded := LoadRemoteFilter(deleted, Some(filterEvent));
    assert loaded.deletedIds == [];
    var itemEvent := Sign(BuildEvent(pubkey, p, freshId, nowMs), itemEventId);
    var x := Expected(p, freshId, nowMs, itemEventId);
    ItemCodec.RoundTrip(pubkey, p, freshId, nowMs, itemEventId);
    LastEventWins([itemEvent], 0, x);
  }

  /** The publish decision compares sets: a timer is set exactly when a user
      is logged in and the deleted ids differ, as a set, from the last
      published ones. Insertion order plays no part. */
  lemma PublishIffSetsDiffer(s: State, loggedIn: bool, nowMs: int)
    requires Valid(s)
    ensures PublishEffect(s, loggedIn, nowMs).pending.Some? <==>
      loggedIn && !(forall y :: y in s.deletedIds <==> y in s.lastPublishedIds)
  {
    SortSorted(s.lastPublishedIds);
    SortedEqualIffSameSet(s.deletedIds, s.lastPublishedIds);
  }

  /** After a remote filter event is loaded, the publish effect has nothing
      to schedule. */
  lemma RemoteLoadSchedulesNothing(s: State, e: Event, loggedIn: bool, nowMs: int)
    ensures PublishEffect(LoadRemoteFilter(s, Some(e)), loggedIn, nowMs).pending.None?
  {
  }

  /** The remote list replaces the local one: a locally deleted id missing
      from the remote list is no longer deleted. */
  lemma RemoteLoadOverwrites(s: State, e: Event, x: string)
    requires x in s.deletedIds && x !in ParseFilterEventIds(Some(e))
    ensures x !in LoadRemoteFilter(s, Some(e)).deletedIds
  {
  }

  /** The list one device publishes is the deleted set another device adopts:
      same ids, and no republication is scheduled there. */
  lemma PublishedListIsAdopted(a: State, b: State, loggedIn: bool, t0: int, t1: int,
                               pubkey: string, eventId: string)
    requires Valid(a)
    requires PublishEffect(a, true, t0).pending.Some?
    ensures var ids := PublishEffect(a, true, t0).pending.value.ids;
      var e := Sign(BuildFilterEvent(pubkey, ids, t1), eventId);
      var r := LoadRemoteFilter(b, Some(e));
      && (forall y :: y in r.deletedIds <==> y in a.deletedIds)
      && PublishEffect(r, loggedIn, t1).pending.None?
  {
    var ids := PublishEffect(a, true, t0).pending.value.ids;
    PermutationNoDup(a.deletedIds, ids);
    FilterCodec.RoundTrip(pubkey, ids, t1, eventId);
    forall y ensures y in ids <==> y in a.deletedIds {
      assert y in ids <==> y in multiset(ids);
    }
  }

  /** A successful publish settles the list: once the scheduled list has been
      published and the deleted set has not changed, nothing is rescheduled. */
  lemma PublishSuccessSettles(s: State, loggedIn: bool, t0: int, t1: int, t2: int)
    requires PublishEffect(s, true, t0).pending.Some?
    requires t1 >= t0 + PublishDelay
    ensures var scheduled := PublishEffect(s, true, t0);
      var (fired, ids) := TimerFired(scheduled, t1);
      && ids.Some?
      && PublishEffect(OnPublishSuccess(fired, ids.value), loggedIn, t2).pending.None?
  {
    var ids := SortIds(s.deletedIds);
    SortSorted(ids);
  }

  /** Clearing the deleted items after a non-empty list was published
      schedules the publication of an empty list. */
  lemma ClearPublishesEmptyList(s: State, nowMs: int)
    requires s.lastPublishedIds != []
    ensures PublishEffect(ClearDeleted(s), true, nowMs).pending == Some(Pending([], nowMs + PublishDelay))
  {
  }

  /** When the set outgrows the threshold after its full list was published,
      the cleanup makes the next publication carry only the newest entries. */
  lemma CleanupShrinksNextPublication(s: State, nowMs: int)
    requires Valid(s) && |s.deletedIds| > CleanupThreshold
    requires s.lastPublishedIds == SortIds(s.deletedIds)
    ensures var p := PublishEffect(CleanupEffect(s), true, nowMs).pending;
      && p.Some?
      && multiset(p.value.ids) == multiset(s.deletedIds[|s.deletedIds| - CleanupTarget..])
  {
    var kept := Cleanup(s.deletedIds);
    assert |SortIds(kept)| == |kept| by {
      assert |multiset(SortIds(kept))| == |multiset(kept)|;
    }
    assert |SortIds(s.deletedIds)| == |s.deletedIds| by {
      assert |multiset(SortIds(s.deletedIds))| == |multiset(s.deletedIds)|;
    }
  }

  /** Deleting `b` from the list `[a, b]`: only `a` is shown at once, and the
      timer set by the effect publishes exactly `["b"]`, not before the quiet
      period has passed. */
  lemma SingleDeleteExample(a: Item, b: Item, t: int)
    requires a.id == "a" && b.id == "b"
    ensures var (m, _) := OnMutate(State([], Some([a, b]), [], None), "b");
      var e := PublishEffect(m, true, t);
      && Wishlist(m) == [a]
      && m.deletedIds == ["b"]
      && TimerFired(e, t + PublishDelay - 1).1.None?
      && TimerFired(e, t + PublishDelay).1 == Some(["b"])
  {
    var (m, _) := OnMutate(State([], Some([a, b]), [], None), "b");
    assert [a, b][1..] == [b];
    assert Visible([a, b], ["b"]) == [a];
    assert Visible([a], ["b"]) == [a];
    assert SortIds(["b"]) == ["b"];
  }

  /** Two deletes 500 ms apart: the second effect replaces the first timer,
      and a single publication carries both ids. */
  lemma CoalescedDeletesExample(t: int)
    ensures var s1 := PublishEffect(OnMutate(State([], None, [], None), "a").0, true, t);
      var s2 := PublishEffect(OnMutate(s1, "b").0, true, t + 500);
      && TimerFired(s2, t + PublishDelay).1.None?
      && TimerFired(s2, t + 500 + PublishDelay).1 == Some(["a", "b"])
  {
    var m1 := OnMutate(State([], None, [], None), "a").0;
    assert m1 == State(["a"], None, [], None);
    assert SortIds(["a"]) == ["a"];
    var s1 := PublishEffect(m1, true, t);
    assert s1 == State(["a"], None, [], Some(Pending(["a"], t + PublishDelay)));
    var m2 := OnMutate(s1, "b").0;
    assert m2.deletedIds == ["a", "b"];
    assert SortIds(["a", "b"]) == ["a", "b"] by {
      assert SortIds(["b"]) == ["b"];
      assert Le("a", "b");
    }
    var s2 := PublishEffect(m2, true, t + 500);
    assert s2.pending == Some(Pending(["a", "b"], t + 500 + PublishDelay));
  }
}
