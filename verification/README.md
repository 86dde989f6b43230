# satslist wishlist sync, modelled in Dafny

This project models the core of satslist's `useWishlist` hook. satslist keeps a
wishlist as Nostr events: every item is an addressable event of kind 30078
that holds its data as a JSON `item` tag. The hook reads the list back from
the relays, and it deletes items optimistically. Deleted ids are kept in a
local set. That set is also published as a kind-17779 "filter event", so
other devices hide the same items.

The model consists of:

- `QueryGateway`: the module-wide throttled query queue (`enqueueQuery`).
- `IdOrder`: `sortIds` and `areSameIdList`.
- `ItemCodec`: `buildEvent` and `parseWishlistEvent`, with their round trip.
- `FilterCodec`: the filter event and `parseFilterEventIds`, with their round trip.
- `Merge`: the query result fold into a `Map` keyed by logical id, then the
  newest-first sort.
- `View`: the visible list (the query result minus deleted ids) and `stats`.
- `DeletedStore`: the deleted-id `Set` and its size cleanup.
- `Sync`: the hook's state and its transitions. These are the delete
  mutation's `onMutate` and `onError`, the cleanup effect, the remote
  filter-event load, the debounced publish effect with its timer, the publish
  success, and `clearDeletedItems`.
- Supporting modules: `Json` (JSON values and text), `Nostr` (event
  envelope, tags), `InsertionSet` (a JS `Set` as an insertion-ordered list
  without duplicates), `WishlistTypes` and `Options`.

Inputs that come from outside the program are parameters:

- the clock (milliseconds);
- `crypto.randomUUID()` (a `freshId`);
- the signer's event id;
- whether a user is logged in;
- the relay's answers, as event lists, or as success or rejection.

Each React callback or effect run is one transition. The environment may
take these transitions in any order. This covers effect re-runs triggered by
any of an effect's dependencies.

In three places the code decides a question one might expect to go the
other way. The model follows the code in each:

- **Duplicate item events.** When several events carry the same logical id,
  the list keeps the one that comes last in the relay's answer, not the one
  with the newest `created_at` (`Merge.LastEventWins`,
  `Merge.OlderReplayWins`).
- **Loading a remote filter event.** The remote ids replace the local
  deleted set instead of being merged into it
  (`Sync.RemoteLoadOverwrites`). A stale filter event can therefore bring a
  deleted item back (`Sync.RemoteLoadCanUnhide`).
- **A failed delete.** The id is removed from the deleted set even when it
  was already deleted before the attempt (`Sync.RollbackRestores`).

## Model

| member | source | states |
|---|---|---|
| QueryGateway.Wait | src/hooks/useWishlist.ts:23-24 | No wait once 2000 ms have passed since the last query started; otherwise the wait ends exactly 2000 ms after that start |
| QueryGateway.StartTime | src/hooks/useWishlist.ts:23-29 | A query starts no earlier than its turn and at least 2000 ms after the previous start; it starts at once when enough time has passed |
| QueryGateway.TurnAsWritten | src/hooks/useWishlist.ts:21-34 | On a rejected queue the callback is skipped and the queue stays rejected; otherwise the query runs at its start time and the queue takes on the query's outcome |
| QueryGateway.RunAsWritten | src/hooks/useWishlist.ts:21-34 | Each enqueued query gets exactly one outcome |
| QueryGateway.RejectedQueueRunsNothing | src/hooks/useWishlist.ts:22 | Once the queue promise is rejected, no later query runs |
| QueryGateway.OneRejectionPoisonsQueue | src/hooks/useWishlist.ts:22-33 | After any query that rejects, every later query rejects without running |
| QueryGateway.PoisonedQueueExample | src/hooks/useWishlist.ts:21-34 | A rejected load at t=0 makes a fresh load at t=5000 reject without running |
| QueryGateway.TurnCorrected | src/hooks/useWishlist.ts:21-34 | With failures handled, every turn runs, its success mirrors the query's, and it starts at least 2000 ms after the last start |
| QueryGateway.RunCorrected | src/hooks/useWishlist.ts:21-34 | With failures handled, every query runs, with its own outcome, and the first starts at least 2000 ms after the last recorded start |
| QueryGateway.CorrectedQueueThrottles | src/hooks/useWishlist.ts:10 | With failures handled, any two queries start at least 2000 ms apart |
| QueryGateway.AgreeWithoutRejections | src/hooks/useWishlist.ts:21-34 | While no query rejects, the queue as written and the corrected queue behave identically |
| QueryGateway.CorrectedQueueExample | src/hooks/useWishlist.ts:21-34 | With failures handled, the fresh load after a rejected one runs at t=5000 |
| IdOrder.Insert | src/hooks/useWishlist.ts:36 | One insertion step adds exactly the one element |
| IdOrder.LeReflexive | src/hooks/useWishlist.ts:36 | The order `sortIds` uses puts every id at or before itself |
| IdOrder.LeTotal | src/hooks/useWishlist.ts:36 | Any two ids are comparable |
| IdOrder.LeAntisymmetric | src/hooks/useWishlist.ts:36 | Two ids each at or before the other are equal |
| IdOrder.LeTransitive | src/hooks/useWishlist.ts:36 | The order is transitive |
| IdOrder.InsertSorted | src/hooks/useWishlist.ts:36 | Inserting into a sorted list keeps it sorted |
| IdOrder.SortIds | src/hooks/useWishlist.ts:36 | The result is sorted by character-code order and is a permutation of the input |
| IdOrder.SortedUnique | src/hooks/useWishlist.ts:36 | Two sorted permutations of the same list are equal, so the sort result is determined by the multiset of ids |
| IdOrder.AreSameIdList | src/hooks/useWishlist.ts:37 | True exactly when the two lists are equal |
| IdOrder.SortedEqualIffPermutation | src/hooks/useWishlist.ts:36-37 | Sorting two lists gives the same list exactly when they are permutations of each other |
| IdOrder.SortedEqualIffSameSet | src/hooks/useWishlist.ts:351-352 | For duplicate-free lists, the sorted list equals a sorted list exactly when both lists hold the same set of ids |
| IdOrder.PermutationNoDup | src/hooks/useWishlist.ts:351 | A permutation of a duplicate-free list is duplicate-free |
| InsertionSet.Add | src/hooks/useWishlist.ts:162-163 | `Set.add`: the element becomes a member, nothing else changes, a present element leaves the order as is, and a new one is appended |
| InsertionSet.Delete | src/hooks/useWishlist.ts:277-278 | `Set.delete`: the element is no longer a member, the others stay in their order, and an absent element changes nothing |
| InsertionSet.FromSeq | src/hooks/useWishlist.ts:106 | `Array.from(new Set(xs))`: no duplicates, the same members, ordered by first occurrence, and a duplicate-free list is returned unchanged |
| ItemCodec.BuildEvent | src/hooks/useWishlist.ts:39-64 | Kind 30078, the caller's pubkey, creation time in whole seconds; the `d` tag holds the payload id or else the fresh UUID; the `t` tag is the community tag |
| Nostr.Seconds | src/hooks/useWishlist.ts:61 | `Math.floor(ms / 1000)`: the whole seconds up to the given millisecond time |
| Nostr.FindTag | src/hooks/useWishlist.ts:67 | `tags.find`: none exactly when no tag has the name; otherwise the first tag with that name |
| ItemCodec.ItemBlob | src/hooks/useWishlist.ts:67-71 | A blob exactly when an `item` tag exists and its second entry is JSON text; the blob is what that text encodes |
| ItemCodec.ReadOptionalString | src/hooks/useWishlist.ts:77-79 | `?? undefined` on a string field: readable exactly when missing, null or a string, and then the value it holds or none |
| ItemCodec.ReadOptionalNumber | src/hooks/useWishlist.ts:81-83 | `?? undefined` on a numeric field: readable exactly when missing, null or a number, and then the value it holds or none |
| ItemCodec.RequiredString | src/hooks/useWishlist.ts:76 | `payload.title`: readable exactly when the field is a string, and then that string |
| ItemCodec.RequiredNumber | src/hooks/useWishlist.ts:80 | `payload.targetPriceSats`: readable exactly when the field is a number, and then that number |
| ItemCodec.DecodeItem | src/hooks/useWishlist.ts:71-88 | An item exactly when every field read has a type the item can carry; the item's title, target and optional fields are what the blob holds (missing or null read as none), its status the blob's or else "dreaming"; the event supplies `eventId` and `createdAt`; a missing or null `id` field falls back to the event id, otherwise the item id is the field's string |
| ItemCodec.ParseWishlistEvent | src/hooks/useWishlist.ts:66-93 | No `item` tag, an unparsable or missing blob, or a `null` blob gives null; a parsed item takes its `eventId` and `createdAt` from the event and its id from the blob or else the event id |
| ItemCodec.ParseReadsBlob | src/hooks/useWishlist.ts:66-93 | An event parses exactly when its `item` tag parses to a blob whose fields are well typed, and the item then carries the blob's title, target, optional fields and status (a missing or null status read as "dreaming") |
| ItemCodec.BuiltBlob | src/hooks/useWishlist.ts:44-54 | The `item` tag of a built event parses to the object that was written |
| ItemCodec.DecodeEncoded | src/hooks/useWishlist.ts:71-88 | Decoding the written object gives back every payload field, no current price and status "dreaming" |
| ItemCodec.DecodeReadsPriceAndStatus | src/hooks/useWishlist.ts:71-88 | A blob that also carries `currentPriceSats` and `status` decodes to an item with that current price and that status, and every written field as before |
| ItemCodec.NullableRoundTrip | src/hooks/useWishlist.ts:47-53 | Writing `?? null` and reading `?? undefined` give back the optional value |
| ItemCodec.RoundTrip | src/hooks/useWishlist.ts:39-93 | Parsing a signed built event gives back every written field, the payload id or else the fresh id, no current price, and status "dreaming" |
| ItemCodec.DTagMatchesParsedId | src/hooks/useWishlist.ts:40-42 | The `d` tag of a built event names the id its parsed item carries |
| FilterCodec.BuildFilterEvent | src/hooks/useWishlist.ts:323-332 | Kind 17779, the caller's pubkey, creation time in seconds, and the `t` and `d` tags of the deleted list |
| FilterCodec.ContentArray | src/hooks/useWishlist.ts:101-102 | An element list exactly when the content is JSON text for an array; the list is that array's elements |
| FilterCodec.StringElements | src/hooks/useWishlist.ts:106 | `filter(v => typeof v === 'string')`: a string is kept exactly when the array holds it, and the result is no longer than the array |
| FilterCodec.StringElementsAppend | src/hooks/useWishlist.ts:106 | Filtering two joined arrays gives the two filtered lists joined |
| FilterCodec.SingleStringElement | src/hooks/useWishlist.ts:106 | One element is kept exactly when it is a string |
| FilterCodec.StringElementsKeepOrder | src/hooks/useWishlist.ts:106 | Of two kept strings, the one first among the kept strings is also first in the array |
| FilterCodec.DistinctInArrayOrder | src/hooks/useWishlist.ts:106 | The distinct kept strings come in the order of their first occurrence in the array |
| FilterCodec.ParseFilterEventIds | src/hooks/useWishlist.ts:95-111 | No duplicates; empty for a missing event or content that is not a JSON array; an id is returned exactly when it is a string element of the array, and the ids come in the order of their first occurrence in the array |
| FilterCodec.StringElementsOfStrings | src/hooks/useWishlist.ts:106 | Keeping the string elements of an array of strings gives the whole list |
| FilterCodec.RoundTrip | src/hooks/useWishlist.ts:95-111 | A duplicate-free id list published in a filter event parses back to the same list |
| FilterCodec.RoundTripDeduplicates | src/hooks/useWishlist.ts:106 | Any published list parses back to its duplicate-free version in first-occurrence order |
| Merge.Upsert | src/hooks/useWishlist.ts:193 | `Map.set`: the new item is present, entries for other ids stay, and nothing else is added |
| Merge.UpsertUnique | src/hooks/useWishlist.ts:193 | `Map.set` keeps ids unique and leaves the new item as the only entry for its id |
| Merge.Step | src/hooks/useWishlist.ts:191-195 | An event that does not parse leaves the map as is; a parsed item is set, entries for other ids stay, and nothing else is added |
| Merge.Collect | src/hooks/useWishlist.ts:190-196 | One entry per id; every entry is the parse of the last event for its id; every id some event parses to is present |
| Merge.InsertNewestFirst | src/hooks/useWishlist.ts:198 | One step of the sort adds exactly the one item |
| Merge.SortNewestFirst | src/hooks/useWishlist.ts:198 | Ordered by `createdAt` descending, a permutation of the map's values, unique ids preserved |
| Merge.MergeEvents | src/hooks/useWishlist.ts:190-198 | Newest first; one entry per id; each entry is the parse of the last event with its id; no parsed id is missing |
| Merge.MergedItemsAreParsed | src/hooks/useWishlist.ts:190-196 | Every listed item is the parse of some event in the answer |
| Merge.LastEventWins | src/hooks/useWishlist.ts:190-196 | The parse of the last event for an id is in the list, and it is the only entry with that id |
| Merge.LaterDuplicateWins | src/hooks/useWishlist.ts:190-198 | Of two events for the same id, the list holds only the later one's item |
| Merge.OlderReplayWins | src/hooks/useWishlist.ts:190-196 | Built events for a newer and then an older version of an item leave only the older version, with its older creation time |
| View.Visible | src/hooks/useWishlist.ts:372-375 | An item is shown exactly when it is in the query result and its id is not deleted, as often as it occurs there; order is preserved |
| View.Hidden | src/hooks/useWishlist.ts:373 | The items the filter removes are exactly those with deleted ids |
| View.CountReady | src/hooks/useWishlist.ts:379 | At most the count; equal to it exactly when all items are ready; zero exactly when none is |
| View.TotalTarget | src/hooks/useWishlist.ts:378 | Non-negative when all targets are |
| View.SingleItemStats | src/hooks/useWishlist.ts:378-379 | One item counts as ready exactly when it is ready, and the total is its target |
| View.CountReadyAppend | src/hooks/useWishlist.ts:379 | The ready count of two concatenated lists is the sum of their ready counts |
| View.TotalTargetAppend | src/hooks/useWishlist.ts:378 | The target total of two concatenated lists is the sum of their totals |
| View.ComputeStats | src/hooks/useWishlist.ts:377-386 | The count is the list length, the ready count is the number of ready items and the total is the sum of the targets (both additive over concatenation); the ready count is zero when no current prices are known, and equals the count exactly when all items are ready |
| View.FilterPartitionsStats | src/hooks/useWishlist.ts:372-386 | Count, ready count and target total of the visible and the hidden items add up to those of the whole result |
| View.NothingDeletedShowsAll | src/hooks/useWishlist.ts:373 | With no deleted ids the whole result is shown |
| View.TwoItemExample | src/hooks/useWishlist.ts:377-386 | Targets 500000 (current price 400000) and 1000000 (current price 1200000) give count 2, one ready item, total 1500000 |
| DeletedStore.AddDeletedId | src/hooks/useWishlist.ts:160-166 | The id becomes a member, no other membership changes, no duplicates; a present id leaves the list as is, and a new one is appended last |
| DeletedStore.AddIdempotent | src/hooks/useWishlist.ts:160-166 | Adding the same id twice equals adding it once |
| DeletedStore.Cleanup | src/hooks/useWishlist.ts:149-156 | At most 200 ids are left untouched; a larger set keeps exactly its 100 newest ids, in order |
| DeletedStore.CleanupIdempotent | src/hooks/useWishlist.ts:149-156 | A second cleanup changes nothing |
| DeletedStore.NewIdSurvivesCleanup | src/hooks/useWishlist.ts:149-166 | A newly added id is never trimmed away |
| DeletedStore.CleanupForgetsOldest | src/hooks/useWishlist.ts:150-153 | In an oversized set, an id survives exactly when it is among the 100 most recently added |
| DeletedStore.ClearDeletedItems | src/hooks/useWishlist.ts:405-408 | The cleared set has no members |
| DeletedStore.RemoveDeletedId | src/hooks/useWishlist.ts:276-280 | The id stops being a member; the others keep their membership and order; an absent id leaves the list unchanged |
| Sync.Init | src/hooks/useWishlist.ts:145-147 | The first render holds the stored ids without duplicates, in the order of their first occurrence (a duplicate-free list unchanged), with no cached list, no published list and no timer |
| Sync.Wishlist | src/hooks/useWishlist.ts:371-375 | Without a query result nothing is shown; otherwise an item is shown exactly when it is in the result and its id is not deleted |
| Sync.QuerySucceeded | src/hooks/useWishlist.ts:186-198 | A query result becomes the cache, with unique ids, newest first; each cached item is the parse of the last event for its id, and no parsed id is missing; the deleted set and the timer are untouched |
| Sync.OnMutate | src/hooks/useWishlist.ts:253-266 | The id becomes deleted: an already deleted id leaves the set unchanged and a new one is appended last; a cached list loses exactly the items with that id and keeps every other occurrence, in order; the previous cache is the rollback context |
| Sync.OnDeleteError | src/hooks/useWishlist.ts:271-285 | The id is no longer deleted; the other deleted ids keep their membership and order, and an id that was not deleted changes nothing; a defined context replaces the cache; nothing else changes |
| Sync.CleanupEffect | src/hooks/useWishlist.ts:149-158 | At most 200 ids are left as they are; a larger set is cut to its last 100 ids, in order |
| Sync.LoadRemoteFilter | src/hooks/useWishlist.ts:309-317 | No event changes nothing; an event's ids replace the deleted set and, sorted, become the last published list |
| Sync.PublishEffect | src/hooks/useWishlist.ts:348-369 | A timer is pending afterwards exactly when a user is logged in and the sorted deleted ids differ from the last published list; it is due 2000 ms later with the sorted ids |
| Sync.TimerFired | src/hooks/useWishlist.ts:360-362 | A timer that is due fires exactly once and hands over its list; an early tick changes nothing |
| Sync.OnPublishSuccess | src/hooks/useWishlist.ts:338-341 | The published list, sorted, becomes the last published list |
| Sync.ClearDeleted | src/hooks/useWishlist.ts:405-408 | Nothing is deleted any more and the whole cached list is shown |
| Sync.RollbackRestores | src/hooks/useWishlist.ts:253-285 | A failed delete restores the cache; a previously live id leaves the deleted set exactly as before; a previously deleted id is removed from it |
| Sync.DeletionSticks | src/hooks/useWishlist.ts:371-375 | A deleted id stays deleted and hidden through query results, other deletes, publish effects, timers and publish successes |
| Sync.OptimisticDeleteHides | src/hooks/useWishlist.ts:253-263 | After `onMutate(x)` item x is not shown through query results (also from queries started before the delete), other deletes, publish effects, timers and publish successes |
| Sync.RemoteLoadCanUnhide | src/hooks/useWishlist.ts:309-317 | A filter event for the empty list, loaded after the delete of x, lets x be shown again once a query returns it |
| Sync.PublishIffSetsDiffer | src/hooks/useWishlist.ts:348-362 | A publication is scheduled exactly when logged in and the deleted ids differ as a set from the last published ids |
| Sync.RemoteLoadSchedulesNothing | src/hooks/useWishlist.ts:311-317 | Right after a remote filter event is loaded, the publish effect schedules nothing |
| Sync.RemoteLoadOverwrites | src/hooks/useWishlist.ts:314-316 | A locally deleted id missing from the remote list is no longer deleted after the load |
| Sync.PublishedListIsAdopted | src/hooks/useWishlist.ts:319-337 | The list one device publishes, loaded on another device, gives it the same deleted set and schedules no republication there |
| Sync.PublishSuccessSettles | src/hooks/useWishlist.ts:338-354 | Once a scheduled list fires and is published, the next effect schedules nothing |
| Sync.ClearPublishesEmptyList | src/hooks/useWishlist.ts:405-408 | Clearing after a non-empty publication schedules an empty list 2000 ms later |
| Sync.CleanupShrinksNextPublication | src/hooks/useWishlist.ts:149-156 | After an oversized published set is trimmed, the next publication carries just the 100 newest ids |
| Sync.SingleDeleteExample | src/hooks/useWishlist.ts:253-263 | Deleting b from [a, b] shows [a] at once and publishes ["b"] exactly 2000 ms after the effect |
| Sync.CoalescedDeletesExample | src/hooks/useWishlist.ts:356-362 | Deletes of a and b 500 ms apart give one publication of ["a", "b"], 2000 ms after the second |

## Left out

- The kind-5 retraction event built in the delete mutation (useWishlist.ts:236-251) is not modelled. It is signed and sent only for its side effect on relays. The model keeps just its success or failure, as the choice between doing nothing and `onDeleteError`.
- The add-item mutation (useWishlist.ts:212-233) is not modelled beyond `buildEvent`. What remains is signing, sending and a refetch, and their only effect is a later query result.
- `localStorage` (useWishlist.ts:115-131, 406) is not modelled: the stored list is `Init`'s parameter, and persisting is a side effect outside the state.
- Logging, `lastPublishError`, `lastPublishSuccess` and the rate-limit warning string (useWishlist.ts:183-205, 222-231) are not modelled, because they are display state only.
- QueryGateway.RunAsWritten: a query that never settles is not modelled; every turn ends with a result or a rejection. In the source nothing at useWishlist.ts:21-34 times a query out, so such a query would stall every later query.
- `cancelQueries` (useWishlist.ts:254) is modelled only through its effect on the queue, as a query that rejects; TanStack Query's retry counts and staleness timers are not modelled.
- React's dependency tracking is not modelled: every effect run is a transition the environment may take at any time, which over-approximates when React runs it.
- The `created_at ?? Date.now()` fallback (useWishlist.ts:86) is not modelled: an event always carries `createdAt`.
- Which filter event is loaded is not modelled: the hook takes `filterEventQuery.data?.[0]` (useWishlist.ts:309), the first event of a query that asks for at most one. `LoadRemoteFilter` takes that event as its argument and does not assume it is the newest, so a stale event can undo a recent delete (`Sync.RemoteLoadCanUnhide`).
- Signatures and relay behaviour are not modelled: `Nostr.Sign` only attaches the signer's event id.
- ItemCodec.ParseWishlistEvent: returns None for a blob whose fields have the wrong JSON type (a missing title, a numeric id, a string price). The source builds an item carrying the undefined or mistyped value, which the item type cannot represent.
- ItemCodec.ParseWishlistEvent: JSON text is abstract (`Json.Text`). A `Plain` tag value stands for text that does not parse; escaping and number formatting are not modelled, and numbers are exact reals, without floating-point rounding.
- View.TotalTarget: sums exact reals; the source adds floating-point numbers, whose rounding is not modelled.
- View.ComputeStats: assumes finite targets; an infinite target, against which the source's `Infinity` fallback would count an unpriced item as ready, is not modelled.
- IdOrder.SortIds: orders by character code. JavaScript compares UTF-16 code units, and the two orders differ only for characters above U+FFFF.
- Merge.SortNewestFirst: does not state the sort's stability for items with equal `createdAt`.
- The price formatting and notification helpers are outside this model.

## Findings

| source | as written | input that shows it | evidently intended | confidence | as-written member | corrected member |
|---|---|---|---|---|---|---|
| src/hooks/useWishlist.ts:22-33 | the shared queue promise is extended with `.then` and no rejection handler, so one rejected query leaves the module-wide queue rejected for good, and every later `enqueueQuery` rejects without calling its query | a wishlist load aborted by `cancelQueries` in `onMutate`, or rejected by a relay error, then any later load: the later load rejects and never reaches the relays | the queue keeps going after a failed query, only spacing queries 2000 ms apart | not executed; high: follows from promise semantics | QueryGateway.OneRejectionPoisonsQueue | QueryGateway.CorrectedQueueThrottles |
