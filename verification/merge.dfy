/** The wishlist query's result handling: events are parsed, folded into a
    `Map` keyed by logical id (a later event replaces an earlier one with the
    same id), and the map's values are sorted newest first. */
module Merge {
  import opened Options
  import opened Nostr
  import opened WishlistTypes
  import opened ItemCodec

  predicate UniqueIds(s: seq<Item>) {
    forall i, j :: 0 <= i < j < |s| ==> s[i].id != s[j].id
  }

  predicate NewestFirst(s: seq<Item>) {
    forall i, j :: 0 <= i < j < |s| ==> s[i].createdAt >= s[j].createdAt
  }

  predicate ParsesToId(e: Event, id: string) {
    ParseWishlistEvent(e).Some? && ParseWishlistEvent(e).value.id == id
  }

  /** `y` is what the last event parsing to `y.id` parses to. */
  ghost predicate IsLastParse(events: seq<Event>, y: Item) {
    exists k :: 0 <= k < |events| && ParseWishlistEvent(events[k]) == Some(y) &&
      forall m :: k < m < |events| ==> !ParsesToId(events[m], y.id)
  }

  /** Every id some event parses to has an entry in `acc`. */
  ghost predicate CoversParsedIds(events: seq<Event>, acc: seq<Item>) {
    forall k :: 0 <= k < |events| && ParseWishlistEvent(events[k]).Some? ==>
      exists y :: y in acc && y.id == ParseWishlistEvent(events[k]).value.id
  }

  /** `map.set(x.id, x)` on an insertion-ordered map held as its value list:
      an entry with the same id is replaced in place, otherwise `x` is appended. */
  function Upsert(acc: seq<Item>, x: Item): (r: seq<Item>)
    ensures x in r
    ensures forall y :: y in r ==> y == x || y in acc
    ensures forall y :: y in acc && y.id != x.id ==> y in r
  {
    if |acc| == 0 then [x]
    else if acc[0].id == x.id then [x] + acc[1..]
    else
      assert acc == [acc[0]] + acc[1..];
      [acc[0]] + Upsert(acc[1..], x)
  }

  /** With unique ids before, ids stay unique and `x` is the entry for its id. */
  lemma {:induction false} UpsertUnique(acc: seq<Item>, x: Item)
    requires UniqueIds(acc)
    ensures UniqueIds(Upsert(acc, x))
    ensures forall y :: y in Upsert(acc, x) && y.id == x.id ==> y == x
  {
    if |acc| > 0 {
      TailUnique(acc);
      if acc[0].id != x.id {
        UpsertUnique(acc[1..], x);
        ConsUnique(acc[0], Upsert(acc[1..], x));
      } else {
        ConsUnique(x, acc[1..]);
      }
    }
  }

  /** The tail of a list with unique ids has unique ids, none equal to the head's. */
  lemma TailUnique(s: seq<Item>)
    requires |s| > 0 && UniqueIds(s)
    ensures UniqueIds(s[1..])
    ensures forall y :: y in s[1..] ==> y.id != s[0].id
  {
    forall y | y in s[1..] ensures y.id != s[0].id {
      var j :| 0 <= j < |s[1..]| && s[1..][j] == y;
      assert s[j + 1] == y;
    }
  }

  lemma ConsUnique(h: Item, rest: seq<Item>)
    requires UniqueIds(rest) && forall y :: y in rest ==> y.id != h.id
    ensures UniqueIds([h] + rest)
  {
    var r := [h] + rest;
    forall i, j | 0 <= i < j < |r| ensures r[i].id != r[j].id {
      assert r[j] == rest[j - 1];
      if i > 0 {
        assert r[i] == rest[i - 1];
      }
    }
  }

  /** One step of the `reduce`: events that do not parse are skipped. */
  function Step(acc: seq<Item>, e: Event): (r: seq<Item>)
    ensures ParseWishlistEvent(e).None? ==> r == acc
    ensures ParseWishlistEvent(e).Some? ==>
      var x := ParseWishlistEvent(e).value;
      && x in r
      && (forall y :: y in r ==> y == x || y in acc)
      && (forall y :: y in acc && y.id != x.id ==> y in r)
  {
    match ParseWishlistEvent(e)
    case Some(x) => Upsert(acc, x)
    case None => acc
  }

  /** The `reduce` into a `Map`, in query order. */
  function Collect(events: seq<Event>): (r: seq<Item>)
    ensures UniqueIds(r)
    ensures forall y :: y in r ==> IsLastParse(events, y)
    ensures CoversParsedIds(events, r)
  {
    if |events| == 0 then []
    else
      var init := events[..|events| - 1];
      var acc := Collect(init);
      StepPreserves(init, events[|events| - 1], acc);
      assert events == init + [events[|events| - 1]];
      Step(acc, events[|events| - 1])
  }

  lemma StepPreserves(init: seq<Event>, last: Event, acc: seq<Item>)
    requires UniqueIds(acc)
    requires forall y :: y in acc ==> IsLastParse(init, y)
    requires CoversParsedIds(init, acc)
    ensures UniqueIds(Step(acc, last))
    ensures forall y :: y in Step(acc, last) ==> IsLastParse(init + [last], y)
    ensures CoversParsedIds(init + [last], Step(acc, last))
  {
    StepUnique(acc, last);
    StepKeepsLastParse(init, last, acc);
    StepCovers(init, last, acc);
  }

  /** One step keeps the ids unique. */
  lemma StepUnique(acc: seq<Item>, last: Event)
    requires UniqueIds(acc)
    ensures UniqueIds(Step(acc, last))
  {
    match ParseWishlistEvent(last)
    case Some(x) => UpsertUnique(acc, x);
    case None =>
  }

  /** An event that does not parse to `y.id` keeps `y` the last parse for it. */
  lemma LastParseExtends(init: seq<Event>, last: Event, y: Item)
    requires IsLastParse(init, y) && !ParsesToId(last, y.id)
    ensures IsLastParse(init + [last], y)
  {
    var events := init + [last];
    var k :| 0 <= k < |init| && ParseWishlistEvent(init[k]) == Some(y) &&
      forall m :: k < m < |init| ==> !ParsesToId(init[m], y.id);
    assert events[k] == init[k];
    forall m | k < m < |events| ensures !ParsesToId(events[m], y.id) {
      if m < |init| {
        assert events[m] == init[m];
      }
    }
  }

  lemma StepKeepsLastParse(init: seq<Event>, last: Event, acc: seq<Item>)
    requires UniqueIds(acc)
    requires forall y :: y in acc ==> IsLastParse(init, y)
    ensures forall y :: y in Step(acc, last) ==> IsLastParse(init + [last], y)
  {
    var events := init + [last];
    var r := Step(acc, last);
    if ParseWishlistEvent(last).Some? {
      UpsertUnique(acc, ParseWishlistEvent(last).value);
    }
    forall y | y in r ensures IsLastParse(events, y) {
      if ParseWishlistEvent(last) == Some(y) {
        assert events[|init|] == last;
      } else {
        assert y in acc;
        LastParseExtends(init, last, y);
      }
    }
  }

  lemma StepCovers(init: seq<Event>, last: Event, acc: seq<Item>)
    requires CoversParsedIds(init, acc)
    ensures CoversParsedIds(init + [last], Step(acc, last))
  {
    var events := init + [last];
    var r := Step(acc, last);
    forall k | 0 <= k < |events| && ParseWishlistEvent(events[k]).Some?
      ensures exists y :: y in r && y.id == ParseWishlistEvent(events[k]).value.id
    {
      var id := ParseWishlistEvent(events[k]).value.id;
      if k == |init| {
        assert ParseWishlistEvent(last).value in r;
      } else {
        assert events[k] == init[k];
        var y :| y in acc && y.id == id;
        if ParseWishlistEvent(last).Some? && ParseWishlistEvent(last).value.id == id {
          assert ParseWishlistEvent(last).value in r;
        } else {
          assert y in r;
        }
      }
    }
  }

  /** One insertion step of the stable sort by `createdAt`, newest first: `x`
      goes before every element that is not strictly newer. */
  function InsertNewestFirst(x: Item, s: seq<Item>): (r: seq<Item>)
    ensures multiset(r) == multiset(s) + multiset{x}
  {
    if |s| == 0 then [x]
    else if x.createdAt >= s[0].createdAt then [x] + s
    else
      assert s == [s[0]] + s[1..];
      [s[0]] + InsertNewestFirst(x, s[1..])
  }

  lemma InsertMembers(x: Item, s: seq<Item>)
    ensures forall y :: y in InsertNewestFirst(x, s) <==> y == x || y in s
  {
    var r := InsertNewestFirst(x, s);
    forall y ensures y in r <==> y == x || y in s {
      assert y in r <==> y in multiset(r);
      assert y in s <==> y in multiset(s);
    }
  }

  lemma {:induction false} InsertKeepsNewestFirst(x: Item, s: seq<Item>)
    requires NewestFirst(s)
    ensures NewestFirst(InsertNewestFirst(x, s))
  {
    if |s| > 0 && x.createdAt < s[0].createdAt {
      var rest := InsertNewestFirst(x, s[1..]);
      InsertKeepsNewestFirst(x, s[1..]);
      InsertMembers(x, s[1..]);
      assert forall y :: y in rest ==> y.createdAt <= s[0].createdAt;
    }
  }

  lemma {:induction false} InsertKeepsIdsUnique(x: Item, s: seq<Item>)
    requires UniqueIds(s) && forall y :: y in s ==> y.id != x.id
    ensures UniqueIds(InsertNewestFirst(x, s))
  {
    if |s| > 0 && x.createdAt < s[0].createdAt {
      assert s == [s[0]] + s[1..];
      InsertKeepsIdsUnique(x, s[1..]);
      InsertMembers(x, s[1..]);
      var rest := InsertNewestFirst(x, s[1..]);
      assert forall y :: y in rest ==> y.id != s[0].id;
      assert InsertNewestFirst(x, s) == [s[0]] + rest;
    }
  }

  /** `Array.from(map.values())` sorted by descending `createdAt`, a missing
      time counting as 0 (every modelled item has one). */
  function SortNewestFirst(s: seq<Item>): (r: seq<Item>)
    ensures NewestFirst(r)
    ensures multiset(r) == multiset(s)
    ensures forall y :: y in r <==> y in s
    ensures UniqueIds(s) ==> UniqueIds(r)
  {
    if |s| == 0 then []
    else
      var rest := SortNewestFirst(s[1..]);
      SortStep(s, rest);
      InsertNewestFirst(s[0], rest)
  }

  /** Inserting the head into the sorted tail sorts the whole list. */
  lemma SortStep(s: seq<Item>, rest: seq<Item>)
    requires |s| > 0 && NewestFirst(rest)
    requires multiset(rest) == multiset(s[1..])
    requires forall y :: y in rest <==> y in s[1..]
    requires UniqueIds(s[1..]) ==> UniqueIds(rest)
    ensures var r := InsertNewestFirst(s[0], rest);
      && NewestFirst(r)
      && multiset(r) == multiset(s)
      && (forall y :: y in r <==> y in s)
      && (UniqueIds(s) ==> UniqueIds(r))
  {
    assert s == [s[0]] + s[1..];
    InsertKeepsNewestFirst(s[0], rest);
    InsertMembers(s[0], rest);
    if UniqueIds(s) {
      assert UniqueIds(s[1..]);
      assert forall y :: y in rest ==> y.id != s[0].id;
      InsertKeepsIdsUnique(s[0], rest);
    }
  }

  /** The wishlist query's result: one entry per logical id, the one the
      last event with that id parses to, newest first. Events that do not
      parse are dropped and every id some event parses to is present. */
  function MergeEvents(events: seq<Event>): (r: seq<Item>)
    ensures NewestFirst(r)
    ensures UniqueIds(r)
    ensures forall y :: y in r ==> IsLastParse(events, y)
    ensures CoversParsedIds(events, r)
  {
    var collected := Collect(events);
    var r := SortNewestFirst(collected);
    assert CoversParsedIds(events, r) by {
      forall k | 0 <= k < |events| && ParseWishlistEvent(events[k]).Some?
        ensures exists y :: y in r && y.id == ParseWishlistEvent(events[k]).value.id
      {
        var y :| y in collected && y.id == ParseWishlistEvent(events[k]).value.id;
        assert y in r;
      }
    }
    r
  }

  /** Every entry comes from an event that parsed: nothing is invented. */
  lemma MergedItemsAreParsed(events: seq<Event>)
    ensures forall y :: y in MergeEvents(events) ==>
      exists e :: e in events && ParseWishlistEvent(e) == Some(y)
  {
    forall y | y in MergeEvents(events)
      ensures exists e :: e in events && ParseWishlistEvent(e) == Some(y)
    {
      assert IsLastParse(events, y);
      var k :| 0 <= k < |events| && ParseWishlistEvent(events[k]) == Some(y) &&
        forall m :: k < m < |events| ==> !ParsesToId(events[m], y.id);
      assert events[k] in events;
    }
  }

  /** The entry kept for an id is exactly what the last event parsing to that
      id parses to. */
  lemma LastEventWins(events: seq<Event>, k: nat, x: Item)
    requires k < |events| && ParseWishlistEvent(events[k]) == Some(x)
    requires forall m :: k < m < |events| ==> !ParsesToId(events[m], x.id)
    ensures x in MergeEvents(events)
    ensures forall y :: y in MergeEvents(events) && y.id == x.id ==> y == x
  {
    var r := MergeEvents(events);
    forall y | y in r && y.id == x.id
      ensures y == x
    {
      assert IsLastParse(events, y);
      var k' :| 0 <= k' < |events| && ParseWishlistEvent(events[k']) == Some(y) &&
        forall m :: k' < m < |events| ==> !ParsesToId(events[m], y.id);
      assert ParsesToId(events[k'], x.id) && ParsesToId(events[k], y.id);
      assert k' == k;
    }
    assert ParseWishlistEvent(events[k]).Some?;
    var y :| y in r && y.id == ParseWishlistEvent(events[k]).value.id;
  }

  /** A later event for an id wins over an earlier one. */
  lemma LaterDuplicateWins(e1: Event, e2: Event, x1: Item, x2: Item)
    requires ParseWishlistEvent(e1) == Some(x1) && ParseWishlistEvent(e2) == Some(x2)
    requires x1.id == x2.id
    ensures MergeEvents([e1, e2]) == [x2]
  {
    CollectPair(e1, e2, x1, x2);
  }

  /** The map built from two parsing events, the second set last. */
  lemma CollectPair(e1: Event, e2: Event, x1: Item, x2: Item)
    requires ParseWishlistEvent(e1) == Some(x1) && ParseWishlistEvent(e2) == Some(x2)
    ensures Collect([e1, e2]) == Upsert([x1], x2)
  {
    assert [e1, e2][..1] == [e1] && [e1][..0] == [];
    assert Collect([e1]) == [x1];
  }

  /** Replaying an older version of an item after a newer one leaves the
      older version in the list: the `Map` keeps the last event seen, whatever
      its creation time. */
  lemma OlderReplayWins(pubkey: string, newer: Payload, older: Payload, freshId: string,
                        newerMs: int, olderMs: int, newerEvent: string, olderEvent: string)
    requires newer.id.Some? && older.id == newer.id
    requires Nostr.Seconds(newerMs) > Nostr.Seconds(olderMs)
    ensures var e1 := Sign(BuildEvent(pubkey, newer, freshId, newerMs), newerEvent);
      var e2 := Sign(BuildEvent(pubkey, older, freshId, olderMs), olderEvent);
      MergeEvents([e1, e2]) == [Expected(older, freshId, olderMs, olderEvent)]
  {
    ItemCodec.RoundTrip(pubkey, newer, freshId, newerMs, newerEvent);
    ItemCodec.RoundTrip(pubkey, older, freshId, olderMs, olderEvent);
    LaterDuplicateWins(Sign(BuildEvent(pubkey, newer, freshId, newerMs), newerEvent),
                       Sign(BuildEvent(pubkey, older, freshId, olderMs), olderEvent),
                       Expected(newer, freshId, newerMs, newerEvent),
                       Expected(older, freshId, olderMs, olderEvent));
  }
}
