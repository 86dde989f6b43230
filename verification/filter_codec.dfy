/** The deleted-id list event (kind 17779): its content is the JSON array of
    deleted logical ids; `parseFilterEventIds` reads it back. */
module FilterCodec {
  import opened Options
  import opened Json
  import opened Nostr
  import opened InsertionSet

  const FilterEventKind := 17779
  const FilterEventTag := "satslist-wishlist-deleted"
  const FilterEventDTag := "deleted-list"

  function JsonStrings(ids: seq<string>): (vs: seq<Json>)
    ensures |vs| == |ids| && forall i :: 0 <= i < |ids| ==> vs[i] == JStr(ids[i])
  {
    seq(|ids|, i requires 0 <= i < |ids| => JStr(ids[i]))
  }

  /** The event `filterEventMutation` signs for the list `ids`. */
  function BuildFilterEvent(pubkey: string, ids: seq<string>, nowMs: int): (d: Draft)
    ensures d.kind == FilterEventKind && d.pubkey == pubkey && d.createdAt == Seconds(nowMs)
    ensures FindTag(d.tags, "t") == Some([Plain("t"), Plain(FilterEventTag)])
    ensures FindTag(d.tags, "d") == Some([Plain("d"), Plain(FilterEventDTag)])
  {
    Draft(
      FilterEventKind,
      Stringify(JArr(JsonStrings(ids))),
      [[Plain("t"), Plain(FilterEventTag)], [Plain("d"), Plain(FilterEventDTag)]],
      Seconds(nowMs),
      pubkey)
  }

  /** `parsed.filter(v => typeof v === 'string')`. */
  function StringElements(vs: seq<Json>): (r: seq<string>)
    ensures forall s :: s in r <==> JStr(s) in vs
    ensures |r| <= |vs|
  {
    if |vs| == 0 then []
    else
      var rest := StringElements(vs[1..]);
      assert vs == [vs[0]] + vs[1..];
      if vs[0].JStr? then [vs[0].s] + rest else rest
  }

  /** The content when it parses to an array. */
  function ContentArray(e: Event): (r: Option<seq<Json>>)
    ensures r.Some? <==> e.content.Encoded? && e.content.value.JArr?
    ensures r.Some? ==> r.value == e.content.value.elems
  {
    match Parse(e.content)
    case Some(JArr(vs)) => Some(vs)
    case _ => None
  }

  /** Every string of `ids` occurs in the array `vs`, and the strings come in
      the order of their first occurrence there. */
  predicate InArrayOrder(vs: seq<Json>, ids: seq<string>) {
    forall i, j :: 0 <= i < j < |ids| ==>
      (JStr(ids[i]) in vs && JStr(ids[j]) in vs &&
       FirstIndex(vs, JStr(ids[i])) < FirstIndex(vs, JStr(ids[j])))
  }

  /** `parseFilterEventIds`: the distinct string elements of the content array,
      in order of first occurrence; empty for a missing event, for content that
      is not JSON and for JSON that is not an array. */
  function ParseFilterEventIds(e: Option<Event>): (r: seq<string>)
    ensures NoDup(r)
    ensures e.None? || ContentArray(e.value).None? ==> r == []
    ensures e.Some? && ContentArray(e.value).Some? ==>
      forall s :: s in r <==> JStr(s) in ContentArray(e.value).value
    ensures e.Some? && ContentArray(e.value).Some? ==>
      var strs := StringElements(ContentArray(e.value).value);
      forall i, j :: 0 <= i < j < |r| ==> FirstIndex(strs, r[i]) < FirstIndex(strs, r[j])
    ensures e.Some? && ContentArray(e.value).Some? ==> InArrayOrder(ContentArray(e.value).value, r)
  {
    match e
    case None => []
    case Some(ev) =>
      match ContentArray(ev)
      case None => []
      case Some(vs) =>
        DistinctInArrayOrder(vs);
        FromSeq(StringElements(vs))
  }

  /** The distinct strings come in the order of their first occurrence in
      the array itself. */
  lemma DistinctInArrayOrder(vs: seq<Json>)
    ensures InArrayOrder(vs, FromSeq(StringElements(vs)))
  {
    var strs := StringElements(vs);
    var r := FromSeq(strs);
    forall i, j | 0 <= i < j < |r|
      ensures JStr(r[i]) in vs && JStr(r[j]) in vs &&
        FirstIndex(vs, JStr(r[i])) < FirstIndex(vs, JStr(r[j]))
    {
      assert r[i] in strs && r[j] in strs;
      StringElementsKeepOrder(vs, r[i], r[j]);
    }
  }

  /** The filter keeps the array's order: of two strings, the one that comes
      first among the string elements also comes first in the array. */
  lemma {:induction false} StringElementsKeepOrder(vs: seq<Json>, a: string, b: string)
    requires a in StringElements(vs) && b in StringElements(vs)
    requires FirstIndex(StringElements(vs), a) < FirstIndex(StringElements(vs), b)
    ensures JStr(a) in vs && JStr(b) in vs
    ensures FirstIndex(vs, JStr(a)) < FirstIndex(vs, JStr(b))
  {
    var strs := StringElements(vs);
    var rest := StringElements(vs[1..]);
    if vs[0] == JStr(a) {
      assert FirstIndex(vs, JStr(a)) == 0;
      assert vs[0] != JStr(b);
    } else if vs[0].JStr? {
      assert strs == [vs[0].s] + rest;
      assert strs[0] != a && strs[0] != b;
      StringElementsKeepOrder(vs[1..], a, b);
    } else {
      assert strs == rest;
      StringElementsKeepOrder(vs[1..], a, b);
    }
  }

  /** Filtering a concatenation filters each part. */
  lemma {:induction false} StringElementsAppend(a: seq<Json>, b: seq<Json>)
    ensures StringElements(a + b) == StringElements(a) + StringElements(b)
  {
    if |a| == 0 {
      assert a + b == b;
    } else {
      assert (a + b)[1..] == a[1..] + b;
      assert (a + b)[0] == a[0];
      StringElementsAppend(a[1..], b);
    }
  }

  /** One element is kept exactly when it is a string. */
  lemma SingleStringElement(v: Json)
    ensures StringElements([v]) == if v.JStr? then [v.s] else []
  {
  }

  lemma {:induction false} StringElementsOfStrings(ids: seq<string>)
    ensures StringElements(JsonStrings(ids)) == ids
  {
    if |ids| > 0 {
      assert JsonStrings(ids)[1..] == JsonStrings(ids[1..]);
      StringElementsOfStrings(ids[1..]);
      assert ids == [ids[0]] + ids[1..];
    }
  }

  /** Round trip: a duplicate-free list published as the filter event is read
      back unchanged. */
  lemma RoundTrip(pubkey: string, ids: seq<string>, nowMs: int, eventId: string)
    requires NoDup(ids)
    ensures ParseFilterEventIds(Some(Sign(BuildFilterEvent(pubkey, ids, nowMs), eventId))) == ids
  {
    RoundTripDeduplicates(pubkey, ids, nowMs, eventId);
  }

  /** A list with repeats comes back as its first occurrences, so publishing
      it and reading it back is `Array.from(new Set(ids))`. */
  lemma RoundTripDeduplicates(pubkey: string, ids: seq<string>, nowMs: int, eventId: string)
    ensures ParseFilterEventIds(Some(Sign(BuildFilterEvent(pubkey, ids, nowMs), eventId))) == FromSeq(ids)
  {
    var e := Sign(BuildFilterEvent(pubkey, ids, nowMs), eventId);
    assert ContentArray(e) == Some(JsonStrings(ids));
    StringElementsOfStrings(ids);
  }
}
