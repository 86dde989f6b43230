/** `buildEvent` and `parseWishlistEvent`: a wishlist item as a kind-30078
    event whose `item` tag holds the item as a JSON object. */
module ItemCodec {
  import opened Options
  import opened Json
  import opened Nostr
  import opened WishlistTypes

  const WishlistKind := 30078
  const CommunityTag := "satslist-wishlist"
  const DefaultStatus := "dreaming"

  /** `v ?? null` for a string field. */
  function StrOrNull(v: Option<string>): Json {
    match v
    case Some(s) => JStr(s)
    case None => JNull
  }

  /** `v ?? null` for a numeric field. */
  function NumOrNull(v: Option<real>): Json {
    match v
    case Some(n) => JNum(n)
    case None => JNull
  }

  /** `payload.id ?? crypto.randomUUID()`, with the fresh id passed in. */
  function ItemId(p: Payload, freshId: string): string {
    p.id.GetOr(freshId)
  }

  /** The object serialised into the `item` tag. `currentPriceSats` and
      `status` are not written. */
  function EncodeItem(itemId: string, p: Payload): Json {
    JObj([
      ("id", JStr(itemId)),
      ("title", JStr(p.title)),
      ("link", StrOrNull(p.link)),
      ("image", StrOrNull(p.image)),
      ("notes", StrOrNull(p.notes)),
      ("targetPriceSats", JNum(p.targetPriceSats)),
      ("targetPriceEUR", NumOrNull(p.targetPriceEUR)),
      ("sourcePriceEUR", NumOrNull(p.sourcePriceEUR)),
      ("source", StrOrNull(p.source))
    ])
  }

  /** `buildEvent(pubkey, payload)` with the clock (milliseconds) and the
      freshly generated UUID as parameters. */
  function BuildEvent(pubkey: string, p: Payload, freshId: string, nowMs: int): (d: Draft)
    ensures d.kind == WishlistKind && d.pubkey == pubkey && d.createdAt == Seconds(nowMs)
    ensures FindTag(d.tags, "d") == Some([Plain("d"), Plain(ItemId(p, freshId))])
    ensures FindTag(d.tags, "t") == Some([Plain("t"), Plain(CommunityTag)])
  {
    var itemId := ItemId(p, freshId);
    Draft(
      WishlistKind,
      Plain(""),
      [[Plain("d"), Plain(itemId)],
       [Plain("t"), Plain(CommunityTag)],
       [Plain("item"), Stringify(EncodeItem(itemId, p))]],
      Seconds(nowMs),
      pubkey)
  }

  /** The parsed `item` tag: None when there is no such tag, when it has no
      value (`JSON.parse(undefined)` throws) or when the value is not JSON. */
  function ItemBlob(e: Event): (r: Option<Json>)
    ensures FindTag(e.tags, "item").None? ==> r.None?
    ensures r.Some? <==>
      FindTag(e.tags, "item").Some? && |FindTag(e.tags, "item").value| >= 2 &&
      FindTag(e.tags, "item").value[1].Encoded?
    ensures r.Some? ==> FindTag(e.tags, "item").value[1] == Encoded(r.value)
  {
    match FindTag(e.tags, "item")
    case None => None
    case Some(tag) => if |tag| < 2 then None else Parse(tag[1])
  }

  /** A field that is missing, null or a string. */
  predicate StringOrAbsent(m: Option<Json>) {
    m.None? || m.value.JNull? || m.value.JStr?
  }

  /** A field that is missing, null or a number. */
  predicate NumberOrAbsent(m: Option<Json>) {
    m.None? || m.value.JNull? || m.value.JNum?
  }

  /** The field holds the string `v`, or is missing or null when `v` is none. */
  predicate HoldsOptionalString(m: Option<Json>, v: Option<string>) {
    if v.Some? then m == Some(JStr(v.value)) else m.None? || m == Some(JNull)
  }

  /** The field holds the number `v`, or is missing or null when `v` is none. */
  predicate HoldsOptionalNumber(m: Option<Json>, v: Option<real>) {
    if v.Some? then m == Some(JNum(v.value)) else m.None? || m == Some(JNull)
  }

  /** Every field the parser reads has a type an item can carry: a string
      title, a numeric target, and each optional field missing, null or of
      its type. */
  predicate WellTyped(blob: Json) {
    && StringOrAbsent(Member(blob, "id"))
    && Member(blob, "title").Some? && Member(blob, "title").value.JStr?
    && StringOrAbsent(Member(blob, "link"))
    && StringOrAbsent(Member(blob, "image"))
    && StringOrAbsent(Member(blob, "notes"))
    && Member(blob, "targetPriceSats").Some? && Member(blob, "targetPriceSats").value.JNum?
    && NumberOrAbsent(Member(blob, "targetPriceEUR"))
    && NumberOrAbsent(Member(blob, "currentPriceSats"))
    && NumberOrAbsent(Member(blob, "sourcePriceEUR"))
    && StringOrAbsent(Member(blob, "source"))
    && StringOrAbsent(Member(blob, "status"))
  }

  /** Item `x` carries what the blob's fields hold; a missing or null status
      reads as "dreaming". */
  predicate CarriesFields(blob: Json, x: Item) {
    && Member(blob, "title") == Some(JStr(x.title))
    && HoldsOptionalString(Member(blob, "link"), x.link)
    && HoldsOptionalString(Member(blob, "image"), x.image)
    && HoldsOptionalString(Member(blob, "notes"), x.notes)
    && Member(blob, "targetPriceSats") == Some(JNum(x.targetPriceSats))
    && HoldsOptionalNumber(Member(blob, "targetPriceEUR"), x.targetPriceEUR)
    && HoldsOptionalNumber(Member(blob, "currentPriceSats"), x.currentPriceSats)
    && HoldsOptionalNumber(Member(blob, "sourcePriceEUR"), x.sourcePriceEUR)
    && HoldsOptionalString(Member(blob, "source"), x.source)
    && (|| Member(blob, "status") == Some(JStr(x.status))
        || ((Member(blob, "status").None? || Member(blob, "status") == Some(JNull)) &&
            x.status == DefaultStatus))
  }

  /** A string field read with `?? undefined`: Some(None) when absent or null,
      None when it holds a value the item cannot carry. */
  function OptionalString(blob: Json, key: string): Option<Option<string>> {
    ReadOptionalString(Member(blob, key))
  }

  function ReadOptionalString(m: Option<Json>): (r: Option<Option<string>>)
    ensures r.Some? <==> StringOrAbsent(m)
    ensures r.Some? ==> HoldsOptionalString(m, r.value)
  {
    match m
    case None => Some(None)
    case Some(JNull) => Some(None)
    case Some(JStr(s)) => Some(Some(s))
    case Some(_) => None
  }

  /** A numeric field read with `?? undefined`. */
  function OptionalNumber(blob: Json, key: string): Option<Option<real>> {
    ReadOptionalNumber(Member(blob, key))
  }

  function ReadOptionalNumber(m: Option<Json>): (r: Option<Option<real>>)
    ensures r.Some? <==> NumberOrAbsent(m)
    ensures r.Some? ==> HoldsOptionalNumber(m, r.value)
  {
    match m
    case None => Some(None)
    case Some(JNull) => Some(None)
    case Some(JNum(n)) => Some(Some(n))
    case Some(_) => None
  }

  /** A string field read without a fallback. */
  function RequiredString(blob: Json, key: string): (r: Option<string>)
    ensures r.Some? <==> Member(blob, key).Some? && Member(blob, key).value.JStr?
    ensures r.Some? ==> Member(blob, key) == Some(JStr(r.value))
  {
    match Member(blob, key)
    case Some(JStr(s)) => Some(s)
    case _ => None
  }

  /** A numeric field read without a fallback. */
  function RequiredNumber(blob: Json, key: string): (r: Option<real>)
    ensures r.Some? <==> Member(blob, key).Some? && Member(blob, key).value.JNum?
    ensures r.Some? ==> Member(blob, key) == Some(JNum(r.value))
  {
    match Member(blob, key)
    case Some(JNum(n)) => Some(n)
    case _ => None
  }

  /** `?? null` on writing and `?? undefined` on reading cancel out. */
  lemma NullableRoundTrip(s: Option<string>, n: Option<real>)
    ensures ReadOptionalString(Some(StrOrNull(s))) == Some(s)
    ensures ReadOptionalNumber(Some(NumOrNull(n))) == Some(n)
  {
  }

  /** The item built from a parsed, non-null blob of event `e`: the event
      supplies `createdAt`, `eventId` and the fallback id. */
  function DecodeItem(blob: Json, e: Event): (r: Option<Item>)
    ensures r.Some? <==> WellTyped(blob)
    ensures r.Some? ==> CarriesFields(blob, r.value)
    ensures r.Some? ==> r.value.eventId == e.id && r.value.createdAt == e.createdAt
    ensures r.Some? ==>
      var idField := Member(blob, "id");
      if idField.None? || idField == Some(JNull) then r.value.id == e.id
      else idField == Some(JStr(r.value.id))
  {
    var id :- OptionalString(blob, "id");
    var title :- RequiredString(blob, "title");
    var link :- OptionalString(blob, "link");
    var image :- OptionalString(blob, "image");
    var notes :- OptionalString(blob, "notes");
    var target :- RequiredNumber(blob, "targetPriceSats");
    var targetEur :- OptionalNumber(blob, "targetPriceEUR");
    var current :- OptionalNumber(blob, "currentPriceSats");
    var sourceEur :- OptionalNumber(blob, "sourcePriceEUR");
    var source :- OptionalString(blob, "source");
    var status :- OptionalString(blob, "status");
    Some(Item(id.GetOr(e.id), e.createdAt, title, link, image, notes, target,
              targetEur, current, sourceEur, source, status.GetOr(DefaultStatus), e.id))
  }

  /** `parseWishlistEvent`: never fails, answers None for an event it cannot read. */
  function ParseWishlistEvent(e: Event): (r: Option<Item>)
    ensures ItemBlob(e).None? ==> r.None?
    ensures ItemBlob(e) == Some(JNull) ==> r.None?
    ensures r.Some? ==> r.value.eventId == e.id && r.value.createdAt == e.createdAt
    ensures r.Some? ==>
      var idField := Member(ItemBlob(e).value, "id");
      if idField.None? || idField == Some(JNull) then r.value.id == e.id
      else idField == Some(JStr(r.value.id))
  {
    match ItemBlob(e)
    case None => None
    case Some(blob) =>
      // Reading a property of `null` throws a TypeError, which is caught.
      if blob.JNull? then None else DecodeItem(blob, e)
  }

  /** `parseWishlistEvent` gives an item exactly when the `item` tag parses to
      a blob with well-typed fields, and the item carries those fields. */
  lemma ParseReadsBlob(e: Event)
    ensures ParseWishlistEvent(e).Some? <==> ItemBlob(e).Some? && WellTyped(ItemBlob(e).value)
    ensures ParseWishlistEvent(e).Some? ==> CarriesFields(ItemBlob(e).value, ParseWishlistEvent(e).value)
  {
  }

  /** The item `parseWishlistEvent` recovers from a signed `buildEvent` result. */
  function Expected(p: Payload, freshId: string, nowMs: int, eventId: string): Item {
    Item(ItemId(p, freshId), Seconds(nowMs), p.title, p.link, p.image, p.notes,
         p.targetPriceSats, p.targetPriceEUR, None, p.sourcePriceEUR, p.source,
         DefaultStatus, eventId)
  }

  /** Round trip: every written field comes back (null read as undefined), the
      id is the payload's or else the fresh one, `currentPriceSats` is absent
      and `status` defaults to "dreaming". */
  lemma RoundTrip(pubkey: string, p: Payload, freshId: string, nowMs: int, eventId: string)
    ensures ParseWishlistEvent(Sign(BuildEvent(pubkey, p, freshId, nowMs), eventId))
         == Some(Expected(p, freshId, nowMs, eventId))
  {
    var itemId := ItemId(p, freshId);
    var e := Sign(BuildEvent(pubkey, p, freshId, nowMs), eventId);
    BuiltBlob(pubkey, p, freshId, nowMs, eventId);
    DecodeEncoded(itemId, p, e);
  }

  /** The `item` tag of a signed built event parses to the written object. */
  lemma BuiltBlob(pubkey: string, p: Payload, freshId: string, nowMs: int, eventId: string)
    ensures ItemBlob(Sign(BuildEvent(pubkey, p, freshId, nowMs), eventId))
         == Some(EncodeItem(ItemId(p, freshId), p))
  {
    var e := Sign(BuildEvent(pubkey, p, freshId, nowMs), eventId);
    assert e.tags[2] == [Plain("item"), Encoded(EncodeItem(ItemId(p, freshId), p))];
  }

  /** Decoding the written object gives back the payload's fields. */
  lemma DecodeEncoded(itemId: string, p: Payload, e: Event)
    ensures DecodeItem(EncodeItem(itemId, p), e)
         == Some(Item(itemId, e.createdAt, p.title, p.link, p.image, p.notes,
                      p.targetPriceSats, p.targetPriceEUR, None, p.sourcePriceEUR,
                      p.source, DefaultStatus, e.id))
  {
    EncodedId(itemId, p);
    EncodedTitle(itemId, p);
    EncodedLink(itemId, p);
    EncodedImage(itemId, p);
    EncodedNotes(itemId, p);
    EncodedTarget(itemId, p);
    EncodedTargetEur(itemId, p);
    EncodedSourceEur(itemId, p);
    EncodedSource(itemId, p);
    EncodedUnwritten(itemId, p);
  }

  /** Each written field reads back as the payload's value. */
  lemma EncodedId(itemId: string, p: Payload)
    ensures OptionalString(EncodeItem(itemId, p), "id") == Some(Some(itemId))
  {
    EncodedMember(itemId, p, 0);
  }

  lemma EncodedTitle(itemId: string, p: Payload)
    ensures RequiredString(EncodeItem(itemId, p), "title") == Some(p.title)
  {
    EncodedMember(itemId, p, 1);
  }

  lemma EncodedLink(itemId: string, p: Payload)
    ensures OptionalString(EncodeItem(itemId, p), "link") == Some(p.link)
  {
    EncodedMember(itemId, p, 2);
    NullableRoundTrip(p.link, None);
  }

  lemma EncodedImage(itemId: string, p: Payload)
    ensures OptionalString(EncodeItem(itemId, p), "image") == Some(p.image)
  {
    EncodedMember(itemId, p, 3);
    NullableRoundTrip(p.image, None);
  }

  lemma EncodedNotes(itemId: string, p: Payload)
    ensures OptionalString(EncodeItem(itemId, p), "notes") == Some(p.notes)
  {
    EncodedMember(itemId, p, 4);
    NullableRoundTrip(p.notes, None);
  }

  lemma EncodedTarget(itemId: string, p: Payload)
    ensures RequiredNumber(EncodeItem(itemId, p), "targetPriceSats") == Some(p.targetPriceSats)
  {
    EncodedMember(itemId, p, 5);
  }

  lemma EncodedTargetEur(itemId: string, p: Payload)
    ensures OptionalNumber(EncodeItem(itemId, p), "targetPriceEUR") == Some(p.targetPriceEUR)
  {
    EncodedMember(itemId, p, 6);
    NullableRoundTrip(None, p.targetPriceEUR);
  }

  lemma EncodedSourceEur(itemId: string, p: Payload)
    ensures OptionalNumber(EncodeItem(itemId, p), "sourcePriceEUR") == Some(p.sourcePriceEUR)
  {
    EncodedMember(itemId, p, 7);
    NullableRoundTrip(None, p.sourcePriceEUR);
  }

  lemma EncodedSource(itemId: string, p: Payload)
    ensures OptionalString(EncodeItem(itemId, p), "source") == Some(p.source)
  {
    EncodedMember(itemId, p, 8);
    NullableRoundTrip(p.source, None);
  }

  /** The fields that are not written read as absent. */
  lemma EncodedUnwritten(itemId: string, p: Payload)
    ensures OptionalNumber(EncodeItem(itemId, p), "currentPriceSats") == Some(None)
    ensures OptionalString(EncodeItem(itemId, p), "status") == Some(None)
  {
    EncodedAbsent(itemId, p);
  }

  /** The written object with the two fields the parser reads but
      `buildEvent` never writes: a current price and a status. */
  function WithReadOnlyFields(itemId: string, p: Payload, current: real, status: string): Json {
    JObj(EncodeItem(itemId, p).members +
         [("currentPriceSats", JNum(current)), ("status", JStr(status))])
  }

  /** Extending an object with other keys leaves the written fields as they read. */
  lemma ExtendedMember(itemId: string, p: Payload, current: real, status: string, key: string)
    requires key != "currentPriceSats" && key != "status"
    ensures Member(WithReadOnlyFields(itemId, p, current, status), key) == Member(EncodeItem(itemId, p), key)
  {
    var ms := EncodeItem(itemId, p).members;
    LastMemberAppend(ms + [("currentPriceSats", JNum(current))], "status", JStr(status), key);
    LastMemberAppend(ms, "currentPriceSats", JNum(current), key);
    assert ms + [("currentPriceSats", JNum(current)), ("status", JStr(status))]
        == ms + [("currentPriceSats", JNum(current))] + [("status", JStr(status))];
  }

  /** The two extra fields read back as written. */
  lemma ExtendedExtras(itemId: string, p: Payload, current: real, status: string)
    ensures OptionalNumber(WithReadOnlyFields(itemId, p, current, status), "currentPriceSats") == Some(Some(current))
    ensures OptionalString(WithReadOnlyFields(itemId, p, current, status), "status") == Some(Some(status))
  {
    var ms := EncodeItem(itemId, p).members;
    LastMemberAppend(ms + [("currentPriceSats", JNum(current))], "status", JStr(status), "currentPriceSats");
    LastMemberAppend(ms, "currentPriceSats", JNum(current), "currentPriceSats");
    assert ms + [("currentPriceSats", JNum(current)), ("status", JStr(status))]
        == ms + [("currentPriceSats", JNum(current))] + [("status", JStr(status))];
  }

  /** The written fields read the same in the extended object. */
  lemma ExtendedWritten(itemId: string, p: Payload, current: real, status: string)
    ensures var blob := WithReadOnlyFields(itemId, p, current, status);
      var plain := EncodeItem(itemId, p);
      && OptionalString(blob, "id") == OptionalString(plain, "id")
      && RequiredString(blob, "title") == RequiredString(plain, "title")
      && OptionalString(blob, "link") == OptionalString(plain, "link")
      && OptionalString(blob, "image") == OptionalString(plain, "image")
      && OptionalString(blob, "notes") == OptionalString(plain, "notes")
      && RequiredNumber(blob, "targetPriceSats") == RequiredNumber(plain, "targetPriceSats")
      && OptionalNumber(blob, "targetPriceEUR") == OptionalNumber(plain, "targetPriceEUR")
      && OptionalNumber(blob, "sourcePriceEUR") == OptionalNumber(plain, "sourcePriceEUR")
      && OptionalString(blob, "source") == OptionalString(plain, "source")
  {
    ExtendedMember(itemId, p, current, status, "id");
    ExtendedMember(itemId, p, current, status, "title");
    ExtendedMember(itemId, p, current, status, "link");
    ExtendedMember(itemId, p, current, status, "image");
    ExtendedMember(itemId, p, current, status, "notes");
    ExtendedMember(itemId, p, current, status, "targetPriceSats");
    ExtendedMember(itemId, p, current, status, "targetPriceEUR");
    ExtendedMember(itemId, p, current, status, "sourcePriceEUR");
    ExtendedMember(itemId, p, current, status, "source");
  }

  /** The parser reads `currentPriceSats` and `status` from the blob when they
      are present, and every other field as before. */
  lemma DecodeReadsPriceAndStatus(itemId: string, p: Payload, current: real, status: string, e: Event)
    ensures DecodeItem(WithReadOnlyFields(itemId, p, current, status), e)
         == Some(Item(itemId, e.createdAt, p.title, p.link, p.image, p.notes,
                      p.targetPriceSats, p.targetPriceEUR, Some(current), p.sourcePriceEUR,
                      p.source, status, e.id))
  {
    ExtendedWritten(itemId, p, current, status);
    ExtendedExtras(itemId, p, current, status);
    EncodedId(itemId, p);
    EncodedTitle(itemId, p);
    EncodedLink(itemId, p);
    EncodedImage(itemId, p);
    EncodedNotes(itemId, p);
    EncodedTarget(itemId, p);
    EncodedTargetEur(itemId, p);
    EncodedSourceEur(itemId, p);
    EncodedSource(itemId, p);
  }

  /** `currentPriceSats` and `status` are not written. */
  lemma EncodedAbsent(itemId: string, p: Payload)
    ensures Member(EncodeItem(itemId, p), "currentPriceSats").None?
    ensures Member(EncodeItem(itemId, p), "status").None?
  {
    var ms := EncodeItem(itemId, p).members;
    assert forall k | 0 <= k < |ms| :: ms[k].0 != "currentPriceSats" && ms[k].0 != "status";
  }

  /** Key number `i` of the written object reads back as its own value. */
  lemma EncodedMember(itemId: string, p: Payload, i: nat)
    requires i < |ItemKeys|
    ensures Member(EncodeItem(itemId, p), ItemKeys[i]) == Some(EncodeItem(itemId, p).members[i].1)
    ensures forall key :: key !in ItemKeys ==> Member(EncodeItem(itemId, p), key).None?
  {
    var ms := EncodeItem(itemId, p).members;
    forall k | 0 <= k < |ms| ensures ms[k].0 == ItemKeys[k] {
    }
    KeyReads(ms, i);
  }

  /** The keys `buildEvent` writes, in order. */
  const ItemKeys: seq<string> := ["id", "title", "link", "image", "notes", "targetPriceSats",
                                   "targetPriceEUR", "sourcePriceEUR", "source"]

  lemma KeyReads(ms: seq<(string, Json)>, i: nat)
    requires |ms| == |ItemKeys| && i < |ms|
    requires forall k :: 0 <= k < |ms| ==> ms[k].0 == ItemKeys[k]
    ensures LastMember(ms, ItemKeys[i]) == Some(ms[i].1)
    ensures forall key :: key !in ItemKeys ==> LastMember(ms, key).None?
  {
    assert forall a, b :: 0 <= a < b < |ItemKeys| ==> ItemKeys[a] != ItemKeys[b];
    UniqueMember(ms, i);
  }

  /** The `d` tag and the blob agree on the logical id, so the parsed item
      is addressed by the tag relays index it under. */
  lemma DTagMatchesParsedId(pubkey: string, p: Payload, freshId: string, nowMs: int, eventId: string)
    ensures var e := Sign(BuildEvent(pubkey, p, freshId, nowMs), eventId);
      ParseWishlistEvent(e).Some? &&
      FindTag(e.tags, "d") == Some([Plain("d"), Plain(ParseWishlistEvent(e).value.id)])
  {
    RoundTrip(pubkey, p, freshId, nowMs, eventId);
  }
}
