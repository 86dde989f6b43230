/** The protocol's event envelope as the wishlist code uses it. */
module Nostr {
  import opened Options
  import opened Json

  /** A tag is a list of strings; its first element is the tag name. */
  type Tag = seq<Text>

  /** An event before signing: `Omit<NostrEvent, 'id' | 'sig'>`. */
  datatype Draft = Draft(kind: int, content: Text, tags: seq<Tag>, createdAt: int, pubkey: string)

  /** A signed event. The signature itself is not modelled, only the id the
      signer assigns. */
  datatype Event = Event(id: string, pubkey: string, createdAt: int, kind: int, tags: seq<Tag>, content: Text)

  /** The signer's contribution: the event id. */
  function Sign(d: Draft, eventId: string): (e: Event)
    ensures e.kind == d.kind && e.tags == d.tags && e.content == d.content
    ensures e.createdAt == d.createdAt && e.pubkey == d.pubkey && e.id == eventId
  {
    Event(eventId, d.pubkey, d.createdAt, d.kind, d.tags, d.content)
  }

  /** Seconds since the epoch from a millisecond clock: `Math.floor(ms / 1000)`
      (Dafny's division by a positive divisor rounds down, as `Math.floor` does). */
  function Seconds(nowMs: int): (s: int)
    ensures s * 1000 <= nowMs < s * 1000 + 1000
  {
    nowMs / 1000
  }

  predicate IsNamed(t: Tag, name: string) {
    |t| > 0 && t[0] == Plain(name)
  }

  /** `tags.find(([n]) => n === name)`: the first tag with that name. */
  function FindTag(tags: seq<Tag>, name: string): (r: Option<Tag>)
    ensures r.None? <==> forall i :: 0 <= i < |tags| ==> !IsNamed(tags[i], name)
    ensures r.Some? ==>
      exists i :: 0 <= i < |tags| && tags[i] == r.value && IsNamed(tags[i], name) &&
        forall j :: 0 <= j < i ==> !IsNamed(tags[j], name)
  {
    if |tags| == 0 then None
    else if IsNamed(tags[0], name) then Some(tags[0])
    else
      var r := FindTag(tags[1..], name);
      assert forall j :: 1 <= j < |tags| ==> tags[j] == tags[1..][j - 1];
      r
  }
}
