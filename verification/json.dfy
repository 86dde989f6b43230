/** JSON values as `JSON.parse` yields them, and the text positions where the
    wishlist code stores them. Text-level serialisation is not modelled: a
    string that holds JSON is represented by the value it encodes. */
module Json {
  import opened Options

  /** A parsed JSON document. Numbers are exact reals (JavaScript doubles
      without rounding); an object keeps its members in textual order, and a
      repeated key is read with last-one-wins semantics, as `JSON.parse` does. */
  datatype Json =
    | JNull
    | JBool(b: bool)
    | JNum(n: real)
    | JStr(s: string)
    | JArr(elems: seq<Json>)
    | JObj(members: seq<(string, Json)>)

  /** A string in an event (a tag element or the content). `Encoded(v)` is the
      text `JSON.stringify(v)` produces; `Plain(raw)` is any other text, and
      the model treats it as not being a JSON document. */
  datatype Text = Plain(raw: string) | Encoded(value: Json)

  /** `JSON.stringify`. */
  function Stringify(v: Json): Text {
    Encoded(v)
  }

  /** `JSON.parse`, with a thrown SyntaxError as None. */
  function Parse(t: Text): (r: Option<Json>)
    ensures r.Some? <==> t.Encoded?
    ensures t.Encoded? ==> r == Some(t.value)
  {
    match t
    case Plain(_) => None
    case Encoded(v) => Some(v)
  }

  /** The value of key `key` among `ms`: the last member with that key. */
  function LastMember(ms: seq<(string, Json)>, key: string): (r: Option<Json>)
    ensures r.None? <==> forall i :: 0 <= i < |ms| ==> ms[i].0 != key
    ensures r.Some? ==>
      exists i :: 0 <= i < |ms| && ms[i].0 == key && ms[i].1 == r.value &&
        forall j :: i < j < |ms| ==> ms[j].0 != key
  {
    if |ms| == 0 then None
    else if ms[|ms| - 1].0 == key then Some(ms[|ms| - 1].1)
    else LastMember(ms[..|ms| - 1], key)
  }

  /** Appending a member overrides `key` exactly when it names `key`. */
  lemma LastMemberAppend(ms: seq<(string, Json)>, k: string, v: Json, key: string)
    ensures LastMember(ms + [(k, v)], key) == if key == k then Some(v) else LastMember(ms, key)
  {
    assert (ms + [(k, v)])[..|ms|] == ms;
  }

  /** Property access `v.key` on a parsed value that is not null: objects
      yield their member, every other value has none of the wishlist's keys. */
  function Member(v: Json, key: string): Option<Json> {
    match v
    case JObj(ms) => LastMember(ms, key)
    case _ => None
  }

  /** A key that occurs exactly once is read back as its own value. */
  lemma UniqueMember(ms: seq<(string, Json)>, i: nat)
    requires i < |ms|
    requires forall j :: 0 <= j < |ms| && j != i ==> ms[j].0 != ms[i].0
    ensures LastMember(ms, ms[i].0) == Some(ms[i].1)
  {
  }
}
