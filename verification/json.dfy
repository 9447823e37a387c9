/** The JSON values kept in browser storage and the few JavaScript
    operations applied to them: truthiness, reading a named property, and
    the object spread `{...v}`. `JSON.parse` and `JSON.stringify` are not
    defined here; they are a `Codec` supplied by the caller, of which the
    proofs assume that parsing what was stringified gives it back and that
    the empty string does not parse (`Lawful`). */
module Json {
  import opened Optional
  import opened Text

  /** A parsed JSON value. Numbers are whole: the records the site writes
      hold none, and fractions are not modelled. */
  datatype JsonValue =
    | JNull
    | JBool(b: bool)
    | JNumber(n: int)
    | JString(s: string)
    | JArray(items: seq<JsonValue>)
    | JObject(fields: map<string, JsonValue>)

  /** `Boolean(x)` for a property read, `None` being `undefined`. */
  predicate Truthy(v: Option<JsonValue>) {
    match v
    case None => false
    case Some(JNull) => false
    case Some(JBool(b)) => b
    case Some(JNumber(n)) => n != 0
    case Some(JString(s)) => s != ""
    case Some(_) => true
  }

  /** `v.key` for the named keys the site reads (`email`, `password`,
      `isAuthenticated`): an object's own field; strings, arrays and other
      primitives have no such property. Reading one from `null` throws, which
      the callers model themselves. */
  function Member(v: JsonValue, key: string): (r: Option<JsonValue>)
    ensures r.Some? <==> v.JObject? && key in v.fields
  {
    if v.JObject? && key in v.fields then Some(v.fields[key]) else None
  }

  /** The string value of a property, when it is a string
      (`typeof v.key === "string"`). */
  function StringMember(v: JsonValue, key: string): Option<string> {
    match Member(v, key)
    case Some(JString(s)) => Some(s)
    case _ => None
  }

  /** `m` holds exactly the items of `items`, each under its decimal index,
      as a spread of an array or a string copies them. */
  predicate IsIndexMap(m: map<string, JsonValue>, items: seq<JsonValue>) {
    && (forall i :: 0 <= i < |items| ==> NatToString(i) in m && m[NatToString(i)] == items[i])
    && (forall k :: k in m ==> exists i :: 0 <= i < |items| && k == NatToString(i))
  }

  /** The first `n` items keyed by their decimal index. */
  function IndexedItems(items: seq<JsonValue>, n: nat): (m: map<string, JsonValue>)
    requires n <= |items|
    ensures IsIndexMap(m, items[..n])
    ensures forall k :: k in m ==> AllDigits(k)
  {
    if n == 0 then map[]
    else
      var m := IndexedItems(items, n - 1);
      IndexMapExtend(m, items[..n], n - 1);
      assert items[..n][..n - 1] == items[..n - 1];
      m[NatToString(n - 1) := items[n - 1]]
  }

  /** Adding the item at index `n` to the map of the items before it. */
  lemma IndexMapExtend(m: map<string, JsonValue>, items: seq<JsonValue>, n: nat)
    requires n < |items| && IsIndexMap(m, items[..n])
    ensures IsIndexMap(m[NatToString(n) := items[n]], items[..n + 1])
  {
    IndexKeysDistinct(n);
    var m' := m[NatToString(n) := items[n]];
    forall k | k in m'
      ensures exists i :: 0 <= i < n + 1 && k == NatToString(i)
    {
      if k != NatToString(n) {
        var i :| 0 <= i < n && k == NatToString(i);
      }
    }
  }

  /** Smaller indices have other decimal names. */
  lemma IndexKeysDistinct(n: nat)
    ensures forall i :: 0 <= i < n ==> NatToString(i) != NatToString(n)
  {
    forall i | 0 <= i < n
      ensures NatToString(i) != NatToString(n)
    {
      if NatToString(i) == NatToString(n) {
        NatToStringInjective(i, n);
      }
    }
  }

  /** A string's characters as the one-character strings a spread of the
      string yields. */
  function CharItems(s: string): (items: seq<JsonValue>)
    ensures |items| == |s|
    ensures forall i :: 0 <= i < |s| ==> items[i] == JString([s[i]])
  {
    seq(|s|, i requires 0 <= i < |s| => JString([s[i]]))
  }

  /** The own enumerable properties `{...v}` copies: an object's fields, a
      string's characters or an array's items under their decimal indices,
      and nothing from `null`, booleans and numbers. Only an object can
      contribute a non-numeric key. */
  function Spread(v: JsonValue): (m: map<string, JsonValue>)
    ensures v.JObject? ==> m == v.fields
    ensures v.JNull? || v.JBool? || v.JNumber? ==> m == map[]
    ensures v.JArray? ==> IsIndexMap(m, v.items)
    ensures v.JString? ==> IsIndexMap(m, CharItems(v.s))
    ensures !v.JObject? ==> forall k :: k in m ==> AllDigits(k)
  {
    match v
    case JObject(fields) => fields
    case JArray(items) =>
      assert items[..|items|] == items;
      IndexedItems(items, |items|)
    case JString(s) =>
      assert CharItems(s)[..|s|] == CharItems(s);
      IndexedItems(CharItems(s), |s|)
    case _ => map[]
  }

  /** `JSON.parse` (failing on malformed text) and `JSON.stringify`. */
  datatype Codec = Codec(parse: string -> Option<JsonValue>, stringify: JsonValue -> string)

  /** What the proofs need of the codec: the empty string is not JSON, and
      parsing stringified text gives the value back. Numbers being whole,
      the values are countably many, and `CodecWitness.LawfulCodecExists`
      shows a codec with both properties. */
  ghost predicate Lawful(c: Codec) {
    && c.parse("") == None
    && forall v :: c.parse(c.stringify(v)) == Some(v)
  }

  /** Stringified JSON is never empty, so storage holding it reads as set. */
  lemma StringifyNonEmpty(c: Codec, v: JsonValue)
    requires Lawful(c)
    ensures c.stringify(v) != ""
    ensures c.parse(c.stringify(v)) == Some(v)
  {
    assert c.parse(c.stringify(v)) == Some(v);
  }
}
