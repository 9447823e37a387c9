/** A codec that meets `Json.Lawful`, so the assumption the session and
    sign-in proofs make of `JSON.parse`/`JSON.stringify` can be met. The
    encoding is not JSON's text format: each value is written as a tag and
    self-delimiting counts, which makes it readable back from the front of
    any text it starts. Parsing picks the value whose encoding the text is. */
module CodecWitness {
  import opened Optional
  import opened Json

  /** `n` marks closed by a semicolon. */
  function Count(n: nat): (r: string)
    ensures |r| == n + 1 && r[n] == ';'
    ensures forall i :: 0 <= i < n ==> r[i] == '|'
  {
    if n == 0 then ";" else "|" + Count(n - 1)
  }

  /** A string as its length and then its characters. */
  function Str(s: string): string {
    Count(|s|) + s
  }

  /** The keys of a map, each once, in some fixed order. */
  ghost function Keys(m: map<string, JsonValue>): (ks: seq<string>)
    ensures forall k :: k in m <==> k in ks
    decreases |m|
  {
    if |m| == 0 then []
    else
      var k :| k in m;
      [k] + Keys(m - {k})
  }

  function Flatten(ss: seq<string>): string {
    if ss == [] then "" else ss[0] + Flatten(ss[1..])
  }

  /** The first character of an encoding: the kind of value, and for
      booleans and numbers also the value's sign. */
  function Tag(v: JsonValue): char {
    match v
    case JNull => 'n'
    case JBool(b) => if b then 't' else 'f'
    case JNumber(n) => if n >= 0 then 'p' else 'm'
    case JString(_) => 's'
    case JArray(_) => 'a'
    case JObject(_) => 'o'
  }

  /** The encoding: the tag, then the payload. */
  ghost function Enc(v: JsonValue): (s: string)
    ensures s != []
    decreases v, 2
  {
    [Tag(v)] + Payload(v)
  }

  ghost function Payload(v: JsonValue): string
    decreases v, 1
  {
    match v
    case JNull => ""
    case JBool(_) => ""
    case JNumber(n) => Count(if n >= 0 then n else -n)
    case JString(s) => Str(s)
    case JArray(items) => Count(|items|) + Flatten(Pieces(v))
    case JObject(fields) => Count(|Keys(fields)|) + Flatten(Pieces(v))
  }

  /** The encodings of an array's items, or of an object's fields as key
      and value, in key order. */
  ghost function Pieces(v: JsonValue): (ps: seq<string>)
    requires v.JArray? || v.JObject?
    ensures v.JArray? ==> |ps| == |v.items| && forall i :: 0 <= i < |ps| ==> ps[i] == Enc(v.items[i])
    ensures v.JObject? ==> var ks := Keys(v.fields);
      |ps| == |ks| && forall i :: 0 <= i < |ps| ==> ps[i] == Str(ks[i]) + Enc(v.fields[ks[i]])
    decreases v, 0
  {
    match v
    case JArray(items) => seq(|items|, i requires 0 <= i < |items| => Enc(items[i]))
    case JObject(fields) =>
      var ks := Keys(fields);
      seq(|ks|, i requires 0 <= i < |ks| => Str(ks[i]) + Enc(fields[ks[i]]))
  }

  ghost function Parse(s: string): Option<JsonValue> {
    if exists v :: Enc(v) == s then Some(var v :| Enc(v) == s; v) else None
  }

  ghost function Witness(): Codec {
    Codec(s => Parse(s), v => Enc(v))
  }

  /** Some codec is lawful. */
  lemma LawfulCodecExists()
    ensures exists c :: Lawful(c)
  {
    var c := Witness();
    forall v
      ensures c.parse(c.stringify(v)) == Some(v)
    {
      forall w | Enc(w) == Enc(v)
        ensures w == v
      {
        EncPrefix(w, v, "", "");
      }
    }
    assert Lawful(c);
  }

  // --------------------------------------------------- reading back

  lemma CountPrefix(a: nat, b: nat, r1: string, r2: string)
    requires Count(a) + r1 == Count(b) + r2
    ensures a == b && r1 == r2
  {
    var k, x := if a < b then a else b, Count(a) + r1;
    assert x[k] == (if k == a then ';' else '|');
    assert x[k] == (Count(b) + r2)[k] == (if k == b then ';' else '|');
    assert r1 == (Count(a) + r1)[a + 1..];
    assert r2 == (Count(b) + r2)[b + 1..];
  }

  /** A count at the front is read off, leaving the rest. */
  lemma AfterCount(a: nat, b: nat, x: string, y: string, r1: string, r2: string)
    requires Count(a) + x + r1 == Count(b) + y + r2
    ensures a == b && x + r1 == y + r2
  {
    assert Count(a) + x + r1 == Count(a) + (x + r1);
    assert Count(b) + y + r2 == Count(b) + (y + r2);
    CountPrefix(a, b, x + r1, y + r2);
  }

  lemma StrPrefix(s: string, t: string, r1: string, r2: string)
    requires Str(s) + r1 == Str(t) + r2
    ensures s == t && r1 == r2
  {
    AfterCount(|s|, |t|, s, t, r1, r2);
    assert s == (s + r1)[..|s|] && t == (t + r2)[..|t|];
    assert r1 == (s + r1)[|s|..] && r2 == (t + r2)[|t|..];
  }

  lemma HeadTail(c: char, d: char, x: string, y: string)
    requires [c] + x == [d] + y
    ensures c == d && x == y
  {
    assert c == ([c] + x)[0] && d == ([d] + y)[0];
    assert x == ([c] + x)[1..] && y == ([d] + y)[1..];
  }

  /** An encoding at the front of a text is read off whole: it fixes the
      value and the rest of the text. */
  lemma {:induction false} EncPrefix(v: JsonValue, w: JsonValue, r1: string, r2: string)
    requires Enc(v) + r1 == Enc(w) + r2
    ensures v == w && r1 == r2
    decreases v, 2, 0
  {
    assert Enc(v) + r1 == [Tag(v)] + (Payload(v) + r1);
    assert Enc(w) + r2 == [Tag(w)] + (Payload(w) + r2);
    HeadTail(Tag(v), Tag(w), Payload(v) + r1, Payload(w) + r2);
    PayloadPrefix(v, w, r1, r2);
  }

  /** Values with the same tag whose payloads open two texts alike. */
  lemma {:induction false} PayloadPrefix(v: JsonValue, w: JsonValue, r1: string, r2: string)
    requires Tag(v) == Tag(w) && Payload(v) + r1 == Payload(w) + r2
    ensures v == w && r1 == r2
    decreases v, 1, 0
  {
    TagDecides(v, w);
    match v
    case JNull =>
      assert Payload(v) == "" && Payload(w) == "" && "" + r1 == r1 && "" + r2 == r2;
    case JBool(b) =>
      assert Payload(v) == "" && Payload(w) == "" && "" + r1 == r1 && "" + r2 == r2;
    case JNumber(n) =>
      NumberPrefix(n, w.n, r1, r2);
    case JString(s) =>
      StrPrefix(s, w.s, r1, r2);
    case JArray(items) =>
      AfterCount(|items|, |w.items|, Flatten(Pieces(v)), Flatten(Pieces(w)), r1, r2);
      ItemsPrefix(v, w, 0, r1, r2);
      assert items == items[0..] && w.items == w.items[0..];
    case JObject(fields) =>
      var ks, kt := Keys(fields), Keys(w.fields);
      AfterCount(|ks|, |kt|, Flatten(Pieces(v)), Flatten(Pieces(w)), r1, r2);
      FieldsPrefix(v, w, ks, kt, 0, r1, r2);
      SameMap(fields, w.fields, ks, kt);
  }

  /** Equal tags: the same kind of value, and the same value when it is
      `null` or a boolean. */
  lemma TagDecides(v: JsonValue, w: JsonValue)
    requires Tag(v) == Tag(w)
    ensures v.JNull? ==> w == v
    ensures v.JBool? ==> w == v
    ensures v.JNumber? ==> w.JNumber? && (v.n >= 0) == (w.n >= 0)
    ensures v.JString? ==> w.JString?
    ensures v.JArray? ==> w.JArray?
    ensures v.JObject? ==> w.JObject?
  {
  }

  lemma NumberPrefix(n: int, m: int, r1: string, r2: string)
    requires (n >= 0) == (m >= 0)
    requires Count(if n >= 0 then n else -n) + r1 == Count(if m >= 0 then m else -m) + r2
    ensures n == m && r1 == r2
  {
    CountPrefix(if n >= 0 then n else -n, if m >= 0 then m else -m, r1, r2);
  }

  /** Maps whose key lists agree and whose values agree along them. */
  lemma SameMap(a: map<string, JsonValue>, b: map<string, JsonValue>, ks: seq<string>, kt: seq<string>)
    requires ks == Keys(a) && kt == Keys(b) && ks[0..] == kt[0..]
    requires forall j :: 0 <= j < |ks| ==> a[ks[j]] == b[kt[j]]
    ensures a == b
  {
    assert ks == ks[0..] && kt == kt[0..];
    forall k | k in a
      ensures k in b && a[k] == b[k]
    {
      var j :| 0 <= j < |ks| && ks[j] == k;
    }
  }

  /** Flattening from position `i` on is the piece there and the rest. */
  lemma FlattenFrom(ps: seq<string>, i: nat)
    requires i < |ps|
    ensures Flatten(ps[i..]) == ps[i] + Flatten(ps[i + 1..])
  {
    assert ps[i..][1..] == ps[i + 1..];
  }

  /** Two flattenings that open texts alike, from position `i` on. */
  lemma FlattenStep(ps: seq<string>, pt: seq<string>, i: nat, r1: string, r2: string)
    requires i < |ps| && i < |pt|
    requires Flatten(ps[i..]) + r1 == Flatten(pt[i..]) + r2
    ensures ps[i] + (Flatten(ps[i + 1..]) + r1) == pt[i] + (Flatten(pt[i + 1..]) + r2)
  {
    FlattenFrom(ps, i);
    FlattenFrom(pt, i);
    var f, g := Flatten(ps[i + 1..]), Flatten(pt[i + 1..]);
    assert (ps[i] + f) + r1 == ps[i] + (f + r1);
    assert (pt[i] + g) + r2 == pt[i] + (g + r2);
  }

  lemma FlattenEnd(ps: seq<string>, pt: seq<string>, i: nat, r1: string, r2: string)
    requires i == |ps| && i == |pt|
    requires Flatten(ps[i..]) + r1 == Flatten(pt[i..]) + r2
    ensures r1 == r2
  {
    assert ps[i..] == [] && pt[i..] == [];
    assert Flatten(ps[i..]) == "" && Flatten(pt[i..]) == "";
    assert "" + r1 == r1 && "" + r2 == r2;
  }

  lemma Regroup(p: string, q: string, r: string)
    ensures (p + q) + r == p + (q + r)
  {
  }

  lemma ConsSlice<T>(s: seq<T>, i: nat)
    requires i < |s|
    ensures s[i..] == [s[i]] + s[i + 1..]
  {
  }

  lemma {:induction false} ItemsPrefix(v: JsonValue, w: JsonValue, i: nat, r1: string, r2: string)
    requires v.JArray? && w.JArray? && |v.items| == |w.items| && i <= |v.items|
    requires Flatten(Pieces(v)[i..]) + r1 == Flatten(Pieces(w)[i..]) + r2
    ensures v.items[i..] == w.items[i..] && r1 == r2
    decreases v, 0, |v.items| - i
  {
    var ps, pt := Pieces(v), Pieces(w);
    if i == |v.items| {
      FlattenEnd(ps, pt, i, r1, r2);
    } else {
      FlattenStep(ps, pt, i, r1, r2);
      var x, y := Flatten(ps[i + 1..]) + r1, Flatten(pt[i + 1..]) + r2;
      assert ps[i] == Enc(v.items[i]) && pt[i] == Enc(w.items[i]);
      EncPrefix(v.items[i], w.items[i], x, y);
      ItemsPrefix(v, w, i + 1, r1, r2);
      assert v.items[i..] == [v.items[i]] + v.items[i + 1..];
      assert w.items[i..] == [w.items[i]] + w.items[i + 1..];
    }
  }

  lemma {:induction false} FieldsPrefix(v: JsonValue, w: JsonValue, ks: seq<string>, kt: seq<string>,
                                        i: nat, r1: string, r2: string)
    requires v.JObject? && w.JObject? && ks == Keys(v.fields) && kt == Keys(w.fields)
    requires |ks| == |kt| && i <= |ks|
    requires Flatten(Pieces(v)[i..]) + r1 == Flatten(Pieces(w)[i..]) + r2
    ensures ks[i..] == kt[i..] && r1 == r2
    ensures forall j :: i <= j < |ks| ==> v.fields[ks[j]] == w.fields[kt[j]]
    decreases v, 0, |ks| - i
  {
    var ps, pt := Pieces(v), Pieces(w);
    if i == |ks| {
      FlattenEnd(ps, pt, i, r1, r2);
    } else {
      FlattenStep(ps, pt, i, r1, r2);
      var x, y := Flatten(ps[i + 1..]) + r1, Flatten(pt[i + 1..]) + r2;
      var a, b := v.fields[ks[i]], w.fields[kt[i]];
      assert ps[i] == Str(ks[i]) + Enc(a) && pt[i] == Str(kt[i]) + Enc(b);
      Regroup(Str(ks[i]), Enc(a), x);
      Regroup(Str(kt[i]), Enc(b), y);
      StrPrefix(ks[i], kt[i], Enc(a) + x, Enc(b) + y);
      EncPrefix(a, b, x, y);
      FieldsPrefix(v, w, ks, kt, i + 1, r1, r2);
      ConsSlice(ks, i);
      ConsSlice(kt, i);
    }
  }
}
