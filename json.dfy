/** The optional value used where the source has a nullable result. */
module Wrappers {
  datatype Option<T> = None | Some(value: T) {
    /** The carried value, or `default` when there is none. */
    function GetOr(default: T): T {
      match this
      case Some(v) => v
      case None => default
    }
  }
}

/**
 * The already-loaded document tree the parser works on: the values of the
 * org.json library (JSONObject, JSONArray, strings, numbers, booleans and
 * JSONObject.NULL) and the accessors the parser calls on them.
 */
module JsonTree {
  import opened Wrappers

  datatype Json =
    | JNull
    | JBool(b: bool)
    | JNumber(n: int)
    | JString(s: string)
    | JArray(items: seq<Json>)
    | JObject(obj: Obj)

  /** A JSON object: its members in the order its key set is iterated. */
  datatype Obj = Obj(entries: seq<(string, Json)>)

  /** A JSONObject never holds a key twice. */
  ghost predicate DistinctKeys(o: Obj) {
    forall i, j :: 0 <= i < j < |o.entries| ==> o.entries[i].0 != o.entries[j].0
  }

  /** Why an accessor throws a JSONException. */
  datatype JsonError = NotFound(key: string) | WrongType(key: string, expected: string)

  datatype Result<T> = Ok(value: T) | Err(error: JsonError)

  /** The position of the member called `key`, or -1 when there is none. */
  function KeyIndex(entries: seq<(string, Json)>, key: string): (r: int)
    ensures -1 <= r < |entries|
    ensures r >= 0 ==> entries[r].0 == key
  {
    if |entries| == 0 then -1
    else if entries[0].0 == key then 0
    else
      var r := KeyIndex(entries[1..], key);
      if r < 0 then -1 else r + 1
  }

  /** No member before the one KeyIndex finds, and none at all when it finds none, has the key. */
  lemma {:induction false} KeyIndexFirst(entries: seq<(string, Json)>, key: string)
    ensures forall j :: 0 <= j < |entries| && (KeyIndex(entries, key) < 0 || j < KeyIndex(entries, key)) ==>
              entries[j].0 != key
  {
    if |entries| > 0 && entries[0].0 != key {
      KeyIndexFirst(entries[1..], key);
      assert forall j :: 1 <= j < |entries| ==> entries[j] == entries[1..][j - 1];
    }
  }

  /** `get(key)`: the member's value; a missing key throws. */
  function Get(o: Obj, key: string): Result<Json> {
    var r := KeyIndex(o.entries, key);
    if r < 0 then Err(NotFound(key)) else Ok(o.entries[r].1)
  }

  /** `getString(key)`: the value must be a string. */
  function GetString(o: Obj, key: string): Result<string> {
    match Get(o, key)
    case Ok(JString(s)) => Ok(s)
    case Ok(_) => Err(WrongType(key, "String"))
    case Err(e) => Err(e)
  }

  /** `getJSONArray(key)`: the value must be an array. */
  function GetArray(o: Obj, key: string): Result<seq<Json>> {
    match Get(o, key)
    case Ok(JArray(items)) => Ok(items)
    case Ok(_) => Err(WrongType(key, "JSONArray"))
    case Err(e) => Err(e)
  }

  /** `getJSONObject(key)`: the value must be an object. */
  function GetObject(o: Obj, key: string): Result<Obj> {
    match Get(o, key)
    case Ok(JObject(m)) => Ok(m)
    case Ok(_) => Err(WrongType(key, "JSONObject"))
    case Err(e) => Err(e)
  }

  /** Two member lists that hold `key` at exactly the same positions agree on where it is first found. */
  lemma KeyIndexAgrees(e: seq<(string, Json)>, e': seq<(string, Json)>, key: string)
    requires |e| <= |e'|
    requires forall j :: 0 <= j < |e| ==> (e'[j].0 == key <==> e[j].0 == key)
    requires KeyIndex(e, key) < 0 ==> forall j :: |e| <= j < |e'| ==> e'[j].0 != key
    ensures KeyIndex(e', key) == KeyIndex(e, key)
  {
    KeyIndexFirst(e, key);
    KeyIndexFirst(e', key);
    var a, b := KeyIndex(e, key), KeyIndex(e', key);
    if a >= 0 {
      assert e'[a].0 == key;
    }
    if b >= 0 && b < |e| {
      assert e[b].0 == key;
    }
  }

  /**
   * `put(key, v)`: the member called `key` now holds `v` and every other key
   * reads as before. Where a new member goes in the key order is this
   * model's choice (the end); org.json's hash map decides it otherwise.
   */
  function Put(o: Obj, key: string, v: Json): (r: Obj)
    ensures Get(r, key) == Ok(v)
    ensures forall k :: k != key ==> Get(r, k) == Get(o, k)
    ensures |r.entries| == if Get(o, key).Ok? then |o.entries| else |o.entries| + 1
    ensures forall j :: 0 <= j < |o.entries| && o.entries[j].0 != key ==> r.entries[j] == o.entries[j]
    ensures DistinctKeys(o) ==> DistinctKeys(r)
  {
    var i := KeyIndex(o.entries, key);
    var r := if i >= 0 then Obj(o.entries[i := (key, v)]) else Obj(o.entries + [(key, v)]);
    assert forall k :: k != key ==> KeyIndex(r.entries, k) == KeyIndex(o.entries, k) by {
      forall k | k != key {
        KeyIndexAgrees(o.entries, r.entries, k);
      }
    }
    if i >= 0 then
      KeyIndexAgrees(o.entries, r.entries, key);
      r
    else
      KeyIndexFirst(o.entries, key);
      KeyIndexFirst(r.entries, key);
      assert r.entries[|o.entries|].0 == key;
      assert KeyIndex(r.entries, key) == |o.entries|;
      r
  }

  /** `String.valueOf(v)`, that is `v + ""`: a string is itself, anything else is its JSON text. */
  function Text(v: Json): string {
    if v.JString? then v.s else Serialize(v)
  }

  /** The JSON text org.json writes for a value (toString on objects and arrays). */
  function Serialize(v: Json): string
    decreases v
  {
    match v
    case JNull => "null"
    case JBool(b) => if b then "true" else "false"
    case JNumber(n) => IntText(n)
    case JString(s) => Quote(s)
    case JArray(items) =>
      "[" + JoinCommas(seq(|items|, i requires 0 <= i < |items| => Serialize(items[i]))) + "]"
    case JObject(o) =>
      "{" + JoinCommas(seq(|o.entries|, i requires 0 <= i < |o.entries| =>
                             Quote(o.entries[i].0) + ":" + Serialize(o.entries[i].1))) + "}"
  }

  function JoinCommas(parts: seq<string>): string {
    if |parts| == 0 then ""
    else if |parts| == 1 then parts[0]
    else parts[0] + "," + JoinCommas(parts[1..])
  }

  /** A string literal with its quote, backslash and common control characters escaped. */
  function Quote(s: string): string {
    "\"" + Escape(s) + "\""
  }

  function Escape(s: string): string {
    if |s| == 0 then ""
    else
      var c := s[0];
      var e := if c == '"' then "\\\""
               else if c == '\\' then "\\\\"
               else if c == '\n' then "\\n"
               else if c == '\r' then "\\r"
               else if c == '\t' then "\\t"
               else if c as int == 8 then "\\b"
               else if c as int == 12 then "\\f"
               else [c];
      e + Escape(s[1..])
  }

  /** Decimal text of an integer, with a leading '-' when negative. */
  function IntText(n: int): string {
    if n < 0 then "-" + NatText(-n) else NatText(n)
  }

  function NatText(n: nat): string {
    if n < 10 then [Digit(n)] else NatText(n / 10) + [Digit(n % 10)]
  }

  function Digit(d: nat): char
    requires d < 10
  {
    "0123456789"[d]
  }

  /** Looking up a member's key yields that member's value when no earlier member has the same key. */
  lemma {:induction false} GetFirst(o: Obj, i: nat)
    requires i < |o.entries|
    requires forall j :: 0 <= j < i ==> o.entries[j].0 != o.entries[i].0
    ensures Get(o, o.entries[i].0) == Ok(o.entries[i].1)
  {
    KeyIndexFirst(o.entries, o.entries[i].0);
    var r := KeyIndex(o.entries, o.entries[i].0);
    assert r <= i;
  }

  /** In an object with distinct keys, looking up a member's key yields that member's value. */
  lemma {:induction false} GetEntry(o: Obj, i: nat)
    requires DistinctKeys(o)
    requires i < |o.entries|
    ensures Get(o, o.entries[i].0) == Ok(o.entries[i].1)
  {
    GetFirst(o, i);
  }
}
