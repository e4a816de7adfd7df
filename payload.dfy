/**
 * Locating the base64 image in a robot's JSON reply: the value of the first
 * known field that is present, or else the first string field longer than
 * 100 characters, with any data-URL prefix (everything up to the first
 * comma) removed.
 */
module Payload {
  import opened Wrappers

  /** A JSON value; only what the extraction looks at is kept of arrays and objects. */
  datatype Json =
    | JNull
    | JBool(b: bool)
    | JNumber(x: real)
    | JString(s: string)
    | JArray(length: nat)
    | JObject(size: nat)

  predicate DistinctKeys(items: seq<(string, Json)>)
  {
    forall i, j :: 0 <= i < j < |items| ==> items[i].0 != items[j].0
  }

  /** A decoded JSON object: its fields in document order, each key once (a Python dict). */
  type JsonObject = items: seq<(string, Json)> | DistinctKeys(items) witness []

  /** Why one fetch of one robot failed. */
  datatype FetchError =
    | RequestFailed(reason: string)   // connection error, timeout, non-2xx status, body not a JSON object
    | NoPayload                       // neither a known field nor a long string field
    | PayloadNotString                // the chosen value is not a string (Python raises a TypeError)
    | DecodeFailed(reason: string)    // base64 or image decoding rejected the payload
    | SaveFailed(reason: string)      // the annotated frame could not be written to the archive

  /** The field names tried first, in priority order. */
  const PriorityKeys: seq<string> := ["base64", "image", "data", "color_image", "image_base64"]

  /** The fallback accepts string fields strictly longer than this. */
  const MinFallbackLength := 100

  /** Python's truth value of a JSON value (`not x` is its negation). */
  predicate Truthy(v: Json)
  {
    match v
    case JNull => false
    case JBool(b) => b
    case JNumber(x) => x != 0.0
    case JString(s) => |s| > 0
    case JArray(n) => n > 0
    case JObject(n) => n > 0
  }

  predicate IsLongString(v: Json)
  {
    v.JString? && |v.s| > MinFallbackLength
  }

  /** `data[key]` if `key in data`. */
  function Lookup(data: seq<(string, Json)>, key: string): (r: Option<Json>)
    ensures r.None? <==> forall i :: 0 <= i < |data| ==> data[i].0 != key
    ensures r.Some? ==> exists i :: 0 <= i < |data| && data[i] == (key, r.value)
  {
    if data == [] then None
    else if data[0].0 == key then Some(data[0].1)
    else
      var r := Lookup(data[1..], key);
      assert forall i :: 1 <= i < |data| ==> data[i] == data[1..][i - 1];
      r
  }

  /** In a dict each key has one value, so `Lookup` finds the value of any field. */
  lemma LookupField(data: JsonObject, i: int)
    requires 0 <= i < |data|
    ensures Lookup(data, data[i].0) == Some(data[i].1)
  {
    var r := Lookup(data, data[i].0);
    var j :| 0 <= j < |data| && data[j] == (data[i].0, r.value);
    assert i == j;
  }

  /** The value of the first of `keys` present in `data`, if any. */
  function FirstPresent(data: seq<(string, Json)>, keys: seq<string>): (r: Option<Json>)
    ensures r.None? <==> forall j :: 0 <= j < |keys| ==> Lookup(data, keys[j]).None?
    ensures r.Some? ==> exists i :: 0 <= i < |keys| && Lookup(data, keys[i]) == r
                                    && forall j :: 0 <= j < i ==> Lookup(data, keys[j]).None?
  {
    if keys == [] then None
    else if Lookup(data, keys[0]).Some? then Lookup(data, keys[0])
    else
      var r := FirstPresent(data, keys[1..]);
      assert forall j :: 1 <= j < |keys| ==> keys[j] == keys[1..][j - 1];
      r
  }

  /** The first string field longer than 100 characters, if any. */
  function FirstLongString(data: seq<(string, Json)>): (r: Option<string>)
    ensures r.None? <==> forall j :: 0 <= j < |data| ==> !IsLongString(data[j].1)
    ensures r.Some? ==> exists i :: 0 <= i < |data| && data[i].1 == JString(r.value)
                                    && |r.value| > MinFallbackLength
                                    && forall j :: 0 <= j < i ==> !IsLongString(data[j].1)
  {
    if data == [] then None
    else if IsLongString(data[0].1) then Some(data[0].1.s)
    else
      var r := FirstLongString(data[1..]);
      assert forall j :: 1 <= j < |data| ==> data[j] == data[1..][j - 1];
      r
  }

  /**
   * The value the dashboard goes on to decode: the value under the first
   * known key present, unless that is absent or falsy, in which case the
   * first long string field; otherwise the "no payload" error.
   */
  function SelectPayload(data: JsonObject): (r: Result<Json, FetchError>)
    ensures r.Success? ==> Truthy(r.value)
    ensures r.Failure? ==> r.error == NoPayload
  {
    var chosen := FirstPresent(data, PriorityKeys);
    if chosen.Some? && Truthy(chosen.value) then Success(chosen.value)
    else match FirstLongString(data)
      case Some(s) => Success(JString(s))
      case None => Failure(NoPayload)
  }

  /** What `SelectPayload` promises, case by case. */
  lemma SelectPayloadCases(data: JsonObject)
    ensures var chosen := FirstPresent(data, PriorityKeys);
      && (chosen.Some? && Truthy(chosen.value) ==> SelectPayload(data) == Success(chosen.value))
      && (!(chosen.Some? && Truthy(chosen.value)) ==>
            && (SelectPayload(data).Failure? <==> forall j :: 0 <= j < |data| ==> !IsLongString(data[j].1))
            && (SelectPayload(data).Failure? ==> SelectPayload(data).error == NoPayload)
            && (SelectPayload(data).Success? ==>
                  exists i :: 0 <= i < |data| && data[i].1 == SelectPayload(data).value
                              && IsLongString(data[i].1)
                              && forall j :: 0 <= j < i ==> !IsLongString(data[j].1)))
  {
  }

  /** Without a non-empty known field and without a long string field there is no payload. */
  lemma NoPayloadSelected(data: JsonObject)
    requires FirstPresent(data, PriorityKeys).None? || !Truthy(FirstPresent(data, PriorityKeys).value)
    requires forall j :: 0 <= j < |data| ==> !IsLongString(data[j].1)
    ensures SelectPayload(data) == Failure(NoPayload)
    ensures ExtractBase64(data) == Failure(NoPayload)
  {
    assert FirstLongString(data).None?;
  }

  /** A reply whose first known field holds a non-empty value yields that value. */
  lemma KnownFieldWins(data: JsonObject, i: int, v: Json)
    requires 0 <= i < |PriorityKeys| && Lookup(data, PriorityKeys[i]) == Some(v) && Truthy(v)
    requires forall j :: 0 <= j < i ==> Lookup(data, PriorityKeys[j]).None?
    ensures SelectPayload(data) == Success(v)
  {
    var chosen := FirstPresent(data, PriorityKeys);
    var k :| 0 <= k < |PriorityKeys| && Lookup(data, PriorityKeys[k]) == chosen
             && forall j :: 0 <= j < k ==> Lookup(data, PriorityKeys[j]).None?;
    assert k == i;
  }

  // ---------------------------------------------------------------------------
  // Data-URL prefix

  /** The position of the first comma in `s`, if any. */
  function FirstComma(s: string): (r: Option<nat>)
    ensures r.None? <==> ',' !in s
    ensures r.Some? ==> r.value < |s| && s[r.value] == ',' && ',' !in s[..r.value]
  {
    if s == [] then None
    else if s[0] == ',' then Some(0)
    else
      var r := FirstComma(s[1..]);
      assert s == [s[0]] + s[1..];
      if r.Some? then
        assert s[..r.value + 1] == [s[0]] + s[1..][..r.value];
        Some(r.value + 1)
      else None
  }

  /** `s.split(",", 1)[1]` when `"," in s`, else `s` itself. */
  function StripDataUrlPrefix(s: string): (r: string)
  {
    match FirstComma(s)
    case None => s
    case Some(i) => s[i + 1..]
  }

  /**
   * A string without a comma is unchanged; otherwise the result is what
   * follows a comma-free prefix and the first comma.
   */
  lemma StripDataUrlPrefixSpec(s: string)
    ensures ',' !in s ==> StripDataUrlPrefix(s) == s
    ensures ',' in s ==> exists p :: ',' !in p && p + "," + StripDataUrlPrefix(s) == s
  {
    var c := FirstComma(s);
    if c.Some? {
      var p := s[..c.value];
      assert p + "," + s[c.value + 1..] == s;
    }
  }

  /** Stripping a data-URL prefix from base64 text (which has no comma) recovers the text. */
  lemma StripDataUrlPrefixOfUrl(prefix: string, body: string)
    requires ',' !in prefix && ',' !in body
    ensures StripDataUrlPrefix(prefix + "," + body) == body
    ensures StripDataUrlPrefix(body) == body
  {
    var s := prefix + "," + body;
    var c := FirstComma(s);
    assert s[|prefix|] == ',';
    assert c.Some?;
    assert s[..|prefix|] == prefix;
    assert c.value == |prefix|;
    assert s[|prefix| + 1..] == body;
  }

  /** The base64 text handed to the decoder, or why there is none. */
  function ExtractBase64(data: JsonObject): (r: Result<string, FetchError>)
    ensures r.Success? <==> SelectPayload(data).Success? && SelectPayload(data).value.JString?
    ensures r.Failure? ==> r.error == NoPayload || r.error == PayloadNotString
  {
    match SelectPayload(data)
    case Failure(e) => Failure(e)
    case Success(v) =>
      if v.JString? then
        Success(StripDataUrlPrefix(v.s))
      else Failure(PayloadNotString)
  }

  // ---------------------------------------------------------------------------
  // The two search loops as the fetcher runs them

  /** The loops of lines `for key in possible_keys` and `for key, value in data.items()`. */
  method FindPayload(data: JsonObject) returns (r: Result<Json, FetchError>)
    ensures r == SelectPayload(data)
  {
    var chosen: Option<Json> := None;
    var i := 0;
    while i < |PriorityKeys|
      invariant 0 <= i <= |PriorityKeys|
      invariant chosen.None? ==> forall j :: 0 <= j < i ==> Lookup(data, PriorityKeys[j]).None?
      invariant chosen.Some? ==> chosen == FirstPresent(data, PriorityKeys)
    {
      var found := Lookup(data, PriorityKeys[i]);
      if found.Some? {
        chosen := found;
        PriorityPrefix(data, i);
        break;
      }
      i := i + 1;
    }
    if !(chosen.Some? && Truthy(chosen.value)) {
      var fallback: Option<string> := None;
      var k := 0;
      while k < |data|
        invariant 0 <= k <= |data|
        invariant fallback.None? ==> forall j :: 0 <= j < k ==> !IsLongString(data[j].1)
        invariant fallback.Some? ==> fallback == FirstLongString(data)
      {
        if IsLongString(data[k].1) {
          fallback := Some(data[k].1.s);
          LongStringPrefix(data, k);
          break;
        }
        k := k + 1;
      }
      if fallback.Some? {
        r := Success(JString(fallback.value));
      } else {
        r := Failure(NoPayload);
      }
    } else {
      r := Success(chosen.value);
    }
  }

  /** The first present key, found by scanning, is the one `FirstPresent` names. */
  lemma {:induction false} PriorityPrefix(data: seq<(string, Json)>, i: int)
    requires 0 <= i < |PriorityKeys| && Lookup(data, PriorityKeys[i]).Some?
    requires forall j :: 0 <= j < i ==> Lookup(data, PriorityKeys[j]).None?
    ensures FirstPresent(data, PriorityKeys) == Lookup(data, PriorityKeys[i])
  {
    FirstPresentAt(data, PriorityKeys, i);
  }

  lemma {:induction false} FirstPresentAt(data: seq<(string, Json)>, keys: seq<string>, i: int)
    requires 0 <= i < |keys| && Lookup(data, keys[i]).Some?
    requires forall j :: 0 <= j < i ==> Lookup(data, keys[j]).None?
    ensures FirstPresent(data, keys) == Lookup(data, keys[i])
  {
    if i > 0 {
      assert keys[1..][i - 1] == keys[i];
      FirstPresentAt(data, keys[1..], i - 1);
    }
  }

  lemma {:induction false} LongStringPrefix(data: seq<(string, Json)>, k: int)
    requires 0 <= k < |data| && IsLongString(data[k].1)
    requires forall j :: 0 <= j < k ==> !IsLongString(data[j].1)
    ensures FirstLongString(data) == Some(data[k].1.s)
  {
    if k > 0 {
      assert data[1..][k - 1] == data[k];
      LongStringPrefix(data[1..], k - 1);
    }
  }
}
