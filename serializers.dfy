/** The event codec: on the wire an event is a JSON object with exactly one member, whose name is the
    lower-cased event type and whose value is the event's value, e.g. {"introduced": "1.0.0"}. */
module Serializers {
  import opened Wrappers
  import opened Json
  import opened Text
  import opened Model

  /** Why decoding an event failed. */
  datatype DecodeError =
    | NotAnObject
    | NotSingleEntry(count: nat)
    | UnknownEventType(key: string)
    | NotAPrimitive(key: string)

  /** The one member name of a single-member object. */
  function SingleKey(members: map<string, Json>): (k: string)
    requires |members| == 1
    ensures k in members && forall k' :: k' in members ==> k' == k
  {
    SingleKeyUnique(members);
    var k :| k in members; k
  }

  lemma SingleKeyUnique(members: map<string, Json>)
    requires |members| == 1
    ensures forall k, k' :: k in members && k' in members ==> k == k'
  {
    forall k, k' | k in members && k' in members ensures k == k' {
      var rest := members.Keys - {k};
      assert members.Keys == {k} + rest;
      assert rest == {};
    }
  }

  /** Decoding: the element must be an object with exactly one member; the member's name, upper-cased, must be
      the name of an event type; its value must be a primitive, whose text becomes the event's value. */
  function DecodeEvent(j: Json): (r: Result<Event, DecodeError>)
    ensures !j.JObject? ==> r == Failure(NotAnObject)
    ensures j.JObject? && |j.members| != 1 ==> r == Failure(NotSingleEntry(|j.members|))
    ensures j.JObject? && |j.members| == 1 ==> forall k | k in j.members ::
      if forall t :: EventTypeName(t) != Upper(k) then r == Failure(UnknownEventType(k))
      else if j.members[k].JObject? || j.members[k].JArray? then r == Failure(NotAPrimitive(k))
      else r.Success? && EventTypeName(r.value.kind) == Upper(k) && Some(r.value.value) == PrimitiveContent(j.members[k])
  {
    if !j.JObject? then Failure(NotAnObject)
    else if |j.members| != 1 then Failure(NotSingleEntry(|j.members|))
    else
      var key := SingleKey(j.members);
      match EventTypeValueOf(Upper(key))
      case None => Failure(UnknownEventType(key))
      case Some(t) =>
        match PrimitiveContent(j.members[key])
        case None => Failure(NotAPrimitive(key))
        case Some(content) => Success(Event(t, content))
  }

  /** Encoding: a single-member object whose name is the event type's name in lower case and whose value is a
      JSON string holding the event's value unchanged. */
  function EncodeEvent(e: Event): (r: Json)
    ensures r.JObject? && |r.members| == 1
    ensures forall k | k in r.members ::
      IsLowerAscii(k) && Upper(k) == EventTypeName(e.kind) && r.members[k] == JString(e.value)
  {
    var key := Lower(EventTypeName(e.kind));
    LowerThenUpper(EventTypeName(e.kind));
    JObject(map[key := JString(e.value)])
  }

  /** Round trip: decoding the encoding of any event gives the event back. */
  lemma DecodeEncode(e: Event)
    ensures DecodeEvent(EncodeEvent(e)) == Success(e)
  {
    var j := EncodeEvent(e);
    var k := SingleKey(j.members);
    assert EventTypeName(e.kind) == Upper(k);
  }

  /** Encoding is the canonical form: re-encoding a decoded event reproduces the input exactly when its member
      name is lower-case ASCII and its value is a JSON string. */
  lemma EncodeDecode(j: Json)
    requires DecodeEvent(j).Success?
    ensures j.JObject? && |j.members| == 1
    ensures EncodeEvent(DecodeEvent(j).value) == j
        <==> forall k | k in j.members :: IsLowerAscii(k) && j.members[k].JString?
  {
    var e := DecodeEvent(j).value;
    var k := SingleKey(j.members);
    var name := EventTypeName(e.kind);
    assert Upper(k) == name;
    if IsLowerAscii(k) && j.members[k].JString? {
      UpperThenLower(k, name);
      assert j.members == map[Lower(name) := JString(e.value)];
    }
    if EncodeEvent(e) == j {
      assert k in EncodeEvent(e).members;
    }
  }

  /** Distinct events have distinct encodings. */
  lemma EncodeInjective(e: Event, e': Event)
    requires EncodeEvent(e) == EncodeEvent(e')
    ensures e == e'
  {
    DecodeEncode(e);
    DecodeEncode(e');
  }

  /** Decoding after one round of normalisation gives the same result as decoding the original. */
  lemma DecodeNormalises(j: Json)
    requires DecodeEvent(j).Success?
    ensures DecodeEvent(EncodeEvent(DecodeEvent(j).value)) == DecodeEvent(j)
  {
    DecodeEncode(DecodeEvent(j).value);
  }

  /** Decoding a single-member object, the case the examples below exercise. */
  lemma DecodeSingleMember(k: string, v: Json)
    ensures EventTypeValueOf(Upper(k)).None? ==> DecodeEvent(JObject(map[k := v])) == Failure(UnknownEventType(k))
    ensures EventTypeValueOf(Upper(k)).Some? && PrimitiveContent(v).None?
      ==> DecodeEvent(JObject(map[k := v])) == Failure(NotAPrimitive(k))
    ensures EventTypeValueOf(Upper(k)).Some? && PrimitiveContent(v).Some?
      ==> DecodeEvent(JObject(map[k := v])) == Success(Event(EventTypeValueOf(Upper(k)).value, PrimitiveContent(v).value))
  {
    assert SingleKey(map[k := v]) == k;
  }

  /** Member names that differ only in case decode alike: the name is upper-cased before the lookup. */
  lemma DecodeIgnoresCase(k: string, k': string, v: Json)
    requires Upper(k) == Upper(k')
    ensures DecodeEvent(JObject(map[k := v])).Success? == DecodeEvent(JObject(map[k' := v])).Success?
    ensures DecodeEvent(JObject(map[k := v])).Success?
      ==> DecodeEvent(JObject(map[k := v])) == DecodeEvent(JObject(map[k' := v]))
  {
    DecodeSingleMember(k, v);
    DecodeSingleMember(k', v);
  }

  /** Shapes that fail before the name is looked at: not an object, or not exactly one member. */
  lemma DecodeRejectsShape()
    ensures DecodeEvent(JString("1.0")) == Failure(NotAnObject)
    ensures DecodeEvent(JArray([])) == Failure(NotAnObject)
    ensures DecodeEvent(JNull) == Failure(NotAnObject)
    ensures DecodeEvent(JObject(map[])) == Failure(NotSingleEntry(0))
    ensures DecodeEvent(JObject(map["introduced" := JString("1.0"), "fixed" := JString("2.0")]))
      == Failure(NotSingleEntry(2))
  {
  }

  /** An unknown name fails, whatever the value: the name is looked up before the value is read. */
  lemma DecodeRejectsUnknownName(v: Json)
    ensures DecodeEvent(JObject(map["bogus" := v])) == Failure(UnknownEventType("bogus"))
  {
    assert Upper("bogus") == "BOGUS";
    DecodeSingleMember("bogus", v);
  }

  /** The value may be any primitive, whose text is taken: a number's literal, "true" or "false". */
  lemma DecodeAnyPrimitive(literal: string, b: bool)
    ensures DecodeEvent(JObject(map["limit" := JNumber(literal)])) == Success(Event(Limit, literal))
    ensures DecodeEvent(JObject(map["limit" := JBool(b)])) == Success(Event(Limit, if b then "true" else "false"))
  {
    assert Upper("limit") == "LIMIT";
    DecodeSingleMember("limit", JNumber(literal));
    DecodeSingleMember("limit", JBool(b));
  }

  /** A null value is taken as the four-character text "null". */
  lemma DecodeNullAsText()
    ensures DecodeEvent(JObject(map["limit" := JNull])) == Success(Event(Limit, "null"))
  {
    assert Upper("limit") == "LIMIT";
    DecodeSingleMember("limit", JNull);
  }

  /** A nested object or array as the value fails. */
  lemma DecodeRejectsNestedValue(members: map<string, Json>, elements: seq<Json>)
    ensures DecodeEvent(JObject(map["fixed" := JObject(members)])) == Failure(NotAPrimitive("fixed"))
    ensures DecodeEvent(JObject(map["fixed" := JArray(elements)])) == Failure(NotAPrimitive("fixed"))
  {
    assert Upper("fixed") == "FIXED";
    DecodeSingleMember("fixed", JObject(members));
    DecodeSingleMember("fixed", JArray(elements));
  }

  /** Names are matched ignoring case, including characters outside ASCII whose upper case is ASCII, such as
      the ligature U+FB01 (upper case "FI"). */
  lemma DecodeMixedCaseNames(value: string)
    ensures DecodeEvent(JObject(map["Fixed" := JString(value)])) == Success(Event(Fixed, value))
    ensures DecodeEvent(JObject(map["\U{FB01}xed" := JString(value)])) == Success(Event(Fixed, value))
  {
    assert Upper("Fixed") == "FIXED";
    assert Upper("\U{FB01}xed") == "FIXED";
    DecodeSingleMember("Fixed", JString(value));
    DecodeSingleMember("\U{FB01}xed", JString(value));
  }
}
