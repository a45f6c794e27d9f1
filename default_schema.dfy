/**
 * The record schema: the Type enum, the inner-header field table (its key
 * order, value kinds, defaults and constraints).
 */
module DefaultSchema {
  import opened Basics

  // RecordTypes
  const FLAT := "flat"
  const DELETED := "deleted"
  const COMPRESSED := "compressed"

  // InnerHeaderKeys
  const VERSION := "Version"
  const TYPE := "Type"
  const FETCH_TIME := "Fetch-Time"
  const ORIGINAL_SIZE := "Original-Size"
  const STORE_SIZE := "Store-Size"
  const BATCH_ID := "batchID"
  const ATTACH := "attach"
  const IP_ADDRESS := "IP-Address"
  const SPIDER_ADDRESS := "Spider-Address"
  const DIGEST := "Digest"
  const USER_AGENT := "User-Agent"
  const FETCH_IP := "Fetch-IP"
  const NODE_FETCH_TIME := "Node-Fetch-Time"
  const ERROR_REASON := "Error-Reason"

  // SpageKeys
  const URL := "url"
  const INNER_HEADER := "inner_header"
  const HTTP_HEADER := "http_header"
  const DATA := "data"

  /**
   * An inner-header value: a string, a number, a timestamp (kept as its
   * rendering in the fixed time format), or Python's None.
   */
  datatype Value = Str(s: string) | Num(n: int) | Time(text: string) | Null

  /** A field's default: none, a literal, or the current time (a callable). */
  datatype Default = NoDefault | Literal(text: string) | CurrentTime

  /** The value kinds of the field table: "string", "number", or datetime-or-readable-time. */
  datatype Kind = StringKind | NumberKind | TimeKind

  datatype Field = Field(
    key: string,
    kind: Kind,
    default: Default,
    enum: Option<set<string>>,
    minLength: Option<nat>,
    maxLength: Option<nat>,
    format: Option<string>)

  /** The Type enum, built from the members of RecordTypes. */
  const TypeEnum: set<string> := {FLAT, DELETED, COMPRESSED}

  /** INNER_HEADER_SCHEMA's properties, in declaration order. */
  const InnerHeaderFields: seq<Field> := [
    Field(VERSION, StringKind, Literal("1.2"), None, None, None, None),
    Field(TYPE, StringKind, NoDefault, Some(TypeEnum), None, None, None),
    Field(FETCH_TIME, TimeKind, CurrentTime, None, None, None, Some("readable_time")),
    Field(ORIGINAL_SIZE, NumberKind, NoDefault, None, None, None, None),
    Field(STORE_SIZE, NumberKind, NoDefault, None, None, None, None),
    Field(BATCH_ID, StringKind, Literal("__CHANGE_ME__"), None, Some(3), None, None),
    Field(ATTACH, StringKind, NoDefault, None, None, None, None),
    Field(IP_ADDRESS, StringKind, Literal("0.0.0.0"), None, None, None, Some("ipv4")),
    Field(SPIDER_ADDRESS, StringKind, Literal("0.0.0.0"), None, None, None, None),
    Field(DIGEST, StringKind, Literal("00000000000000000000000000000000"), None, Some(32), Some(32), None),
    Field(USER_AGENT, StringKind, NoDefault, None, None, None, None),
    Field(FETCH_IP, StringKind, Literal("0.0.0.0"), None, None, None, Some("ipv4")),
    Field(NODE_FETCH_TIME, TimeKind, NoDefault, None, None, None, Some("readable_time")),
    Field(ERROR_REASON, StringKind, NoDefault, None, None, None, Some("error_reaseon"))
  ]

  /** The keys of the field table, in order: the encoder's key order. */
  function InnerHeaderKeyOrder(): (keys: seq<string>)
    ensures |keys| == |InnerHeaderFields|
    ensures forall i :: 0 <= i < |keys| ==> keys[i] == InnerHeaderFields[i].key
  {
    seq(|InnerHeaderFields|, i requires 0 <= i < |InnerHeaderFields| => InnerHeaderFields[i].key)
  }

  /** The field a key names, if the table has one. */
  function FieldOf(key: string): (f: Option<Field>)
    ensures f.Some? ==> f.value in InnerHeaderFields && f.value.key == key
    ensures f.None? ==> forall i :: 0 <= i < |InnerHeaderFields| ==> InnerHeaderFields[i].key != key
  {
    FieldIn(InnerHeaderFields, key)
  }

  function FieldIn(fields: seq<Field>, key: string): (f: Option<Field>)
    ensures f.Some? ==> f.value in fields && f.value.key == key
    ensures f.None? ==> forall i :: 0 <= i < |fields| ==> fields[i].key != key
  {
    if |fields| == 0 then None
    else if fields[0].key == key then Some(fields[0])
    else FieldIn(fields[1..], key)
  }

  /** A string meets a field's length bounds. */
  predicate MeetsLength(f: Field, s: string)
  {
    (f.minLength.Some? ==> |s| >= f.minLength.value) &&
    (f.maxLength.Some? ==> |s| <= f.maxLength.value)
  }

  /** The field order is Version, Type, Fetch-Time, ..., Error-Reason, with no repeats. */
  lemma {:induction false} KeyOrder()
    ensures InnerHeaderKeyOrder() == [VERSION, TYPE, FETCH_TIME, ORIGINAL_SIZE, STORE_SIZE,
      BATCH_ID, ATTACH, IP_ADDRESS, SPIDER_ADDRESS, DIGEST, USER_AGENT, FETCH_IP,
      NODE_FETCH_TIME, ERROR_REASON]
    ensures forall i, j :: 0 <= i < j < |InnerHeaderKeyOrder()| ==>
      InnerHeaderKeyOrder()[i] != InnerHeaderKeyOrder()[j]
  {
  }

  /** The Type field, second in the table, is constrained to exactly flat, deleted and compressed. */
  lemma {:induction false} TypeEnumIsExact()
    ensures InnerHeaderFields[1].key == TYPE && InnerHeaderFields[1].enum == Some(TypeEnum)
    ensures forall t :: t in TypeEnum <==> t == FLAT || t == DELETED || t == COMPRESSED
    ensures |TypeEnum| == 3
  {
  }

  /** Every literal default meets its own field's length constraints. */
  lemma {:induction false} LiteralDefaultsMeetConstraints()
    ensures forall i :: 0 <= i < |InnerHeaderFields| && InnerHeaderFields[i].default.Literal? ==>
      MeetsLength(InnerHeaderFields[i], InnerHeaderFields[i].default.text)
    ensures InnerHeaderFields[5].key == BATCH_ID && InnerHeaderFields[5].default == Literal("__CHANGE_ME__")
    ensures InnerHeaderFields[9].key == DIGEST && |InnerHeaderFields[9].default.text| == 32
    ensures forall k :: 0 <= k < 32 ==> InnerHeaderFields[9].default.text[k] == '0'
    ensures forall i :: 0 <= i < |InnerHeaderFields| && InnerHeaderFields[i].format == Some("ipv4") ==>
      InnerHeaderFields[i].default == Literal("0.0.0.0")
  {
  }

  /** Exactly seven fields carry a default; Type, the sizes and the optional fields do not. */
  lemma {:induction false} FieldsWithDefaults()
    ensures forall i :: 0 <= i < |InnerHeaderFields| ==>
      (InnerHeaderFields[i].default.NoDefault? <==> i in {1, 3, 4, 6, 10, 12, 13})
    ensures [InnerHeaderFields[1].key, InnerHeaderFields[3].key, InnerHeaderFields[4].key,
      InnerHeaderFields[6].key, InnerHeaderFields[10].key, InnerHeaderFields[12].key,
      InnerHeaderFields[13].key] ==
      [TYPE, ORIGINAL_SIZE, STORE_SIZE, ATTACH, USER_AGENT, NODE_FETCH_TIME, ERROR_REASON]
  {
  }
}
