/**
 * PopNextBatch: a Matrix `/sync` response decoded into a fixed record of
 * eight fields, its `next_batch` blanked, and the record encoded again.
 * JSON is modelled as values; the byte-level encoding is not.
 */
module SyncJson {
  import opened Wrappers

  /** A JSON number: an integer literal, or a literal with a fraction or an exponent. */
  datatype JsonNumber = Integer(i: int) | NonInteger(literal: string)

  /** A JSON value; an object is a map from keys to values. */
  datatype Json =
    | Null
    | Bool(b: bool)
    | Number(n: JsonNumber)
    | String(s: string)
    | Array(items: seq<Json>)
    | Object(fields: map<string, Json>)

  /** A sync response body: a JSON document, or bytes that are not JSON at all. */
  datatype RawPayload = Malformed | Document(value: Json)

  /** The two ways decoding fails: the body is not JSON, or a value does not fit its field. */
  datatype PopError = SyntaxError | UnmarshalTypeError

  /** One key and its value in an encoded object, in the order the encoder writes them. */
  type Member = (string, Json)

  /** The range of Go's `int` on a 64-bit platform. */
  const Int64Min: int := -0x8000_0000_0000_0000
  const Int64Max: int := 0x7FFF_FFFF_FFFF_FFFF

  const NextBatchKey: string := "next_batch"
  const OtkCountKey: string := "device_one_time_keys_count"

  /** The JSON names of the record's fields, in declaration order. */
  const FieldNames: seq<string> := ["account_data", "to_device", "device_lists", "presence",
                                    "rooms", "groups", OtkCountKey, NextBatchKey]

  /**
   * The record PopNextBatch decodes into: six fields of any JSON value,
   * the one-time-key count as an integer and the batch token as a string.
   */
  datatype SyncResponse = SyncResponse(
    accountData: Json,
    toDevice: Json,
    deviceLists: Json,
    presence: Json,
    rooms: Json,
    groups: Json,
    deviceOtkCount: int,
    nextBatch: string)

  /** The record before anything is decoded into it: every field at its zero value. */
  const ZeroResponse: SyncResponse := SyncResponse(Null, Null, Null, Null, Null, Null, 0, "")

  function Lookup(m: map<string, Json>, key: string): Option<Json> {
    if key in m then Some(m[key]) else None
  }

  /** An `interface{}` field: takes the value as it is; an absent key leaves nil, written as null. */
  function DecodeAny(v: Option<Json>): Json {
    if v.Some? then v.value else Null
  }

  /**
   * An `int` field: an absent key or a null leaves it 0; an integer literal
   * within the 64-bit range is stored; anything else is a type error.
   */
  function DecodeInt(v: Option<Json>): Result<int, PopError> {
    match v
    case None => Ok(0)
    case Some(Null) => Ok(0)
    case Some(Number(Integer(i))) => if Int64Min <= i <= Int64Max then Ok(i) else Err(UnmarshalTypeError)
    case Some(_) => Err(UnmarshalTypeError)
  }

  /** A `string` field: an absent key or a null leaves it "", a string is stored, anything else is a type error. */
  function DecodeString(v: Option<Json>): Result<string, PopError> {
    match v
    case None => Ok("")
    case Some(Null) => Ok("")
    case Some(String(s)) => Ok(s)
    case Some(_) => Err(UnmarshalTypeError)
  }

  /**
   * json.Unmarshal into the record: a JSON null decodes to the zero record,
   * an object fills the fields by key and ignores every other key, and any
   * other top-level value is a type error.
   */
  function Unmarshal(doc: RawPayload): (r: Result<SyncResponse, PopError>)
    ensures r.Ok? <==> Decodable(doc)
    ensures doc.Malformed? ==> r == Err(SyntaxError)
    ensures r.Ok? ==> Int64Min <= r.value.deviceOtkCount <= Int64Max
  {
    match doc
    case Malformed => Err(SyntaxError)
    case Document(Null) => Ok(ZeroResponse)
    case Document(Object(m)) =>
      var count :- DecodeInt(Lookup(m, OtkCountKey));
      var batch :- DecodeString(Lookup(m, NextBatchKey));
      Ok(SyncResponse(
        DecodeAny(Lookup(m, FieldNames[0])), DecodeAny(Lookup(m, FieldNames[1])),
        DecodeAny(Lookup(m, FieldNames[2])), DecodeAny(Lookup(m, FieldNames[3])),
        DecodeAny(Lookup(m, FieldNames[4])), DecodeAny(Lookup(m, FieldNames[5])),
        count, batch))
    case Document(_) => Err(UnmarshalTypeError)
  }

  /** json.Marshal of the record: every field, in declaration order (no field is omitted when empty). */
  function Marshal(r: SyncResponse): (ms: seq<Member>)
    ensures Keys(ms) == FieldNames && DistinctKeys(ms)
  {
    [(FieldNames[0], r.accountData), (FieldNames[1], r.toDevice), (FieldNames[2], r.deviceLists),
     (FieldNames[3], r.presence), (FieldNames[4], r.rooms), (FieldNames[5], r.groups),
     (OtkCountKey, Number(Integer(r.deviceOtkCount))), (NextBatchKey, String(r.nextBatch))]
  }

  function Keys(ms: seq<Member>): (ks: seq<string>)
    ensures |ks| == |ms| && forall i :: 0 <= i < |ms| ==> ks[i] == ms[i].0
  {
    seq(|ms|, i requires 0 <= i < |ms| => ms[i].0)
  }

  /** The value an `int` field admits: absent, null, or an integer literal in range. */
  predicate FitsInt(v: Option<Json>) {
    v.None? || v.value.Null? ||
    (v.value.Number? && v.value.n.Integer? && Int64Min <= v.value.n.i <= Int64Max)
  }

  /** The value a `string` field admits: absent, null, or a string. */
  predicate FitsString(v: Option<Json>) {
    v.None? || v.value.Null? || v.value.String?
  }

  /** The documents the record can be decoded from. */
  predicate Decodable(doc: RawPayload) {
    doc == Document(Null) ||
    (doc.Document? && doc.value.Object? &&
     FitsInt(Lookup(doc.value.fields, OtkCountKey)) && FitsString(Lookup(doc.value.fields, NextBatchKey)))
  }

  /**
   * PopNextBatch as written: decode into the record, set `next_batch` to
   * the empty string, encode. On success the output has exactly the eight
   * declared keys in declaration order, `next_batch` is "", the six
   * pass-through fields hold the input's values (null when absent) and the
   * count holds the input's integer (0 when absent or null); every other
   * key of the input is gone. On failure there is no output.
   */
  function PopNextBatch(doc: RawPayload): (r: Result<seq<Member>, PopError>)
    ensures r.Ok? <==> Decodable(doc)
    ensures doc.Malformed? ==> r == Err(SyntaxError)
    ensures r.Ok? ==> Keys(r.value) == FieldNames && r.value[7] == (NextBatchKey, String(""))
    ensures r.Ok? && doc.value.Object? ==>
      var m := doc.value.fields;
      && (forall j :: 0 <= j < 6 ==> r.value[j].1 == (if FieldNames[j] in m then m[FieldNames[j]] else Null))
      && r.value[6].1 == Number(Integer(if OtkCountKey in m && m[OtkCountKey].Number? then m[OtkCountKey].n.i else 0))
    ensures r.Ok? && doc.value.Null? ==>
      (forall j :: 0 <= j < 6 ==> r.value[j].1 == Null) && r.value[6].1 == Number(Integer(0))
  {
    var jsr :- Unmarshal(doc);
    Ok(Marshal(jsr.(nextBatch := "")))
  }

  /** The object the encoder's members describe. */
  function ObjectOf(ms: seq<Member>): map<string, Json> {
    if ms == [] then map[] else ObjectOf(ms[..|ms| - 1])[ms[|ms| - 1].0 := ms[|ms| - 1].1]
  }

  predicate DistinctKeys(ms: seq<Member>) {
    forall i, j :: 0 <= i < j < |ms| ==> ms[i].0 != ms[j].0
  }

  lemma {:induction false} ObjectOfLookup(ms: seq<Member>, j: nat)
    requires DistinctKeys(ms) && j < |ms|
    ensures ms[j].0 in ObjectOf(ms) && ObjectOf(ms)[ms[j].0] == ms[j].1
  {
    var init := ms[..|ms| - 1];
    if j < |ms| - 1 {
      assert init[j] == ms[j];
      assert DistinctKeys(init) by {
        forall a, b | 0 <= a < b < |init| ensures init[a].0 != init[b].0 {
          assert init[a] == ms[a] && init[b] == ms[b];
        }
      }
      ObjectOfLookup(init, j);
    }
  }

  /** The encoded record as the object a decoder reads back. */
  function AsDocument(ms: seq<Member>): RawPayload {
    Document(Object(ObjectOf(ms)))
  }

  /**
   * Round trip: decoding an encoded record gives the record back, whenever
   * its count fits Go's `int`.
   */
  lemma {:induction false} UnmarshalMarshal(r: SyncResponse)
    requires Int64Min <= r.deviceOtkCount <= Int64Max
    ensures Unmarshal(AsDocument(Marshal(r))) == Ok(r)
  {
    var ms := Marshal(r);
    var m := ObjectOf(ms);
    forall j | 0 <= j < 8 ensures Lookup(m, FieldNames[j]) == Some(ms[j].1) {
      ObjectOfLookup(ms, j);
    }
    assert Lookup(m, OtkCountKey) == Some(Number(Integer(r.deviceOtkCount))) by {
      assert OtkCountKey == FieldNames[6];
    }
    assert Lookup(m, NextBatchKey) == Some(String(r.nextBatch)) by {
      assert NextBatchKey == FieldNames[7];
    }
  }

  /** Popping twice is popping once: a popped record passes through unchanged. */
  lemma {:induction false} PopNextBatchIdempotent(doc: RawPayload)
    requires PopNextBatch(doc).Ok?
    ensures PopNextBatch(AsDocument(PopNextBatch(doc).value)) == PopNextBatch(doc)
  {
    var jsr := Unmarshal(doc).value;
    if doc.value.Object? {
      var count := DecodeInt(Lookup(doc.value.fields, OtkCountKey));
      assert count.Ok?;
    }
    assert Int64Min <= jsr.deviceOtkCount <= Int64Max;
    UnmarshalMarshal(jsr.(nextBatch := ""));
  }

  /**
   * The intended pop: remove `next_batch` from the response object and
   * pass every other key through unchanged, whatever its type.
   */
  function PopNextBatchIntended(doc: RawPayload): (r: Result<Json, PopError>)
    ensures r.Ok? <==> doc.Document? && (doc.value.Object? || doc.value.Null?)
    ensures r.Ok? && doc.value.Object? ==>
      && r.value.Object?
      && r.value.fields.Keys == doc.value.fields.Keys - {NextBatchKey}
      && forall k :: k in r.value.fields ==> r.value.fields[k] == doc.value.fields[k]
  {
    match doc
    case Malformed => Err(SyntaxError)
    case Document(Null) => Ok(Null)
    case Document(Object(m)) => Ok(Object(m - {NextBatchKey}))
    case Document(_) => Err(UnmarshalTypeError)
  }

  /**
   * A response whose one-time-key counts are an object, the shape the
   * Matrix Client-Server API gives them, cannot be popped as written; the
   * intended pop keeps the counts as they came.
   */
  lemma OneTimeKeyCountsRejected(m: map<string, Json>)
    requires OtkCountKey in m && m[OtkCountKey].Object?
    ensures PopNextBatch(Document(Object(m))) == Err(UnmarshalTypeError)
    ensures PopNextBatchIntended(Document(Object(m))).Ok?
    ensures PopNextBatchIntended(Document(Object(m))).value.fields[OtkCountKey] == m[OtkCountKey]
  {
  }

  /**
   * Where both succeed on an object, the written pop carries the same six
   * pass-through values as the intended one (null for a key it lacks).
   */
  lemma AsWrittenAgreesWithIntended(m: map<string, Json>, j: nat)
    requires PopNextBatch(Document(Object(m))).Ok? && j < 6
    ensures var o := PopNextBatchIntended(Document(Object(m))).value.fields;
      PopNextBatch(Document(Object(m))).value[j].1 == (if FieldNames[j] in o then o[FieldNames[j]] else Null)
  {
  }
}
