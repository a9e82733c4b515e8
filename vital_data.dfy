/** The wire model sent by VitalRecorder (src/domain/vital_data.rs) and the
    way a parsed JSON document is read into it.

    The derived deserialiser is written out field by field: a missing
    `Option` field reads as `None`, a missing list marked `default` reads as
    the empty list, a field without a default must be present, a field given
    twice is an error, and unknown fields are ignored. */
module VitalData {
  import opened Wrappers
  import opened Json
  import opened Text

  const I64Min: int := -0x8000_0000_0000_0000
  const I64Max: int := 0x7FFF_FFFF_FFFF_FFFF
  const I32Min: int := -0x8000_0000
  const I32Max: int := 0x7FFF_FFFF

  predicate InI64(i: int) {
    I64Min <= i <= I64Max
  }

  predicate InI32(i: int) {
    I32Min <= i <= I32Max
  }

  datatype VitalData = VitalData(vrCode: string, rooms: seq<VitalRoom>)

  datatype VitalRoom = VitalRoom(
    seqId: Option<int>,
    roomName: Option<string>,
    tracks: seq<VitalTrack>,
    events: seq<VitalEvent>)

  datatype VitalTrack = VitalTrack(
    id: Option<string>,
    name: Option<string>,
    trackType: Option<string>,
    unit: Option<string>,
    monType: Option<string>,
    displayName: Option<string>,
    sampleRate: Option<real>,
    records: seq<VitalRecord>)

  datatype VitalRecord = VitalRecord(value: JsonValue, timestamp: Option<int>, time: Option<int>)

  datatype VitalEvent = VitalEvent(timestamp: Option<int>, message: Option<string>)

  // ---------------------------------------------------------------------------
  // Timestamps and identifiers
  // ---------------------------------------------------------------------------

  /** `get_effective_timestamp`: `dt` when present, else `time`. */
  function GetEffectiveTimestamp(r: VitalRecord): (t: Option<int>)
    ensures r.timestamp.Some? ==> t == r.timestamp
    ensures r.timestamp.None? ==> t == r.time
  {
    r.timestamp.Or(r.time)
  }

  /** The effective timestamp is missing only when both fields are. */
  lemma EffectiveTimestampMissing(r: VitalRecord)
    ensures GetEffectiveTimestamp(r).None? <==> r.timestamp.None? && r.time.None?
  {
  }

  /** Rounding toward zero. */
  function Truncate(f: real): (i: int)
    ensures f >= 0.0 ==> i as real <= f < i as real + 1.0
    ensures f < 0.0 ==> i as real - 1.0 < f <= i as real
  {
    if f >= 0.0 then f.Floor else -((-f).Floor)
  }

  /** Clamping into the range of `i64`. */
  function Saturate(i: int): (r: int)
    ensures InI64(r)
    ensures InI64(i) ==> r == i
    ensures i > I64Max ==> r == I64Max
    ensures i < I64Min ==> r == I64Min
  {
    if i < I64Min then I64Min else if i > I64Max then I64Max else i
  }

  /** `f as i64`: truncation toward zero, saturating at the bounds. */
  function FloatToI64(f: real): (i: int)
    ensures InI64(i)
    ensures InI64(Truncate(f)) ==> i == Truncate(f)
  {
    Saturate(Truncate(f))
  }

  /** `deserialize_flexible_id`: null reads as no id, a string is kept
      verbatim, an integer that fits in `i64` is rendered in decimal; anything
      else matches no variant of the untagged enum. */
  function DeserializeFlexibleId(v: JsonValue): (r: Result<Option<string>, string>)
    ensures v.Null? ==> r == Ok(None)
    ensures v.Str? ==> r == Ok(Some(v.s))
    ensures v.Num? && v.n.Int? && InI64(v.n.i) ==> r.Ok? && r.value.Some? && ParseInt(r.value.value) == Some(v.n.i)
    ensures r.Ok? <==> v.Null? || v.Str? || (v.Num? && v.n.Int? && InI64(v.n.i))
  {
    match v
    case Null => Ok(None)
    case Str(s) => Ok(Some(s))
    case Num(Int(i)) =>
      if InI64(i) then
        IntToStringRoundTrip(i);
        Ok(Some(IntToString(i)))
      else Err("data did not match any variant of untagged enum FlexibleId")
    case _ => Err("data did not match any variant of untagged enum FlexibleId")
  }

  /** The integer id 456 reads as "456". */
  lemma IntegerIdExample()
    ensures DeserializeFlexibleId(Num(Int(456))) == Ok(Some("456"))
  {
    assert NatToString(4) == "4";
    assert NatToString(45) == "45";
    assert NatToString(456) == "456";
  }

  /** `deserialize_flexible_timestamp`: null reads as no timestamp, an
      integer is kept, a float is cast with `as i64`. An integer outside the
      range of `i64` is read by the JSON layer as a float and so saturates. */
  function DeserializeFlexibleTimestamp(v: JsonValue): (r: Result<Option<int>, string>)
    ensures v.Null? ==> r == Ok(None)
    ensures v.Num? && v.n.Int? && InI64(v.n.i) ==> r == Ok(Some(v.n.i))
    ensures v.Num? && v.n.Float? && v.n.f >= 0.0 && InI64(Truncate(v.n.f)) ==>
      r.Ok? && r.value.Some? && r.value.value as real <= v.n.f < r.value.value as real + 1.0
    ensures v.Num? && v.n.Float? && v.n.f < 0.0 && InI64(Truncate(v.n.f)) ==>
      r.Ok? && r.value.Some? && r.value.value as real - 1.0 < v.n.f <= r.value.value as real
    ensures r.Ok? && r.value.Some? ==> InI64(r.value.value)
    ensures r.Ok? <==> v.Null? || v.Num?
  {
    match v
    case Null => Ok(None)
    case Num(Int(i)) => Ok(Some(Saturate(i)))
    case Num(Float(f)) => Ok(Some(FloatToI64(f)))
    case _ => Err("data did not match any variant of untagged enum FlexibleTimestamp")
  }

  /** 1234567890.5 reads as 1234567890. */
  lemma FloatTimestampExample()
    ensures DeserializeFlexibleTimestamp(Num(Float(1234567890.5))) == Ok(Some(1234567890))
  {
    assert Truncate(1234567890.5) == 1234567890;
  }

  // ---------------------------------------------------------------------------
  // Reading fields out of a JSON object
  // ---------------------------------------------------------------------------

  /** A field of an object: missing, given once, or given more than once. */
  datatype Field = Absent | Present(v: JsonValue) | Repeated

  function Lookup(members: seq<(string, JsonValue)>, key: string): (f: Field)
    ensures f.Absent? <==> forall i :: 0 <= i < |members| ==> members[i].0 != key
    ensures f.Present? ==> exists i :: 0 <= i < |members| && members[i] == (key, f.v) && OnlyAt(members, key, i)
    ensures f.Repeated? ==> exists i, j :: 0 <= i < j < |members| && members[i].0 == key && members[j].0 == key
  {
    if members == [] then Absent
    else
      var rest := Lookup(members[1..], key);
      assert forall i :: 1 <= i < |members| ==> members[i] == members[1..][i - 1];
      if members[0].0 != key then
        assert rest.Present? ==> exists i :: 0 <= i < |members| && members[i] == (key, rest.v) && OnlyAt(members, key, i) by {
          if rest.Present? {
            var i :| 0 <= i < |members[1..]| && members[1..][i] == (key, rest.v) && OnlyAt(members[1..], key, i);
            assert members[i + 1] == (key, rest.v) && OnlyAt(members, key, i + 1);
          }
        }
        assert rest.Repeated? ==> exists i, j :: 0 <= i < j < |members| && members[i].0 == key && members[j].0 == key by {
          if rest.Repeated? {
            var i, j :| 0 <= i < j < |members[1..]| && members[1..][i].0 == key && members[1..][j].0 == key;
            assert members[i + 1].0 == key && members[j + 1].0 == key;
          }
        }
        rest
      else if rest.Absent? then
        assert OnlyAt(members, key, 0);
        Present(members[0].1)
      else
        assert exists j :: 1 <= j < |members| && members[j].0 == key by {
          var j :| 0 <= j < |members[1..]| && members[1..][j].0 == key;
          assert members[j + 1].0 == key;
        }
        Repeated
  }

  /** Index `i` is the only member of `members` named `key`. */
  predicate OnlyAt(members: seq<(string, JsonValue)>, key: string, i: int) {
    forall j :: 0 <= j < |members| && j != i ==> members[j].0 != key
  }

  function DuplicateField(key: string): string {
    "duplicate field `" + key + "`"
  }

  function MissingField(key: string): string {
    "missing field `" + key + "`"
  }

  function InvalidType(key: string): string {
    "invalid type for field `" + key + "`"
  }

  /** An `Option<String>` field. */
  function OptionalString(members: seq<(string, JsonValue)>, key: string): (r: Result<Option<string>, string>)
    ensures Lookup(members, key).Absent? ==> r == Ok(None)
    ensures Lookup(members, key).Repeated? ==> r == Err(DuplicateField(key))
    ensures Lookup(members, key) == Present(Null) ==> r == Ok(None)
    ensures Lookup(members, key).Present? && Lookup(members, key).v.Str? ==> r == Ok(Some(Lookup(members, key).v.s))
    ensures r.Ok? && r.value.Some? ==> Lookup(members, key) == Present(Str(r.value.value))
    ensures r.Ok? <==> !Lookup(members, key).Repeated? && (Lookup(members, key).Present? ==> Lookup(members, key).v.Null? || Lookup(members, key).v.Str?)
  {
    match Lookup(members, key)
    case Absent => Ok(None)
    case Repeated => Err(DuplicateField(key))
    case Present(Null) => Ok(None)
    case Present(Str(s)) => Ok(Some(s))
    case Present(_) => Err(InvalidType(key))
  }

  /** An `Option<f64>` field. */
  function OptionalReal(members: seq<(string, JsonValue)>, key: string): (r: Result<Option<real>, string>)
    ensures Lookup(members, key).Absent? ==> r == Ok(None)
    ensures Lookup(members, key).Repeated? ==> r == Err(DuplicateField(key))
    ensures Lookup(members, key) == Present(Null) ==> r == Ok(None)
    ensures Lookup(members, key).Present? && Lookup(members, key).v.Num? ==> r == Ok(Some(AsReal(Lookup(members, key).v.n)))
    ensures r.Ok? <==> !Lookup(members, key).Repeated? && (Lookup(members, key).Present? ==> Lookup(members, key).v.Null? || Lookup(members, key).v.Num?)
  {
    match Lookup(members, key)
    case Absent => Ok(None)
    case Repeated => Err(DuplicateField(key))
    case Present(Null) => Ok(None)
    case Present(Num(n)) => Ok(Some(AsReal(n)))
    case Present(_) => Err(InvalidType(key))
  }

  /** An `Option<i32>` field: only integers that fit are accepted. */
  function OptionalI32(members: seq<(string, JsonValue)>, key: string): (r: Result<Option<int>, string>)
    ensures Lookup(members, key).Absent? ==> r == Ok(None)
    ensures Lookup(members, key).Repeated? ==> r == Err(DuplicateField(key))
    ensures Lookup(members, key) == Present(Null) ==> r == Ok(None)
    ensures forall i :: Lookup(members, key) == Present(Num(Int(i))) && InI32(i) ==> r == Ok(Some(i))
    ensures r.Ok? && r.value.Some? ==> InI32(r.value.value) && Lookup(members, key) == Present(Num(Int(r.value.value)))
    ensures r.Ok? <==> !Lookup(members, key).Repeated? && (Lookup(members, key).Present? ==> Lookup(members, key).v.Null? || (Lookup(members, key).v.Num? && Lookup(members, key).v.n.Int? && InI32(Lookup(members, key).v.n.i)))
  {
    match Lookup(members, key)
    case Absent => Ok(None)
    case Repeated => Err(DuplicateField(key))
    case Present(Null) => Ok(None)
    case Present(Num(Int(i))) => if InI32(i) then Ok(Some(i)) else Err(InvalidType(key))
    case Present(_) => Err(InvalidType(key))
  }

  /** A field with `default` read by `deserialize_flexible_id`. */
  function FlexibleIdField(members: seq<(string, JsonValue)>, key: string): (r: Result<Option<string>, string>)
    ensures Lookup(members, key).Absent? ==> r == Ok(None)
    ensures Lookup(members, key).Repeated? ==> r == Err(DuplicateField(key))
    ensures Lookup(members, key).Present? ==> r == DeserializeFlexibleId(Lookup(members, key).v)
  {
    match Lookup(members, key)
    case Absent => Ok(None)
    case Repeated => Err(DuplicateField(key))
    case Present(v) => DeserializeFlexibleId(v)
  }

  /** A field with `default` read by `deserialize_flexible_timestamp`. */
  function FlexibleTimestampField(members: seq<(string, JsonValue)>, key: string): (r: Result<Option<int>, string>)
    ensures Lookup(members, key).Absent? ==> r == Ok(None)
    ensures Lookup(members, key).Repeated? ==> r == Err(DuplicateField(key))
    ensures Lookup(members, key).Present? ==> r == DeserializeFlexibleTimestamp(Lookup(members, key).v)
  {
    match Lookup(members, key)
    case Absent => Ok(None)
    case Repeated => Err(DuplicateField(key))
    case Present(v) => DeserializeFlexibleTimestamp(v)
  }

  /** A required `String` field. */
  function RequiredString(members: seq<(string, JsonValue)>, key: string): (r: Result<string, string>)
    ensures r.Ok? <==> Lookup(members, key).Present? && Lookup(members, key).v.Str?
    ensures Lookup(members, key).Absent? ==> r == Err(MissingField(key))
    ensures Lookup(members, key).Repeated? ==> r == Err(DuplicateField(key))
    ensures r.Ok? ==> Lookup(members, key).v == Str(r.value)
  {
    match Lookup(members, key)
    case Absent => Err(MissingField(key))
    case Repeated => Err(DuplicateField(key))
    case Present(Str(s)) => Ok(s)
    case Present(_) => Err(InvalidType(key))
  }

  /** A required `serde_json::Value` field: any value, null included. */
  function RequiredValue(members: seq<(string, JsonValue)>, key: string): (r: Result<JsonValue, string>)
    ensures r.Ok? <==> Lookup(members, key).Present?
    ensures r.Ok? ==> r.value == Lookup(members, key).v
    ensures Lookup(members, key).Absent? ==> r == Err(MissingField(key))
    ensures Lookup(members, key).Repeated? ==> r == Err(DuplicateField(key))
  {
    match Lookup(members, key)
    case Absent => Err(MissingField(key))
    case Repeated => Err(DuplicateField(key))
    case Present(v) => Ok(v)
  }

  /** Reads every element of a list, stopping at the first failure. */
  function DecodeList<T>(items: seq<JsonValue>, decode: JsonValue -> Result<T, string>): (r: Result<seq<T>, string>)
    ensures r.Ok? <==> forall i :: 0 <= i < |items| ==> decode(items[i]).Ok?
    ensures r.Ok? ==> |r.value| == |items| && forall i :: 0 <= i < |items| ==> decode(items[i]) == Ok(r.value[i])
  {
    if items == [] then Ok([])
    else
      match decode(items[0])
      case Err(e) => Err(e)
      case Ok(x) =>
        match DecodeList(items[1..], decode)
        case Err(e) => Err(e)
        case Ok(xs) =>
          assert forall i :: 1 <= i < |items| ==> items[i] == items[1..][i - 1];
          Ok([x] + xs)
  }

  /** A list field. Without `default` it is required; with `default` a
      missing list is empty. Either way `null` is not a list. */
  function ListField<T>(members: seq<(string, JsonValue)>, key: string, required: bool,
                        decode: JsonValue -> Result<T, string>): (r: Result<seq<T>, string>)
    ensures Lookup(members, key).Absent? ==> r == if required then Err(MissingField(key)) else Ok([])
    ensures Lookup(members, key).Repeated? ==> r == Err(DuplicateField(key))
    ensures Lookup(members, key).Present? && Lookup(members, key).v.Array? ==>
      r == DecodeList(Lookup(members, key).v.items, decode)
    ensures Lookup(members, key).Present? && !Lookup(members, key).v.Array? ==> r == Err(InvalidType(key))
    ensures r.Ok? && Lookup(members, key).Present? ==>
      Lookup(members, key).v.Array? && |r.value| == |Lookup(members, key).v.items|
  {
    match Lookup(members, key)
    case Absent => if required then Err(MissingField(key)) else Ok([])
    case Repeated => Err(DuplicateField(key))
    case Present(Array(items)) => DecodeList(items, decode)
    case Present(_) => Err(InvalidType(key))
  }

  // ---------------------------------------------------------------------------
  // The four structures
  // ---------------------------------------------------------------------------

  function DecodeRecord(v: JsonValue): (r: Result<VitalRecord, string>)
    ensures r.Ok? <==>
      && v.Object?
      && RequiredValue(v.members, "val").Ok?
      && FlexibleTimestampField(v.members, "dt").Ok?
      && FlexibleTimestampField(v.members, "time").Ok?
    ensures r.Ok? ==>
      && RequiredValue(v.members, "val") == Ok(r.value.value)
      && FlexibleTimestampField(v.members, "dt") == Ok(r.value.timestamp)
      && FlexibleTimestampField(v.members, "time") == Ok(r.value.time)
  {
    match v
    case Object(ms) =>
      var value :- RequiredValue(ms, "val");
      var dt :- FlexibleTimestampField(ms, "dt");
      var time :- FlexibleTimestampField(ms, "time");
      Ok(VitalRecord(value, dt, time))
    case _ => Err("invalid type: expected struct VitalRecord")
  }

  function DecodeEvent(v: JsonValue): (r: Result<VitalEvent, string>)
    ensures r.Ok? <==>
      v.Object? && FlexibleTimestampField(v.members, "dt").Ok? && OptionalString(v.members, "msg").Ok?
    ensures r.Ok? ==>
      && FlexibleTimestampField(v.members, "dt") == Ok(r.value.timestamp)
      && OptionalString(v.members, "msg") == Ok(r.value.message)
  {
    match v
    case Object(ms) =>
      var dt :- FlexibleTimestampField(ms, "dt");
      var msg :- OptionalString(ms, "msg");
      Ok(VitalEvent(dt, msg))
    case _ => Err("invalid type: expected struct VitalEvent")
  }

  function DecodeTrack(v: JsonValue): (r: Result<VitalTrack, string>)
    ensures r.Ok? <==>
      && v.Object?
      && FlexibleIdField(v.members, "id").Ok?
      && OptionalString(v.members, "name").Ok?
      && OptionalString(v.members, "type").Ok?
      && OptionalString(v.members, "unit").Ok?
      && OptionalString(v.members, "montype").Ok?
      && OptionalString(v.members, "dname").Ok?
      && OptionalReal(v.members, "srate").Ok?
      && ListField(v.members, "recs", false, DecodeRecord).Ok?
    ensures r.Ok? ==>
      && FlexibleIdField(v.members, "id") == Ok(r.value.id)
      && OptionalString(v.members, "name") == Ok(r.value.name)
      && OptionalString(v.members, "type") == Ok(r.value.trackType)
      && OptionalString(v.members, "unit") == Ok(r.value.unit)
      && OptionalString(v.members, "montype") == Ok(r.value.monType)
      && OptionalString(v.members, "dname") == Ok(r.value.displayName)
      && OptionalReal(v.members, "srate") == Ok(r.value.sampleRate)
      && ListField(v.members, "recs", false, DecodeRecord) == Ok(r.value.records)
    ensures r.Ok? && Lookup(v.members, "recs").Absent? ==> r.value.records == []
    ensures r.Ok? && Lookup(v.members, "recs").Present? ==>
      forall i :: 0 <= i < |r.value.records| ==>
        DecodeRecord(Lookup(v.members, "recs").v.items[i]) == Ok(r.value.records[i])
  {
    match v
    case Object(ms) =>
      var id :- FlexibleIdField(ms, "id");
      var name :- OptionalString(ms, "name");
      var trackType :- OptionalString(ms, "type");
      var unit :- OptionalString(ms, "unit");
      var monType :- OptionalString(ms, "montype");
      var displayName :- OptionalString(ms, "dname");
      var sampleRate :- OptionalReal(ms, "srate");
      var records :- ListField(ms, "recs", false, DecodeRecord);
      Ok(VitalTrack(id, name, trackType, unit, monType, displayName, sampleRate, records))
    case _ => Err("invalid type: expected struct VitalTrack")
  }

  function DecodeRoom(v: JsonValue): (r: Result<VitalRoom, string>)
    ensures r.Ok? <==>
      && v.Object?
      && OptionalI32(v.members, "seqid").Ok?
      && OptionalString(v.members, "roomname").Ok?
      && ListField(v.members, "trks", false, DecodeTrack).Ok?
      && ListField(v.members, "evts", false, DecodeEvent).Ok?
    ensures r.Ok? ==>
      && OptionalI32(v.members, "seqid") == Ok(r.value.seqId)
      && OptionalString(v.members, "roomname") == Ok(r.value.roomName)
      && ListField(v.members, "trks", false, DecodeTrack) == Ok(r.value.tracks)
      && ListField(v.members, "evts", false, DecodeEvent) == Ok(r.value.events)
    ensures r.Ok? && Lookup(v.members, "trks").Present? ==>
      forall i :: 0 <= i < |r.value.tracks| ==>
        DecodeTrack(Lookup(v.members, "trks").v.items[i]) == Ok(r.value.tracks[i])
    ensures r.Ok? && Lookup(v.members, "trks").Absent? ==> r.value.tracks == []
    ensures r.Ok? && Lookup(v.members, "evts").Absent? ==> r.value.events == []
    ensures r.Ok? && r.value.seqId.Some? ==> InI32(r.value.seqId.value)
  {
    match v
    case Object(ms) =>
      var seqId :- OptionalI32(ms, "seqid");
      var roomName :- OptionalString(ms, "roomname");
      var tracks :- ListField(ms, "trks", false, DecodeTrack);
      var events :- ListField(ms, "evts", false, DecodeEvent);
      Ok(VitalRoom(seqId, roomName, tracks, events))
    case _ => Err("invalid type: expected struct VitalRoom")
  }

  /** `VitalData`: `vrcode` and `rooms` have no default and must be present. */
  function DecodeVitalData(v: JsonValue): (r: Result<VitalData, string>)
    ensures r.Ok? <==>
      v.Object? && RequiredString(v.members, "vrcode").Ok? && ListField(v.members, "rooms", true, DecodeRoom).Ok?
    ensures r.Ok? ==>
      && v.Object?
      && Lookup(v.members, "vrcode") == Present(Str(r.value.vrCode))
      && Lookup(v.members, "rooms").Present?
      && Lookup(v.members, "rooms").v.Array?
      && |r.value.rooms| == |Lookup(v.members, "rooms").v.items|
      && forall i :: 0 <= i < |r.value.rooms| ==>
           DecodeRoom(Lookup(v.members, "rooms").v.items[i]) == Ok(r.value.rooms[i])
  {
    match v
    case Object(ms) =>
      var vrCode :- RequiredString(ms, "vrcode");
      var rooms :- ListField(ms, "rooms", true, DecodeRoom);
      Ok(VitalData(vrCode, rooms))
    case _ => Err("invalid type: expected struct VitalData")
  }
}
