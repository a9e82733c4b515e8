/** The BLE output (src/output/ble.rs): the non-waveform tracks of a
    snapshot are converted to a small JSON message whose bytes, cut to the
    500-byte payload limit, replace the shared notification buffer; and the
    UUID of the data characteristic is derived from the service UUID. */
module Ble {
  import opened Wrappers
  import opened Errors
  import opened Decompressor
  import opened ProcessedData

  /** `MAX_BLE_PAYLOAD`. */
  const MaxBlePayload: nat := 500

  datatype BleValue =
    | NumberValue(value: real, display: string)
    | TextValue(text: string)
    | OtherValue(text: string)

  datatype BleTrack = BleTrack(
    name: string,
    room: string,
    trackType: string,
    unit: string,
    timestamp: string,
    value: BleValue)

  datatype BleMessage = BleMessage(
    version: string,
    deviceId: string,
    timestamp: string,
    trackCount: nat,
    tracks: seq<BleTrack>)

  /** The foreign pieces of `output`: RFC 3339 rendering of a millisecond
      timestamp and `serde_json::to_vec` of the message. */
  datatype Encoder = Encoder(rfc3339: int -> string, toJson: BleMessage -> Result<seq<Byte>, string>)

  // ---------------------------------------------------------------------------
  // Conversion
  // ---------------------------------------------------------------------------

  /** The `type` label of a track kind. */
  function TrackTypeName(t: TrackType): (name: string)
    ensures |name| > 0
    ensures t == Number ==> name == "number"
    ensures t == String ==> name == "string"
    ensures t == Other ==> name == "other"
    ensures t == Waveform ==> name == "waveform"
  {
    match t
    case Number => "number"
    case String => "string"
    case Other => "other"
    case Waveform => "waveform"
  }

  /** Distinct kinds get distinct labels. */
  lemma TrackTypeNameInjective(t: TrackType, u: TrackType)
    requires TrackTypeName(t) == TrackTypeName(u)
    ensures t == u
  {
    assert TrackTypeName(t)[0] == TrackTypeName(u)[0];
    if TrackTypeName(t)[0] == 'o' || TrackTypeName(t)[0] == 'w' {
    } else {
      assert TrackTypeName(t)[1] == TrackTypeName(u)[1];
    }
  }

  /** `convert_track`. */
  function ConvertTrack(track: ProcessedTrack, enc: Encoder): (b: BleTrack)
    ensures b.name == track.name && b.room == track.roomName && b.unit == track.unit
    ensures b.trackType == TrackTypeName(track.trackType)
    ensures b.timestamp == enc.rfc3339(track.timestamp)
    ensures track.trackType == Number <==> b.value.NumberValue?
    ensures track.trackType == Number ==>
      b.value == NumberValue(track.rawValue.GetOr(0.0), track.displayValue)
    ensures track.trackType == String ==> b.value == TextValue(track.displayValue)
    ensures track.trackType != Number && track.trackType != String ==> b.value == OtherValue(track.displayValue)
  {
    var value := match track.trackType
      case Number => NumberValue(track.rawValue.GetOr(0.0), track.displayValue)
      case String => TextValue(track.displayValue)
      case _ => OtherValue(track.displayValue);
    BleTrack(track.name, track.roomName, TrackTypeName(track.trackType), track.unit,
             enc.rfc3339(track.timestamp), value)
  }

  function ConvertTracks(tracks: seq<ProcessedTrack>, enc: Encoder): (r: seq<BleTrack>)
    ensures |r| == |tracks|
    ensures forall i :: 0 <= i < |tracks| ==> r[i] == ConvertTrack(tracks[i], enc)
  {
    if tracks == [] then [] else [ConvertTrack(tracks[0], enc)] + ConvertTracks(tracks[1..], enc)
  }

  /** The message `output` serialises for a snapshot: version 1.0, the
      snapshot's device id and time, and exactly its non-waveform tracks,
      converted, in `allTracks` order and counted; no track in it is
      labelled a waveform. */
  function MessageOf(data: ProcessedData, enc: Encoder): (m: BleMessage)
    ensures m.version == "1.0" && m.deviceId == data.deviceId && m.timestamp == enc.rfc3339(data.timestamp)
    ensures m.trackCount == |m.tracks| == |NonWaveformTracks(data.allTracks)| == NonWaveformCount(data.allTracks)
    ensures forall i :: 0 <= i < |m.tracks| ==>
      m.tracks[i] == ConvertTrack(NonWaveformTracks(data.allTracks)[i], enc)
      && m.tracks[i].trackType != "waveform"
  {
    var kept := NonWaveformTracks(data.allTracks);
    NonWaveformTracksCount(data.allTracks);
    assert forall i :: 0 <= i < |kept| ==> ConvertTrack(kept[i], enc).trackType != "waveform" by {
      forall i | 0 <= i < |kept|
        ensures ConvertTrack(kept[i], enc).trackType != "waveform"
      {
        var t := kept[i].trackType;
        assert t != Waveform;
        if TrackTypeName(t) == "waveform" {
          TrackTypeNameInjective(t, Waveform);
        }
      }
    }
    var tracks := ConvertTracks(kept, enc);
    BleMessage("1.0", data.deviceId, enc.rfc3339(data.timestamp), |tracks|, tracks)
  }

  /** The stored payload: the serialised bytes, cut to the payload limit. */
  function Truncate(payload: seq<Byte>): (r: seq<Byte>)
    ensures |r| <= MaxBlePayload
    ensures r <= payload
    ensures |payload| <= MaxBlePayload ==> r == payload
    ensures |payload| > MaxBlePayload ==> |r| == MaxBlePayload
  {
    if |payload| > MaxBlePayload then payload[..MaxBlePayload] else payload
  }

  // ---------------------------------------------------------------------------
  // The output and its shared buffer
  // ---------------------------------------------------------------------------

  class BleOutput {
    const deviceName: string
    const serviceUuid: nat
    /** The UUID of the data characteristic `create_application` registers,
        by the corrected derivation. */
    const characteristicUuid: nat
    /** The bytes the read and notify handlers serve; `None` until the
        first snapshot with a non-waveform track. */
    var dataBuffer: Option<seq<Byte>>

    /** The buffer, once set, never holds more than a BLE payload. */
    predicate Valid()
      reads this
    {
      dataBuffer.Some? ==> |dataBuffer.value| <= MaxBlePayload
    }

    /** `new`, given the already parsed service UUID, together with the
        characteristic UUID derived from it. */
    constructor(deviceName: string, serviceUuid: nat)
      requires serviceUuid < Two128
      ensures this.deviceName == deviceName && this.serviceUuid == serviceUuid
      ensures characteristicUuid == CharacteristicUuid(serviceUuid)
      ensures dataBuffer.None?
      ensures Valid()
    {
      this.deviceName := deviceName;
      this.serviceUuid := serviceUuid;
      characteristicUuid := CharacteristicUuid(serviceUuid);
      dataBuffer := None;
    }

    /** `output`: nothing to send leaves the buffer alone; otherwise the
        serialised message, cut to the payload limit, replaces it. */
    method Output(data: ProcessedData, enc: Encoder) returns (r: Result<(), VitalError>)
      requires Valid()
      modifies this
      ensures Valid()
      ensures NonWaveformTracks(data.allTracks) == [] ==> r == Ok(()) && dataBuffer == old(dataBuffer)
      ensures NonWaveformTracks(data.allTracks) != [] && enc.toJson(MessageOf(data, enc)).Err? ==>
        r == Err(Processing("JSON serialization failed: " + enc.toJson(MessageOf(data, enc)).error))
        && dataBuffer == old(dataBuffer)
      ensures NonWaveformTracks(data.allTracks) != [] && enc.toJson(MessageOf(data, enc)).Ok? ==>
        r == Ok(()) && dataBuffer == Some(Truncate(enc.toJson(MessageOf(data, enc)).value))
    {
      var nonWaveformTracks := NonWaveformTracks(data.allTracks);
      if nonWaveformTracks == [] {
        return Ok(());
      }
      var bleTracks := ConvertTracks(nonWaveformTracks, enc);
      var message := BleMessage("1.0", data.deviceId, enc.rfc3339(data.timestamp), |bleTracks|, bleTracks);
      var jsonBytes := enc.toJson(message);
      if jsonBytes.Err? {
        return Err(Processing("JSON serialization failed: " + jsonBytes.error));
      }
      var size := |jsonBytes.value|;
      if size > MaxBlePayload {
        dataBuffer := Some(jsonBytes.value[..MaxBlePayload]);
      } else {
        dataBuffer := Some(jsonBytes.value);
      }
      return Ok(());
    }
  }

  // ---------------------------------------------------------------------------
  // Lower-case hexadecimal, as `{:0Nx}` prints it and `Uuid::parse_str` reads it
  // ---------------------------------------------------------------------------

  function HexChar(d: nat): char
    requires d < 16
  {
    if d < 10 then ('0' as int + d) as char else ('a' as int + d - 10) as char
  }

  predicate IsHexDigit(c: char) {
    '0' <= c <= '9' || 'a' <= c <= 'f' || 'A' <= c <= 'F'
  }

  function HexDigitValue(c: char): (d: nat)
    requires IsHexDigit(c)
    ensures d < 16
  {
    if '0' <= c <= '9' then c as int - '0' as int
    else if 'a' <= c <= 'f' then c as int - 'a' as int + 10
    else c as int - 'A' as int + 10
  }

  predicate AllHex(s: string) {
    forall i :: 0 <= i < |s| ==> IsHexDigit(s[i])
  }

  function Pow16(w: nat): (p: nat)
    ensures p >= 1
  {
    if w == 0 then 1 else 16 * Pow16(w - 1)
  }

  /** Exactly `w` hex digits of `n`, most significant first; higher digits
      of `n` are dropped. */
  function HexFixed(n: nat, w: nat): (s: string)
    ensures |s| == w && AllHex(s)
  {
    if w == 0 then [] else HexFixed(n / 16, w - 1) + [HexChar(n % 16)]
  }

  /** The value of a run of hex digits. */
  function HexValue(s: string): nat
    requires AllHex(s)
  {
    if s == [] then 0 else HexValue(s[..|s| - 1]) * 16 + HexDigitValue(s[|s| - 1])
  }

  /** Digits that fit are read back as written. */
  lemma {:induction false} HexRoundTrip(n: nat, w: nat)
    requires n < Pow16(w)
    ensures HexValue(HexFixed(n, w)) == n
  {
    if w > 0 {
      var s := HexFixed(n, w);
      assert s[..|s| - 1] == HexFixed(n / 16, w - 1);
      HexRoundTrip(n / 16, w - 1);
    }
  }

  /** The number of hex digits of `n` without leading zeros. */
  function HexDigitCount(n: nat): (k: nat)
    ensures k >= 1
  {
    if n < 16 then 1 else 1 + HexDigitCount(n / 16)
  }

  /** `n` fits in `w` digits exactly when its digit count is at most `w`. */
  lemma {:induction false} HexDigitCountBound(n: nat, w: nat)
    requires w >= 1
    ensures n < Pow16(w) <==> HexDigitCount(n) <= w
  {
    if w > 1 && n >= 16 {
      HexDigitCountBound(n / 16, w - 1);
    }
  }

  /** `{:0wx}`: at least `w` digits, zero-padded, more when `n` needs them. */
  function Hex(n: nat, w: nat): (s: string)
    ensures AllHex(s)
  {
    HexFixed(n, if HexDigitCount(n) > w then HexDigitCount(n) else w)
  }

  lemma HexLength(n: nat, w: nat)
    requires w >= 1
    ensures n < Pow16(w) ==> |Hex(n, w)| == w && Hex(n, w) == HexFixed(n, w)
    ensures Pow16(w) <= n < Pow16(w + 1) ==> |Hex(n, w)| == w + 1
  {
    HexDigitCountBound(n, w);
    HexDigitCountBound(n, w + 1);
  }

  // ---------------------------------------------------------------------------
  // UUIDs
  // ---------------------------------------------------------------------------

  const Two16: nat := 0x1_0000
  const Two48: nat := 0x1_0000_0000_0000
  const Two64: nat := 0x1_0000_0000_0000_0000
  const Two80: nat := 0x1_0000_0000_0000_0000_0000
  const Two96: nat := 0x1_0000_0000_0000_0000_0000_0000
  const Two128: nat := 0x1_0000_0000_0000_0000_0000_0000_0000_0000

  /** The five groups of the hyphenated form, printed with the given last group. */
  function Hyphenated(v: nat, last: nat): string {
    Hex(v / Two96, 8) + "-" + Hex((v / Two80) % Two16, 4) + "-" + Hex((v / Two64) % Two16, 4)
      + "-" + Hex((v / Two48) % Two16, 4) + "-" + Hex(last, 12)
  }

  /** The hyphenated text form of a UUID. */
  function FormatUuid(v: nat): string {
    Hyphenated(v, v % Two48)
  }

  predicate IsHyphenated(s: string) {
    && |s| == 36
    && s[8] == '-' && s[13] == '-' && s[18] == '-' && s[23] == '-'
    && AllHex(s[..8]) && AllHex(s[9..13]) && AllHex(s[14..18]) && AllHex(s[19..23]) && AllHex(s[24..])
  }

  /** The 128-bit value of the five groups. */
  function GroupsValue(a: string, b: string, c: string, d: string, e: string): nat
    requires AllHex(a) && AllHex(b) && AllHex(c) && AllHex(d) && AllHex(e)
  {
    HexValue(a) * Two96 + HexValue(b) * Two80 + HexValue(c) * Two64 + HexValue(d) * Two48 + HexValue(e)
  }

  /** `Uuid::parse_str` on the hyphenated form: 36 characters, four hyphens
      in their places, hex digits of either case elsewhere. */
  function ParseUuid(s: string): (r: Option<nat>)
    ensures r.Some? <==> IsHyphenated(s)
  {
    if IsHyphenated(s) then Some(GroupsValue(s[..8], s[9..13], s[14..18], s[19..23], s[24..])) else None
  }

  /** The UUID text `create_application` builds: the service UUID's groups
      with 1 added to the low 48 bits, before `parse_str(..).unwrap()`.
      Below the overflow it is the text of the corrected UUID; when the low
      48 bits are all ones, adding 1 gives a 13-digit last group and a text
      of 37 characters. */
  function CharUuidTextAsWritten(u: nat): (s: string)
    ensures u < Two128 && u % Two48 < Two48 - 1 ==> s == FormatUuid(CharacteristicUuid(u))
    ensures u < Two128 && u % Two48 == Two48 - 1 ==> |s| == 37
  {
    assert u < Two128 && u % Two48 < Two48 - 1 ==>
      Hyphenated(u, u % Two48 + 1) == FormatUuid(CharacteristicUuid(u)) by {
      if u < Two128 && u % Two48 < Two48 - 1 {
        var c := CharacteristicUuid(u);
        assert c / Two48 == u / Two48 && c % Two48 == u % Two48 + 1;
        assert c / Two64 == (c / Two48) / Two16 && u / Two64 == (u / Two48) / Two16;
        assert c / Two80 == (c / Two48) / (Two16 * Two16) && u / Two80 == (u / Two48) / (Two16 * Two16);
        assert c / Two96 == (c / Two48) / Two48 && u / Two96 == (u / Two48) / Two48;
      }
    }
    assert u < Two128 && u % Two48 == Two48 - 1 ==> |Hyphenated(u, u % Two48 + 1)| == 37 by {
      if u < Two128 && u % Two48 == Two48 - 1 {
        assert Pow16(4) == Two16;
        assert Pow16(8) == 0x1_0000_0000;
        assert Pow16(12) == Two48;
        assert Pow16(13) == 16 * Two48;
        HexLength(u / Two96, 8);
        HexLength((u / Two80) % Two16, 4);
        HexLength((u / Two64) % Two16, 4);
        HexLength((u / Two48) % Two16, 4);
        HexLength(Two48, 12);
      }
    }
    Hyphenated(u, u % Two48 + 1)
  }

  /** `Uuid::parse_str` of that text; `None` is where `unwrap` panics. Below
      the overflow it parses to the corrected UUID; at the overflow it does
      not parse. */
  function CharUuidAsWritten(u: nat): (r: Option<nat>)
    ensures u < Two128 && u % Two48 < Two48 - 1 ==> r == Some(CharacteristicUuid(u))
    ensures u < Two128 && u % Two48 == Two48 - 1 ==> r == None
  {
    if u < Two128 && u % Two48 < Two48 - 1 then
      UuidRoundTrip(CharacteristicUuid(u));
      ParseUuid(CharUuidTextAsWritten(u))
    else ParseUuid(CharUuidTextAsWritten(u))
  }

  /** The group lengths of a hyphenated text whose groups all fit. */
  lemma HyphenatedFits(v: nat, last: nat)
    requires v < Two128 && last < Two48
    ensures |Hyphenated(v, last)| == 36
    ensures Hyphenated(v, last) == HexFixed(v / Two96, 8) + "-" + HexFixed((v / Two80) % Two16, 4) + "-"
      + HexFixed((v / Two64) % Two16, 4) + "-" + HexFixed((v / Two48) % Two16, 4) + "-" + HexFixed(last, 12)
  {
    assert Pow16(4) == Two16;
    assert Pow16(8) == 0x1_0000_0000;
    assert Pow16(12) == Two48;
    HexLength(v / Two96, 8);
    HexLength((v / Two80) % Two16, 4);
    HexLength((v / Two64) % Two16, 4);
    HexLength((v / Two48) % Two16, 4);
    HexLength(last, 12);
  }

  /** The all-ones service UUID is such an input. */
  lemma CharUuidOverflowExample()
    ensures CharUuidAsWritten(Two128 - 1) == None
  {
    assert (Two128 - 1) % Two48 == Two48 - 1;
  }

  /** The evidently intended characteristic UUID: the service UUID with its
      low 48-bit group incremented, wrapping within that group. */
  function CharacteristicUuid(u: nat): (c: nat)
    requires u < Two128
    ensures c < Two128
    ensures c / Two48 == u / Two48
    ensures c % Two48 == (u % Two48 + 1) % Two48
    ensures c != u
    ensures u % Two48 < Two48 - 1 ==> c == u + 1
  {
    (u / Two48) * Two48 + (u % Two48 + 1) % Two48
  }

  /** The groups of a UUID put back together give the UUID. */
  lemma GroupsRecombine(v: nat)
    requires v < Two128
    ensures (v / Two96) * Two96 + ((v / Two80) % Two16) * Two80 + ((v / Two64) % Two16) * Two64
      + ((v / Two48) % Two16) * Two48 + v % Two48 == v
  {
    var q := v / Two48;
    assert v == q * Two48 + v % Two48;
    assert v / Two64 == q / Two16;
    assert v / Two80 == q / (Two16 * Two16);
    assert v / Two96 == q / Two48;
    var q1 := q / Two16;
    assert q == q1 * Two16 + q % Two16;
    var q2 := q1 / Two16;
    assert q1 == q2 * Two16 + q1 % Two16;
    assert q2 == q / (Two16 * Two16);
    var q3 := q2 / Two16;
    assert q2 == q3 * Two16 + q2 % Two16;
    assert q3 == q / Two48;
  }

  /** The pieces of five groups joined by hyphens. */
  lemma JoinedGroups(a: string, b: string, c: string, d: string, e: string)
    requires |a| == 8 && |b| == 4 && |c| == 4 && |d| == 4 && |e| == 12
    ensures var s := a + "-" + b + "-" + c + "-" + d + "-" + e;
      && |s| == 36
      && s[8] == '-' && s[13] == '-' && s[18] == '-' && s[23] == '-'
      && s[..8] == a && s[9..13] == b && s[14..18] == c && s[19..23] == d && s[24..] == e
  {
    var s := a + "-" + b + "-" + c + "-" + d + "-" + e;
    assert s[..8] == a;
    assert s[9..13] == b;
    assert s[14..18] == c;
    assert s[19..23] == d;
    assert s[24..] == e;
  }

  /** Five hex groups of the right lengths joined by hyphens parse group by group. */
  lemma ParseGroups(a: string, b: string, c: string, d: string, e: string)
    requires |a| == 8 && |b| == 4 && |c| == 4 && |d| == 4 && |e| == 12
    requires AllHex(a) && AllHex(b) && AllHex(c) && AllHex(d) && AllHex(e)
    ensures ParseUuid(a + "-" + b + "-" + c + "-" + d + "-" + e) == Some(GroupsValue(a, b, c, d, e))
  {
    JoinedGroups(a, b, c, d, e);
  }

  /** The groups of a UUID, printed in full and read back, give the UUID. */
  lemma GroupsValueOfFields(v: nat)
    requires v < Two128
    ensures GroupsValue(HexFixed(v / Two96, 8), HexFixed((v / Two80) % Two16, 4), HexFixed((v / Two64) % Two16, 4),
                        HexFixed((v / Two48) % Two16, 4), HexFixed(v % Two48, 12)) == v
  {
    assert Pow16(4) == Two16;
    assert Pow16(8) == 0x1_0000_0000;
    assert Pow16(12) == Two48;
    HexRoundTrip(v / Two96, 8);
    HexRoundTrip((v / Two80) % Two16, 4);
    HexRoundTrip((v / Two64) % Two16, 4);
    HexRoundTrip((v / Two48) % Two16, 4);
    HexRoundTrip(v % Two48, 12);
    GroupsRecombine(v);
  }

  /** Every UUID's hyphenated form reads back as that UUID. */
  lemma UuidRoundTrip(v: nat)
    requires v < Two128
    ensures ParseUuid(FormatUuid(v)) == Some(v)
  {
    HyphenatedFits(v, v % Two48);
    ParseGroups(HexFixed(v / Two96, 8), HexFixed((v / Two80) % Two16, 4), HexFixed((v / Two64) % Two16, 4),
                HexFixed((v / Two48) % Two16, 4), HexFixed(v % Two48, 12));
    GroupsValueOfFields(v);
  }

  /** With the corrected derivation the text always parses, so the
      characteristic UUID exists for every service UUID and differs from it. */
  lemma CharacteristicUuidParses(u: nat)
    requires u < Two128
    ensures ParseUuid(FormatUuid(CharacteristicUuid(u))) == Some(CharacteristicUuid(u))
    ensures CharacteristicUuid(u) != u
  {
    UuidRoundTrip(CharacteristicUuid(u));
  }
}
