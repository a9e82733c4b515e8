/** The transformation of a parsed `VitalData` document into a snapshot
    (src/processor/transformer.rs): every record of every track of every room
    becomes one processed track, classified as a number, a waveform, a
    string or something else. */
module Transformer {
  import opened Wrappers
  import opened Json
  import opened Text
  import opened VitalData
  import opened ProcessedData

  /** The text formatting the model leaves uninterpreted: `{:.3}` of an `f64`
      and `Value::to_string`. */
  datatype Render = Render(fixed3: real -> string, json: JsonValue -> string)

  /** The clock: the reading used wherever the source asks for the current
      time, and which millisecond timestamps a `DateTime<Utc>` can hold. */
  datatype Clock = Clock(now: int, representable: int -> bool)

  /** What `process_value` reports about one value. */
  datatype ValueReport = ValueReport(
    trackType: TrackType,
    display: string,
    raw: Option<real>,
    stats: Option<WaveformStats>,
    points: Option<seq<real>>)

  // ---------------------------------------------------------------------------
  // Waveforms
  // ---------------------------------------------------------------------------

  /** `Value::as_f64`. */
  function AsF64(v: JsonValue): Option<real> {
    if v.Num? then Some(AsReal(v.n)) else None
  }

  /** The numeric elements of an array, in order (`filter_map(as_f64)`). */
  function NumericPoints(items: seq<JsonValue>): (p: seq<real>)
    ensures |p| <= |items|
    ensures p == [] <==> forall i :: 0 <= i < |items| ==> AsF64(items[i]).None?
  {
    if items == [] then []
    else
      var init := items[..|items| - 1];
      var rest := NumericPoints(init);
      assert forall i :: 0 <= i < |init| ==> init[i] == items[i];
      match AsF64(items[|items| - 1])
      case None => rest
      case Some(x) => rest + [x]
  }

  /** Extraction works piecewise, so the points keep the order of the array. */
  lemma {:induction false} NumericPointsAppend(a: seq<JsonValue>, b: seq<JsonValue>)
    ensures NumericPoints(a + b) == NumericPoints(a) + NumericPoints(b)
    decreases |b|
  {
    if b == [] {
      assert a + b == a;
    } else {
      var b' := b[..|b| - 1];
      assert (a + b)[..|a + b| - 1] == a + b';
      NumericPointsAppend(a, b');
    }
  }

  /** An array of numbers only loses nothing. */
  lemma {:induction false} NumericPointsOfNumbers(items: seq<JsonValue>)
    requires forall i :: 0 <= i < |items| ==> items[i].Num?
    ensures |NumericPoints(items)| == |items|
    ensures forall i :: 0 <= i < |items| ==> NumericPoints(items)[i] == AsReal(items[i].n)
  {
    if items != [] {
      var init := items[..|items| - 1];
      var last := items[|items| - 1];
      assert forall i :: 0 <= i < |init| ==> init[i] == items[i];
      NumericPointsOfNumbers(init);
      assert AsF64(last) == Some(AsReal(last.n));
      var p := NumericPoints(items);
      assert p == NumericPoints(init) + [AsReal(last.n)];
      forall i | 0 <= i < |items|
        ensures p[i] == AsReal(items[i].n)
      {
        if i < |init| {
          assert p[i] == NumericPoints(init)[i];
        }
      }
    }
  }

  /** `fold(f64::INFINITY, f64::min)` over a non-empty list. */
  function Minimum(s: seq<real>): (m: real)
    requires |s| > 0
    ensures m in s
    ensures forall i :: 0 <= i < |s| ==> m <= s[i]
  {
    if |s| == 1 then s[0]
    else
      var m := Minimum(s[..|s| - 1]);
      assert forall i :: 0 <= i < |s| - 1 ==> s[..|s| - 1][i] == s[i];
      if s[|s| - 1] < m then s[|s| - 1] else m
  }

  /** `fold(f64::NEG_INFINITY, f64::max)` over a non-empty list. */
  function Maximum(s: seq<real>): (m: real)
    requires |s| > 0
    ensures m in s
    ensures forall i :: 0 <= i < |s| ==> s[i] <= m
  {
    if |s| == 1 then s[0]
    else
      var m := Maximum(s[..|s| - 1]);
      assert forall i :: 0 <= i < |s| - 1 ==> s[..|s| - 1][i] == s[i];
      if s[|s| - 1] > m then s[|s| - 1] else m
  }

  /** `iter().sum()`, from left to right. */
  function Sum(s: seq<real>): real {
    if s == [] then 0.0 else Sum(s[..|s| - 1]) + s[|s| - 1]
  }

  /** The sum lies between `n` times any lower bound and `n` times any upper bound. */
  lemma {:induction false} SumBetween(s: seq<real>, lo: real, hi: real)
    requires forall i :: 0 <= i < |s| ==> lo <= s[i] <= hi
    ensures |s| as real * lo <= Sum(s) <= |s| as real * hi
  {
    if s != [] {
      var init := s[..|s| - 1];
      assert forall i :: 0 <= i < |init| ==> init[i] == s[i];
      SumBetween(init, lo, hi);
      var n := |init| as real;
      assert |s| as real * lo == n * lo + lo;
      assert |s| as real * hi == n * hi + hi;
    }
  }

  /** Dividing both sides of a bound by a positive count. */
  lemma DivideBounds(n: real, lo: real, x: real, hi: real)
    requires n > 0.0
    requires n * lo <= x <= n * hi
    ensures lo <= x / n <= hi
  {
    var q := x / n;
    assert x == n * q;
    assert n * (q - lo) == x - n * lo;
    assert n * (hi - q) == n * hi - x;
  }

  /** The mean of a non-empty list lies between any lower and upper bound of it. */
  lemma MeanBetween(s: seq<real>, lo: real, hi: real)
    requires |s| > 0
    requires forall i :: 0 <= i < |s| ==> lo <= s[i] <= hi
    ensures lo <= Sum(s) / |s| as real <= hi
  {
    SumBetween(s, lo, hi);
    DivideBounds(|s| as real, lo, Sum(s), hi);
  }

  /** `process_waveform`: the numeric points, with their statistics when
      there is at least one. */
  function ProcessWaveform(items: seq<JsonValue>, render: Render): (r: ValueReport)
    ensures r.trackType == Waveform && r.raw.None?
    ensures NumericPoints(items) == [] ==> r.display == "0 points" && r.stats.None? && r.points.None?
    ensures NumericPoints(items) != [] ==>
      && r.points == Some(NumericPoints(items))
      && r.stats.Some?
      && r.stats.value.count == |NumericPoints(items)|
      && r.stats.value.min in NumericPoints(items)
      && r.stats.value.max in NumericPoints(items)
      && r.stats.value.avg == Sum(NumericPoints(items)) / |NumericPoints(items)| as real
      && r.stats.value.min <= r.stats.value.avg <= r.stats.value.max
      && (forall i :: 0 <= i < |NumericPoints(items)| ==>
            r.stats.value.min <= NumericPoints(items)[i] <= r.stats.value.max)
      && r.display == NatToString(r.stats.value.count) + " points (" + render.fixed3(r.stats.value.min)
           + " to " + render.fixed3(r.stats.value.max) + ", avg: " + render.fixed3(r.stats.value.avg) + ")"
  {
    var numbers := NumericPoints(items);
    if numbers == [] then ValueReport(Waveform, "0 points", None, None, None)
    else
      var min := Minimum(numbers);
      var max := Maximum(numbers);
      var avg := Sum(numbers) / |numbers| as real;
      var count := |numbers|;
      MeanBetween(numbers, min, max);
      var display := NatToString(count) + " points (" + render.fixed3(min) + " to " + render.fixed3(max)
        + ", avg: " + render.fixed3(avg) + ")";
      ValueReport(Waveform, display, None, Some(WaveformStats(min, max, avg, count)), Some(numbers))
  }

  // ---------------------------------------------------------------------------
  // Values and tracks
  // ---------------------------------------------------------------------------

  /** `process_value`: numbers are numbers, an array is a waveform only under
      the hint "wav", strings are shown verbatim, anything else is shown as
      its JSON text. */
  function ProcessValue(value: JsonValue, hint: string, render: Render): (r: ValueReport)
    ensures r.trackType == Number <==> value.Num?
    ensures r.trackType == Waveform <==> value.Array? && hint == "wav"
    ensures r.trackType == String <==> value.Str?
    ensures r.trackType == Other <==> !value.Num? && !value.Str? && !(value.Array? && hint == "wav")
    ensures r.raw.Some? <==> r.trackType == Number
    ensures value.Num? ==> r.raw == Some(AsReal(value.n)) && r.display == render.fixed3(AsReal(value.n))
    ensures value.Str? ==> r.display == value.s
    ensures r.trackType == Other ==> r.display == render.json(value)
    ensures r.trackType != Waveform ==> r.stats.None? && r.points.None?
    ensures value.Array? && hint == "wav" ==> r == ProcessWaveform(value.items, render)
  {
    match value
    case Num(n) => ValueReport(Number, render.fixed3(AsReal(n)), Some(AsReal(n)), None, None)
    case Array(items) =>
      if hint == "wav" then ProcessWaveform(items, render)
      else ValueReport(Other, render.json(value), None, None, None)
    case Str(s) => ValueReport(String, s, None, None, None)
    case _ => ValueReport(Other, render.json(value), None, None, None)
  }

  /** `Room_<index>`: the name of a room that has none. */
  function FallbackRoomName(roomIndex: nat): string {
    "Room_" + NatToString(roomIndex)
  }

  /** `Track_<room index>_<track index>`: the name of a track that has none. */
  function FallbackTrackName(roomIndex: nat, trackIndex: nat): string {
    "Track_" + NatToString(roomIndex) + "_" + NatToString(trackIndex)
  }

  /** Two digit strings joined by '_' split back uniquely. */
  lemma JoinedDigitsSplit(a: string, b: string, c: string, d: string)
    requires AllDigits(a) && AllDigits(c)
    requires a + "_" + b == c + "_" + d
    ensures a == c && b == d
  {
    var s := a + "_" + b;
    assert s[|a|] == '_' && s[|c|] == '_';
    assert forall k :: 0 <= k < |c| ==> s[k] == c[k];
    assert forall k :: 0 <= k < |a| ==> s[k] == a[k];
    assert |a| == |c|;
    assert a == s[..|a|] == c;
    assert b == s[|a| + 1..] == d;
  }

  /** Distinct rooms get distinct fallback names. */
  lemma FallbackRoomNameInjective(i: nat, j: nat)
    requires FallbackRoomName(i) == FallbackRoomName(j)
    ensures i == j
  {
    assert NatToString(i) == FallbackRoomName(i)[5..];
    assert NatToString(j) == FallbackRoomName(j)[5..];
    NatToStringInjective(i, j);
  }

  /** Distinct (room, track) positions get distinct fallback track names. */
  lemma FallbackTrackNameInjective(r1: nat, t1: nat, r2: nat, t2: nat)
    requires FallbackTrackName(r1, t1) == FallbackTrackName(r2, t2)
    ensures r1 == r2 && t1 == t2
  {
    var a, b := NatToString(r1), NatToString(t1);
    var c, d := NatToString(r2), NatToString(t2);
    assert a + "_" + b == FallbackTrackName(r1, t1)[6..];
    assert c + "_" + d == FallbackTrackName(r2, t2)[6..];
    JoinedDigitsSplit(a, b, c, d);
    NatToStringInjective(r1, r2);
    NatToStringInjective(t1, t2);
  }

  /** The room's own name, else its fallback. */
  function ResolveRoomName(room: VitalRoom, roomIndex: nat): (name: string)
    ensures room.roomName.Some? ==> name == room.roomName.value
    ensures room.roomName.None? ==> name == FallbackRoomName(roomIndex)
  {
    room.roomName.GetOr(FallbackRoomName(roomIndex))
  }

  /** The track's `name`, else its `dname`, else its fallback. */
  function ResolveTrackName(track: VitalTrack, roomIndex: nat, trackIndex: nat): (name: string)
    ensures track.name.Some? ==> name == track.name.value
    ensures track.name.None? && track.displayName.Some? ==> name == track.displayName.value
    ensures track.name.None? && track.displayName.None? ==> name == FallbackTrackName(roomIndex, trackIndex)
  {
    track.name.Or(track.displayName).GetOr(FallbackTrackName(roomIndex, trackIndex))
  }

  /** The type hint: "other" when the track gives none. */
  function TypeHint(track: VitalTrack): (hint: string)
    ensures track.trackType.Some? ==> hint == track.trackType.value
    ensures track.trackType.None? ==> hint == "other"
  {
    track.trackType.GetOr("other")
  }

  /** The effective timestamp when a `DateTime` can hold it, else the clock. */
  function RecordTimestamp(record: VitalRecord, clock: Clock): (t: int)
    ensures GetEffectiveTimestamp(record).Some? && clock.representable(GetEffectiveTimestamp(record).value) ==>
      t == GetEffectiveTimestamp(record).value
    ensures GetEffectiveTimestamp(record).Some? && !clock.representable(GetEffectiveTimestamp(record).value) ==>
      t == clock.now
    ensures GetEffectiveTimestamp(record).None? ==> t == clock.now
  {
    match GetEffectiveTimestamp(record)
    case Some(ts) => if clock.representable(ts) then ts else clock.now
    case None => clock.now
  }

  /** `process_track`: one processed entry for one record of one track. */
  function ProcessTrack(track: VitalTrack, record: VitalRecord, roomIndex: nat, roomName: string,
                        trackIndex: nat, recordIndex: nat, clock: Clock, render: Render): (t: ProcessedTrack)
    ensures t.name == ResolveTrackName(track, roomIndex, trackIndex)
    ensures t.unit == track.unit.GetOr("")
    ensures t.roomIndex == roomIndex && t.roomName == roomName
    ensures t.trackIndex == trackIndex && t.recordIndex == recordIndex
    ensures t.timestamp == RecordTimestamp(record, clock)
    ensures var v := ProcessValue(record.value, TypeHint(track), render);
      t.trackType == v.trackType && t.displayValue == v.display && t.rawValue == v.raw
      && t.waveformStats == v.stats && t.waveformPoints == v.points
  {
    var v := ProcessValue(record.value, TypeHint(track), render);
    ProcessedTrack(
      ResolveTrackName(track, roomIndex, trackIndex),
      v.display,
      v.raw,
      track.unit.GetOr(""),
      RecordTimestamp(record, clock),
      roomIndex,
      roomName,
      trackIndex,
      recordIndex,
      v.trackType,
      v.stats,
      v.points)
  }

  /** A track without a type hint never yields a waveform, whatever its values. */
  lemma MissingHintIsNotWaveform(track: VitalTrack, record: VitalRecord, roomIndex: nat, roomName: string,
                                 trackIndex: nat, recordIndex: nat, clock: Clock, render: Render)
    requires track.trackType.None?
    ensures !ProcessTrack(track, record, roomIndex, roomName, trackIndex, recordIndex, clock, render).IsWaveform()
  {
    assert TypeHint(track) == "other";
    assert "other"[0] != "wav"[0];
  }

  // ---------------------------------------------------------------------------
  // The whole document
  // ---------------------------------------------------------------------------

  /** The entries of the first `m` records of a track. */
  function RecordEntries(track: VitalTrack, roomIndex: nat, roomName: string, trackIndex: nat, m: nat,
                         clock: Clock, render: Render): seq<ProcessedTrack>
    requires m <= |track.records|
  {
    if m == 0 then []
    else
      RecordEntries(track, roomIndex, roomName, trackIndex, m - 1, clock, render)
        + [ProcessTrack(track, track.records[m - 1], roomIndex, roomName, trackIndex, m - 1, clock, render)]
  }

  /** The entries of the first `n` tracks of a room, track after track. */
  function TrackEntries(room: VitalRoom, roomIndex: nat, roomName: string, n: nat,
                        clock: Clock, render: Render): seq<ProcessedTrack>
    requires n <= |room.tracks|
  {
    if n == 0 then []
    else
      var track := room.tracks[n - 1];
      TrackEntries(room, roomIndex, roomName, n - 1, clock, render)
        + RecordEntries(track, roomIndex, roomName, n - 1, |track.records|, clock, render)
  }

  function ProcessRoom(room: VitalRoom, roomIndex: nat, clock: Clock, render: Render): ProcessedRoom {
    var name := ResolveRoomName(room, roomIndex);
    ProcessedRoom(roomIndex, name, TrackEntries(room, roomIndex, name, |room.tracks|, clock, render))
  }

  /** The first `n` rooms, processed. */
  function ProcessRooms(data: VitalData, n: nat, clock: Clock, render: Render): seq<ProcessedRoom>
    requires n <= |data.rooms|
  {
    if n == 0 then []
    else ProcessRooms(data, n - 1, clock, render) + [ProcessRoom(data.rooms[n - 1], n - 1, clock, render)]
  }

  /** What `transform` computes. */
  function TransformSpec(data: VitalData, clock: Clock, render: Render): (p: ProcessedData)
    ensures p.deviceId == data.vrCode && p.timestamp == clock.now
    ensures |p.rooms| == |data.rooms|
    ensures forall i :: 0 <= i < |data.rooms| ==> p.rooms[i] == ProcessRoom(data.rooms[i], i, clock, render)
    ensures p.allTracks == Flatten(p.rooms)
  {
    ProcessRoomsAt(data, |data.rooms|, clock, render);
    NewProcessedData(data.vrCode, ProcessRooms(data, |data.rooms|, clock, render), clock.now)
  }

  /** `transform`: rooms, then tracks, then records, in order, each record
      appended to its room's list as it is processed. */
  method Transform(data: VitalData, clock: Clock, render: Render) returns (p: ProcessedData)
    ensures p == TransformSpec(data, clock, render)
  {
    var processedRooms: seq<ProcessedRoom> := [];
    var roomIndex := 0;
    while roomIndex < |data.rooms|
      invariant roomIndex <= |data.rooms|
      invariant processedRooms == ProcessRooms(data, roomIndex, clock, render)
    {
      var processedRoom := TransformRoom(data.rooms[roomIndex], roomIndex, clock, render);
      processedRooms := processedRooms + [processedRoom];
      roomIndex := roomIndex + 1;
    }
    p := NewProcessedData(data.vrCode, processedRooms, clock.now);
  }

  /** The body of the room loop of `transform`: the room's name is resolved
      and the entries of every track are appended to the room's list. */
  method TransformRoom(room: VitalRoom, roomIndex: nat, clock: Clock, render: Render) returns (r: ProcessedRoom)
    ensures r == ProcessRoom(room, roomIndex, clock, render)
  {
    var roomName := ResolveRoomName(room, roomIndex);
    var roomTracks: seq<ProcessedTrack> := [];
    var trackIndex := 0;
    while trackIndex < |room.tracks|
      invariant trackIndex <= |room.tracks|
      invariant roomTracks == TrackEntries(room, roomIndex, roomName, trackIndex, clock, render)
    {
      var entries := TransformTrack(room.tracks[trackIndex], roomIndex, roomName, trackIndex, clock, render);
      roomTracks := roomTracks + entries;
      trackIndex := trackIndex + 1;
    }
    r := ProcessedRoom(roomIndex, roomName, roomTracks);
  }

  /** The record loop of `transform`, inside the track loop: every record of
      the track is processed, in order. */
  method TransformTrack(track: VitalTrack, roomIndex: nat, roomName: string, trackIndex: nat,
                        clock: Clock, render: Render) returns (entries: seq<ProcessedTrack>)
    ensures entries == RecordEntries(track, roomIndex, roomName, trackIndex, |track.records|, clock, render)
  {
    entries := [];
    var recordIndex := 0;
    while recordIndex < |track.records|
      invariant recordIndex <= |track.records|
      invariant entries == RecordEntries(track, roomIndex, roomName, trackIndex, recordIndex, clock, render)
    {
      var processedTrack := ProcessTrack(track, track.records[recordIndex], roomIndex, roomName,
                                         trackIndex, recordIndex, clock, render);
      entries := entries + [processedTrack];
      recordIndex := recordIndex + 1;
    }
  }

  // ---------------------------------------------------------------------------
  // Properties of the transformation
  // ---------------------------------------------------------------------------

  /** The number of records in the first `n` tracks of a room. */
  function RecordCount(room: VitalRoom, n: nat): nat
    requires n <= |room.tracks|
  {
    if n == 0 then 0 else RecordCount(room, n - 1) + |room.tracks[n - 1].records|
  }

  /** A track yields one entry per record. */
  lemma {:induction false} RecordEntriesLength(track: VitalTrack, roomIndex: nat, roomName: string, trackIndex: nat,
                                              m: nat, clock: Clock, render: Render)
    requires m <= |track.records|
    ensures |RecordEntries(track, roomIndex, roomName, trackIndex, m, clock, render)| == m
  {
    if m > 0 {
      RecordEntriesLength(track, roomIndex, roomName, trackIndex, m - 1, clock, render);
    }
  }

  /** Entry `j` of a track's entries is record `j`, processed. */
  lemma {:induction false} RecordEntryAt(track: VitalTrack, roomIndex: nat, roomName: string, trackIndex: nat, m: nat,
                                        clock: Clock, render: Render, j: nat)
    requires j < m <= |track.records|
    ensures |RecordEntries(track, roomIndex, roomName, trackIndex, m, clock, render)| == m
    ensures RecordEntries(track, roomIndex, roomName, trackIndex, m, clock, render)[j]
      == ProcessTrack(track, track.records[j], roomIndex, roomName, trackIndex, j, clock, render)
  {
    RecordEntriesLength(track, roomIndex, roomName, trackIndex, m, clock, render);
    if j < m - 1 {
      RecordEntryAt(track, roomIndex, roomName, trackIndex, m - 1, clock, render, j);
      RecordEntriesPrefix(track, roomIndex, roomName, trackIndex, m, clock, render, j);
    } else {
      RecordEntriesLast(track, roomIndex, roomName, trackIndex, m, clock, render);
    }
  }

  /** Adding a record leaves the earlier entries in place. */
  lemma RecordEntriesPrefix(track: VitalTrack, roomIndex: nat, roomName: string, trackIndex: nat, m: nat,
                            clock: Clock, render: Render, j: nat)
    requires j < m - 1 && m <= |track.records|
    ensures |RecordEntries(track, roomIndex, roomName, trackIndex, m - 1, clock, render)| == m - 1
    ensures RecordEntries(track, roomIndex, roomName, trackIndex, m, clock, render)[j]
      == RecordEntries(track, roomIndex, roomName, trackIndex, m - 1, clock, render)[j]
  {
    RecordEntriesLength(track, roomIndex, roomName, trackIndex, m - 1, clock, render);
  }

  /** The last entry is the last record, processed. */
  lemma RecordEntriesLast(track: VitalTrack, roomIndex: nat, roomName: string, trackIndex: nat, m: nat,
                          clock: Clock, render: Render)
    requires 0 < m <= |track.records|
    ensures |RecordEntries(track, roomIndex, roomName, trackIndex, m, clock, render)| == m
    ensures RecordEntries(track, roomIndex, roomName, trackIndex, m, clock, render)[m - 1]
      == ProcessTrack(track, track.records[m - 1], roomIndex, roomName, trackIndex, m - 1, clock, render)
  {
    RecordEntriesLength(track, roomIndex, roomName, trackIndex, m - 1, clock, render);
  }

  /** Entry `q` of a track's entries carries the room, the track index and
      `q` as its record index. */
  lemma RecordEntriesFields(track: VitalTrack, roomIndex: nat, roomName: string, trackIndex: nat,
                            m: nat, clock: Clock, render: Render)
    requires m <= |track.records|
    ensures |RecordEntries(track, roomIndex, roomName, trackIndex, m, clock, render)| == m
    ensures forall q :: 0 <= q < m ==>
      var e := RecordEntries(track, roomIndex, roomName, trackIndex, m, clock, render)[q];
      e.roomIndex == roomIndex && e.roomName == roomName && e.trackIndex == trackIndex && e.recordIndex == q
  {
    RecordEntriesLength(track, roomIndex, roomName, trackIndex, m, clock, render);
    forall q | 0 <= q < m
      ensures var e := RecordEntries(track, roomIndex, roomName, trackIndex, m, clock, render)[q];
        e.roomIndex == roomIndex && e.roomName == roomName && e.trackIndex == trackIndex && e.recordIndex == q
    {
      RecordEntryAt(track, roomIndex, roomName, trackIndex, m, clock, render, q);
    }
  }

  /** A room yields exactly one entry per record. */
  lemma {:induction false} TrackEntriesLength(room: VitalRoom, roomIndex: nat, roomName: string, n: nat,
                                             clock: Clock, render: Render)
    requires n <= |room.tracks|
    ensures |TrackEntries(room, roomIndex, roomName, n, clock, render)| == RecordCount(room, n)
  {
    if n > 0 {
      var track := room.tracks[n - 1];
      TrackEntriesLength(room, roomIndex, roomName, n - 1, clock, render);
      RecordEntriesLength(track, roomIndex, roomName, n - 1, |track.records|, clock, render);
    }
  }

  lemma {:induction false} RecordCountMonotone(room: VitalRoom, k: nat, n: nat)
    requires k <= n <= |room.tracks|
    ensures RecordCount(room, k) <= RecordCount(room, n)
    decreases n
  {
    if k < n {
      RecordCountMonotone(room, k, n - 1);
    }
  }

  /** Record `j` of track `k` sits at position `RecordCount(room, k) + j` of
      its room's list: the entries are ordered by track, then by record. */
  lemma {:induction false} TrackEntriesAt(room: VitalRoom, roomIndex: nat, roomName: string, n: nat,
                                         clock: Clock, render: Render, k: nat, j: nat)
    requires k < n <= |room.tracks|
    requires j < |room.tracks[k].records|
    ensures RecordCount(room, k) + j < |TrackEntries(room, roomIndex, roomName, n, clock, render)|
    ensures TrackEntries(room, roomIndex, roomName, n, clock, render)[RecordCount(room, k) + j]
      == ProcessTrack(room.tracks[k], room.tracks[k].records[j], roomIndex, roomName, k, j, clock, render)
  {
    var track := room.tracks[n - 1];
    var prefix := TrackEntries(room, roomIndex, roomName, n - 1, clock, render);
    var last := RecordEntries(track, roomIndex, roomName, n - 1, |track.records|, clock, render);
    if k < n - 1 {
      TrackEntriesAt(room, roomIndex, roomName, n - 1, clock, render, k, j);
      IndexLeft(prefix, last, RecordCount(room, k) + j);
    } else {
      assert |prefix| == RecordCount(room, k) by {
        TrackEntriesLength(room, roomIndex, roomName, n - 1, clock, render);
      }
      RecordEntryAt(track, roomIndex, roomName, n - 1, |track.records|, clock, render, j);
      IndexRight(prefix, last, j);
    }
  }

  lemma IndexLeft<T>(a: seq<T>, b: seq<T>, i: nat)
    requires i < |a|
    ensures i < |a + b| && (a + b)[i] == a[i]
  {
  }

  lemma IndexRight<T>(a: seq<T>, b: seq<T>, j: nat)
    requires j < |b|
    ensures |a| + j < |a + b| && (a + b)[|a| + j] == b[j]
  {
  }

  /** Every entry of a room carries the room's index and name, and points
      at an existing record of an existing track. */
  lemma {:induction false} TrackEntriesBelong(room: VitalRoom, roomIndex: nat, roomName: string, n: nat,
                                             clock: Clock, render: Render)
    requires n <= |room.tracks|
    ensures forall p :: 0 <= p < |TrackEntries(room, roomIndex, roomName, n, clock, render)| ==>
      Belongs(TrackEntries(room, roomIndex, roomName, n, clock, render)[p], room, roomIndex, roomName, n)
  {
    if n > 0 {
      var track := room.tracks[n - 1];
      var prefix := TrackEntries(room, roomIndex, roomName, n - 1, clock, render);
      var last := RecordEntries(track, roomIndex, roomName, n - 1, |track.records|, clock, render);
      assert forall p :: 0 <= p < |prefix| ==> Belongs(prefix[p], room, roomIndex, roomName, n) by {
        TrackEntriesBelong(room, roomIndex, roomName, n - 1, clock, render);
      }
      assert forall j :: 0 <= j < |last| ==> Belongs(last[j], room, roomIndex, roomName, n) by {
        RecordEntriesFields(track, roomIndex, roomName, n - 1, |track.records|, clock, render);
      }
      BelongsAppend(prefix, last, room, roomIndex, roomName, n);
    }
  }

  /** An entry carries the room's index and name and points at an existing
      record of one of the first `n` tracks. */
  predicate Belongs(e: ProcessedTrack, room: VitalRoom, roomIndex: nat, roomName: string, n: nat) {
    e.roomIndex == roomIndex && e.roomName == roomName && e.trackIndex < n <= |room.tracks|
    && e.recordIndex < |room.tracks[e.trackIndex].records|
  }

  lemma BelongsAppend(a: seq<ProcessedTrack>, b: seq<ProcessedTrack>, room: VitalRoom, roomIndex: nat,
                      roomName: string, n: nat)
    requires forall p :: 0 <= p < |a| ==> Belongs(a[p], room, roomIndex, roomName, n)
    requires forall p :: 0 <= p < |b| ==> Belongs(b[p], room, roomIndex, roomName, n)
    ensures forall p :: 0 <= p < |a + b| ==> Belongs((a + b)[p], room, roomIndex, roomName, n)
  {
    forall p | 0 <= p < |a + b| ensures Belongs((a + b)[p], room, roomIndex, roomName, n) {
      if p >= |a| {
        assert (a + b)[p] == b[p - |a|];
      }
    }
  }

  /** Strictly before, by track index and then by record index. */
  predicate Precedes(a: ProcessedTrack, b: ProcessedTrack) {
    a.trackIndex < b.trackIndex || (a.trackIndex == b.trackIndex && a.recordIndex < b.recordIndex)
  }

  predicate Ordered(es: seq<ProcessedTrack>) {
    forall p, q :: 0 <= p < q < |es| ==> Precedes(es[p], es[q])
  }

  /** The entries of a room are strictly increasing by (track, record). */
  lemma {:induction false} TrackEntriesOrdered(room: VitalRoom, roomIndex: nat, roomName: string, n: nat,
                                              clock: Clock, render: Render)
    requires n <= |room.tracks|
    ensures Ordered(TrackEntries(room, roomIndex, roomName, n, clock, render))
  {
    if n > 0 {
      var track := room.tracks[n - 1];
      var prefix := TrackEntries(room, roomIndex, roomName, n - 1, clock, render);
      var last := RecordEntries(track, roomIndex, roomName, n - 1, |track.records|, clock, render);
      TrackEntriesOrdered(room, roomIndex, roomName, n - 1, clock, render);
      TrackEntriesBefore(room, roomIndex, roomName, n - 1, clock, render);
      RecordEntriesNumbered(track, roomIndex, roomName, n - 1, clock, render);
      OrderedAppend(prefix, last, n - 1);
      assert TrackEntries(room, roomIndex, roomName, n, clock, render) == prefix + last;
    }
  }

  /** Every entry comes from a track before `k`. */
  predicate AllBefore(es: seq<ProcessedTrack>, k: nat) {
    forall p :: 0 <= p < |es| ==> es[p].trackIndex < k
  }

  /** The entries of track `k`, numbered by record from 0. */
  predicate Numbered(es: seq<ProcessedTrack>, k: nat) {
    forall q :: 0 <= q < |es| ==> es[q].trackIndex == k && es[q].recordIndex == q
  }

  lemma TrackEntriesBefore(room: VitalRoom, roomIndex: nat, roomName: string, n: nat,
                           clock: Clock, render: Render)
    requires n <= |room.tracks|
    ensures AllBefore(TrackEntries(room, roomIndex, roomName, n, clock, render), n)
  {
    TrackEntriesBelong(room, roomIndex, roomName, n, clock, render);
  }

  lemma RecordEntriesNumbered(track: VitalTrack, roomIndex: nat, roomName: string, trackIndex: nat,
                              clock: Clock, render: Render)
    ensures Numbered(RecordEntries(track, roomIndex, roomName, trackIndex, |track.records|, clock, render), trackIndex)
  {
    RecordEntriesFields(track, roomIndex, roomName, trackIndex, |track.records|, clock, render);
  }

  /** Entries of earlier tracks followed by those of track `k` stay ordered. */
  lemma OrderedAppend(prefix: seq<ProcessedTrack>, last: seq<ProcessedTrack>, k: nat)
    requires Ordered(prefix) && AllBefore(prefix, k) && Numbered(last, k)
    ensures Ordered(prefix + last)
  {
    var es := prefix + last;
    forall p, q | 0 <= p < q < |es|
      ensures Precedes(es[p], es[q])
    {
      if q < |prefix| {
        assert es[p] == prefix[p] && es[q] == prefix[q];
      } else if p < |prefix| {
        assert es[p] == prefix[p] && es[q] == last[q - |prefix|];
      } else {
        assert es[p] == last[p - |prefix|] && es[q] == last[q - |prefix|];
      }
    }
  }

  lemma {:induction false} ProcessRoomsAt(data: VitalData, n: nat, clock: Clock, render: Render)
    requires n <= |data.rooms|
    ensures |ProcessRooms(data, n, clock, render)| == n
    ensures forall i :: 0 <= i < n ==> ProcessRooms(data, n, clock, render)[i] == ProcessRoom(data.rooms[i], i, clock, render)
  {
    if n > 0 {
      ProcessRoomsAt(data, n - 1, clock, render);
    }
  }

  /** `transform` keeps the device id, yields one room per input room with
      that room's index and resolved name, lists every entry of every room
      in `allTracks`, and stamps the snapshot with the clock reading. */
  lemma TransformShape(data: VitalData, clock: Clock, render: Render)
    ensures var p := TransformSpec(data, clock, render);
      && p.deviceId == data.vrCode
      && p.timestamp == clock.now
      && |p.rooms| == |data.rooms|
      && (forall i :: 0 <= i < |data.rooms| ==>
            p.rooms[i].roomIndex == i && p.rooms[i].roomName == ResolveRoomName(data.rooms[i], i)
            && |p.rooms[i].tracks| == RecordCount(data.rooms[i], |data.rooms[i].tracks|))
      && p.allTracks == Flatten(p.rooms)
  {
    ProcessRoomsAt(data, |data.rooms|, clock, render);
    forall i | 0 <= i < |data.rooms|
      ensures |ProcessRoom(data.rooms[i], i, clock, render).tracks| == RecordCount(data.rooms[i], |data.rooms[i].tracks|)
    {
      TrackEntriesLength(data.rooms[i], i, ResolveRoomName(data.rooms[i], i), |data.rooms[i].tracks|, clock, render);
    }
  }
}
