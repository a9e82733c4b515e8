/** The snapshot handed to the outputs (src/domain/processed_data.rs).
    Timestamps are milliseconds since the Unix epoch; `f64` fields are reals. */
module ProcessedData {
  import opened Wrappers

  datatype TrackType = Number | Waveform | String | Other

  datatype WaveformStats = WaveformStats(min: real, max: real, avg: real, count: nat)

  datatype ProcessedTrack = ProcessedTrack(
    name: string,
    displayValue: string,
    rawValue: Option<real>,
    unit: string,
    timestamp: int,
    roomIndex: nat,
    roomName: string,
    trackIndex: nat,
    recordIndex: nat,
    trackType: TrackType,
    waveformStats: Option<WaveformStats>,
    waveformPoints: Option<seq<real>>)
  {
    /** `is_waveform`. */
    predicate IsWaveform() {
      trackType == Waveform
    }
  }

  datatype ProcessedRoom = ProcessedRoom(roomIndex: nat, roomName: string, tracks: seq<ProcessedTrack>)

  datatype ProcessedData = ProcessedData(
    deviceId: string,
    rooms: seq<ProcessedRoom>,
    allTracks: seq<ProcessedTrack>,
    timestamp: int)

  /** The tracks of every room, room after room. */
  function Flatten(rooms: seq<ProcessedRoom>): seq<ProcessedTrack> {
    if rooms == [] then [] else rooms[0].tracks + Flatten(rooms[1..])
  }

  /** The number of tracks over all rooms. */
  function TrackCount(rooms: seq<ProcessedRoom>): nat {
    if rooms == [] then 0 else |rooms[0].tracks| + TrackCount(rooms[1..])
  }

  /** `ProcessedData::new`: the id and the rooms are stored as given, every
      track of every room is listed in `allTracks`, and the snapshot is
      stamped with the clock reading `now`. */
  function NewProcessedData(deviceId: string, rooms: seq<ProcessedRoom>, now: int): (d: ProcessedData)
    ensures d.deviceId == deviceId && d.rooms == rooms && d.timestamp == now
    ensures d.allTracks == Flatten(rooms)
    ensures |d.allTracks| == TrackCount(rooms)
  {
    FlattenLength(rooms);
    ProcessedData(deviceId, rooms, Flatten(rooms), now)
  }

  lemma {:induction false} FlattenLength(rooms: seq<ProcessedRoom>)
    ensures |Flatten(rooms)| == TrackCount(rooms)
  {
    if rooms != [] {
      FlattenLength(rooms[1..]);
    }
  }

  lemma {:induction false} FlattenAppend(a: seq<ProcessedRoom>, b: seq<ProcessedRoom>)
    ensures Flatten(a + b) == Flatten(a) + Flatten(b)
  {
    if a == [] {
      assert a + b == b;
    } else {
      assert (a + b)[1..] == a[1..] + b;
      FlattenAppend(a[1..], b);
    }
  }

  /** A track is listed in `allTracks` exactly when some room holds it. */
  lemma {:induction false} FlattenMembership(rooms: seq<ProcessedRoom>, t: ProcessedTrack)
    ensures t in Flatten(rooms) <==> exists i :: 0 <= i < |rooms| && t in rooms[i].tracks
  {
    if rooms != [] {
      FlattenMembership(rooms[1..], t);
      if t in Flatten(rooms[1..]) {
        var i :| 0 <= i < |rooms[1..]| && t in rooms[1..][i].tracks;
        assert t in rooms[i + 1].tracks;
      }
      if exists i :: 0 <= i < |rooms| && t in rooms[i].tracks {
        var i :| 0 <= i < |rooms| && t in rooms[i].tracks;
        if i > 0 {
          assert t in rooms[1..][i - 1].tracks;
        }
      }
    }
  }

  /** `get_non_waveform_tracks`: the tracks that are not waveforms, in order. */
  function NonWaveformTracks(tracks: seq<ProcessedTrack>): (r: seq<ProcessedTrack>)
    ensures |r| <= |tracks|
    ensures forall i :: 0 <= i < |r| ==> !r[i].IsWaveform() && r[i] in tracks
    ensures forall i :: 0 <= i < |tracks| && !tracks[i].IsWaveform() ==> tracks[i] in r
  {
    if tracks == [] then []
    else
      var rest := NonWaveformTracks(tracks[1..]);
      assert forall i :: 1 <= i < |tracks| ==> tracks[i] == tracks[1..][i - 1];
      if tracks[0].IsWaveform() then rest else [tracks[0]] + rest
  }

  /** The number of tracks that are not waveforms. */
  function NonWaveformCount(tracks: seq<ProcessedTrack>): nat {
    if tracks == [] then 0
    else (if tracks[0].IsWaveform() then 0 else 1) + NonWaveformCount(tracks[1..])
  }

  lemma {:induction false} NonWaveformTracksCount(tracks: seq<ProcessedTrack>)
    ensures |NonWaveformTracks(tracks)| == NonWaveformCount(tracks)
  {
    if tracks != [] {
      NonWaveformTracksCount(tracks[1..]);
    }
  }

  /** Filtering a concatenation filters each part: the kept tracks keep
      their relative order. */
  lemma {:induction false} NonWaveformTracksAppend(a: seq<ProcessedTrack>, b: seq<ProcessedTrack>)
    ensures NonWaveformTracks(a + b) == NonWaveformTracks(a) + NonWaveformTracks(b)
  {
    if a == [] {
      assert a + b == b;
    } else {
      assert (a + b)[0] == a[0];
      assert (a + b)[1..] == a[1..] + b;
      NonWaveformTracksAppend(a[1..], b);
    }
  }

  /** Without waveforms nothing is dropped; with only waveforms nothing is kept. */
  lemma {:induction false} NonWaveformTracksExtremes(tracks: seq<ProcessedTrack>)
    ensures (forall i :: 0 <= i < |tracks| ==> !tracks[i].IsWaveform()) ==> NonWaveformTracks(tracks) == tracks
    ensures (forall i :: 0 <= i < |tracks| ==> tracks[i].IsWaveform()) ==> NonWaveformTracks(tracks) == []
  {
    if tracks != [] {
      NonWaveformTracksExtremes(tracks[1..]);
      assert forall i :: 1 <= i < |tracks| ==> tracks[i] == tracks[1..][i - 1];
    }
  }

  /** The filter keeps exactly the tracks that are not waveforms. */
  lemma NonWaveformTracksMembership(tracks: seq<ProcessedTrack>, t: ProcessedTrack)
    ensures t in NonWaveformTracks(tracks) <==> t in tracks && !t.IsWaveform()
  {
    var r := NonWaveformTracks(tracks);
    if t in r {
      var i :| 0 <= i < |r| && r[i] == t;
    }
    if t in tracks && !t.IsWaveform() {
      var i :| 0 <= i < |tracks| && tracks[i] == t;
    }
  }
}
