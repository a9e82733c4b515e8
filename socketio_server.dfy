/** One Socket.IO v4 connection as VRConnect serves it
    (src/input/socketio_server.rs): the Engine.IO open packet, then a loop
    over incoming WebSocket frames. Text frames are dispatched on their
    Engine.IO / Socket.IO packet-type prefix; a binary frame is run through
    the ingestion pipeline only when a `451-` binary-event placeholder has
    announced it.

    The socket is an event trace: every frame the peer sends, with what the
    write side reports when a reply is sent on that frame, and the clock
    reading taken while a binary frame is processed. */
module SocketIoServer {
  import opened Wrappers
  import opened Errors
  import opened Json
  import opened Decompressor
  import opened Cleaner
  import opened VitalData
  import opened ProcessedData
  import opened Transformer

  /** An incoming WebSocket message, or the read error that ends the stream. */
  datatype Frame =
    | Text(text: string, replyError: Option<string>)
    | Binary(data: seq<Byte>, now: int)
    | Close
    | Ping(payload: seq<Byte>, replyError: Option<string>)
    | Pong
    | RawFrame
    | ReadError

  /** A frame VRConnect writes back. */
  datatype Outgoing = SendText(text: string) | SendPong(payload: seq<Byte>)

  /** The foreign pieces of the pipeline: the zlib codec, UTF-8 decoding of
      bytes, the JSON text parser, the text renderers, and which millisecond
      timestamps a `DateTime<Utc>` can hold. */
  datatype Pipeline = Pipeline(
    inflate: seq<Byte> -> Result<seq<Byte>, string>,
    utf8: seq<Byte> -> Result<string, string>,
    parse: string -> Result<JsonValue, string>,
    render: Render,
    representable: int -> bool)

  /** What a connection has done so far: the placeholder slot, the frames
      written, the snapshots handed to the processor, and the pipeline
      errors logged. */
  datatype Session = Session(
    pending: Option<string>,
    outgoing: seq<Outgoing>,
    snapshots: seq<ProcessedData>,
    failures: seq<VitalError>)

  datatype Control = Continue | Finish | Abort(error: VitalError)

  datatype Stepped = Stepped(session: Session, control: Control)

  datatype Outcome = Outcome(session: Session, result: Result<(), VitalError>)

  predicate StartsWith(s: string, prefix: string) {
    |prefix| <= |s| && s[..|prefix|] == prefix
  }

  /** The Engine.IO v4 open packet (type 0) carrying the session id. */
  function Greeting(sid: string): string {
    "0{\"sid\":\"" + sid + "\",\"upgrades\":[],\"pingInterval\":25000,\"pingTimeout\":5000}"
  }

  // ---------------------------------------------------------------------------
  // The pipeline
  // ---------------------------------------------------------------------------

  /** `process_data`: decompress, decode UTF-8, clean, parse, transform. */
  function ProcessDataSpec(data: seq<Byte>, p: Pipeline, now: int): (r: Result<ProcessedData, VitalError>)
    ensures Decompress(data, p.inflate).Err? ==> r == Err(Decompress(data, p.inflate).error)
    ensures Decompress(data, p.inflate).Ok? && p.utf8(Decompress(data, p.inflate).value).Err? ==>
      r == Err(Processing("UTF-8 conversion failed: " + p.utf8(Decompress(data, p.inflate).value).error))
    ensures var d := Decompress(data, p.inflate);
      d.Ok? && p.utf8(d.value).Ok? ==>
        var document := p.parse(Clean(p.utf8(d.value).value).value);
        && (document.Err? ==> r == Err(JsonParse(document.error)))
        && (document.Ok? && DecodeVitalData(document.value).Err? ==>
              r == Err(JsonParse(DecodeVitalData(document.value).error)))
        && (document.Ok? && DecodeVitalData(document.value).Ok? ==>
              r == Ok(TransformSpec(DecodeVitalData(document.value).value, Clock(now, p.representable), p.render)))
    ensures r.Err? ==> r.error.Decompression? || r.error.Processing? || r.error.JsonParse?
  {
    var decompressed :- Decompress(data, p.inflate);
    var jsonText :- match p.utf8(decompressed)
      case Ok(t) => Ok(t)
      case Err(e) => Err(Processing("UTF-8 conversion failed: " + e));
    var cleaned := Clean(jsonText).value;
    var document :- match p.parse(cleaned)
      case Ok(v) => Ok(v)
      case Err(e) => Err(JsonParse(e));
    var vitalData :- match DecodeVitalData(document)
      case Ok(d) => Ok(d)
      case Err(e) => Err(JsonParse(e));
    Ok(TransformSpec(vitalData, Clock(now, p.representable), p.render))
  }

  /** A snapshot comes out exactly when every stage succeeds, and it is the
      transformation of the document read from the cleaned text. */
  lemma ProcessDataSucceeds(data: seq<Byte>, p: Pipeline, now: int)
    ensures ProcessDataSpec(data, p, now).Ok? <==>
      && Decompress(data, p.inflate).Ok?
      && p.utf8(Decompress(data, p.inflate).value).Ok?
      && p.parse(Clean(p.utf8(Decompress(data, p.inflate).value).value).value).Ok?
      && DecodeVitalData(p.parse(Clean(p.utf8(Decompress(data, p.inflate).value).value).value).value).Ok?
    ensures ProcessDataSpec(data, p, now).Ok? ==>
      var text := p.utf8(Decompress(data, p.inflate).value).value;
      var document := p.parse(Clean(text).value).value;
      ProcessDataSpec(data, p, now).value
        == TransformSpec(DecodeVitalData(document).value, Clock(now, p.representable), p.render)
  {
  }

  method ProcessData(data: seq<Byte>, p: Pipeline, now: int) returns (r: Result<ProcessedData, VitalError>)
    ensures r == ProcessDataSpec(data, p, now)
  {
    var decompressed := Decompress(data, p.inflate);
    if decompressed.Err? {
      return Err(decompressed.error);
    }
    var jsonText := p.utf8(decompressed.value);
    if jsonText.Err? {
      return Err(Processing("UTF-8 conversion failed: " + jsonText.error));
    }
    var cleaned := Clean(jsonText.value);
    var document := p.parse(cleaned.value);
    if document.Err? {
      return Err(JsonParse(document.error));
    }
    var vitalData := DecodeVitalData(document.value);
    if vitalData.Err? {
      return Err(JsonParse(vitalData.error));
    }
    var processed := Transform(vitalData.value, Clock(now, p.representable), p.render);
    return Ok(processed);
  }

  // ---------------------------------------------------------------------------
  // The frame loop, as a function of the trace
  // ---------------------------------------------------------------------------

  /** The handling of one frame. It only appends to what the session has
      written, delivered and logged; it takes in at most one more announced
      binary frame, and only on a placeholder; only Close and a read error
      end the loop; a reply that cannot be written aborts with a Socket.IO
      error and changes nothing. */
  function Step(s: Session, frame: Frame, p: Pipeline): (r: Stepped)
    ensures s.outgoing <= r.session.outgoing && s.snapshots <= r.session.snapshots && s.failures <= r.session.failures
    ensures Announced(r.session) <= Announced(s) + (if IsPlaceholder(frame) then 1 else 0)
    ensures r.control.Finish? <==> frame.Close? || frame.ReadError?
    ensures r.control.Abort? ==> r.control.error.SocketIo? && r.session == s
  {
    match frame
    case Text(text, replyError) =>
      if StartsWith(text, "2") then
        (match replyError
         case Some(e) => Stepped(s, Abort(SocketIo("Failed to send pong: " + e)))
         case None => Stepped(s.(outgoing := s.outgoing + [SendText("3")]), Continue))
      else if StartsWith(text, "40") then Stepped(s, Continue)
      else if StartsWith(text, "42") then Stepped(s, Continue)
      else if StartsWith(text, "451-") then Stepped(s.(pending := Some(text[4..])), Continue)
      else Stepped(s, Continue)
    case Binary(data, now) =>
      if s.pending.Some? then
        (match ProcessDataSpec(data, p, now)
         case Ok(d) => Stepped(s.(pending := None, snapshots := s.snapshots + [d]), Continue)
         case Err(e) => Stepped(s.(pending := None, failures := s.failures + [e]), Continue))
      else Stepped(s, Continue)
    case Close => Stepped(s, Finish)
    case Ping(payload, replyError) =>
      (match replyError
       case Some(e) => Stepped(s, Abort(SocketIo("Failed to send pong: " + e)))
       case None => Stepped(s.(outgoing := s.outgoing + [SendPong(payload)]), Continue))
    case Pong => Stepped(s, Continue)
    case RawFrame => Stepped(s, Continue)
    case ReadError => Stepped(s, Finish)
  }

  /** The loop: frames are handled in order until the stream ends, a Close
      frame or a read error stops it (`Ok`), or a reply cannot be written
      (`Err`). It only ever appends to what was written, delivered and
      logged; its only error is a Socket.IO send failure, pipeline errors
      being logged; and every binary frame that reaches the pipeline was
      announced by a placeholder frame of its own. */
  function Run(s: Session, frames: seq<Frame>, p: Pipeline): (o: Outcome)
    ensures s.outgoing <= o.session.outgoing && s.snapshots <= o.session.snapshots && s.failures <= o.session.failures
    ensures o.result.Err? ==> o.result.error.SocketIo?
    ensures Announced(o.session) <= Announced(s) + Placeholders(frames)
    decreases |frames|
  {
    if frames == [] then Outcome(s, Ok(()))
    else
      var next := Step(s, frames[0], p);
      match next.control
      case Continue => Run(next.session, frames[1..], p)
      case Finish => Outcome(next.session, Ok(()))
      case Abort(e) => Outcome(next.session, Err(e))
  }

  /** The loop at frame `i`: one step, then the frames after it. */
  lemma RunFrom(s: Session, frames: seq<Frame>, i: nat, p: Pipeline)
    requires i < |frames|
    ensures var next := Step(s, frames[i], p);
      Run(s, frames[i..], p) == match next.control
        case Continue => Run(next.session, frames[i + 1..], p)
        case Finish => Outcome(next.session, Ok(()))
        case Abort(e) => Outcome(next.session, Err(e))
  {
    assert frames[i..][0] == frames[i] && frames[i..][1..] == frames[i + 1..];
  }

  /** A session that has sent the open packet and has nothing pending. */
  function Opened(sid: string): Session {
    Session(None, [SendText(Greeting(sid))], [], [])
  }

  /** `handle_connection` after the WebSocket handshake. */
  function Connection(sid: string, greetingError: Option<string>, frames: seq<Frame>, p: Pipeline): (o: Outcome)
    ensures greetingError.Some? ==>
      o == Outcome(Session(None, [], [], []), Err(SocketIo("Failed to send connection response: " + greetingError.value)))
    ensures greetingError.None? ==>
      && |o.session.outgoing| > 0 && o.session.outgoing[0] == SendText(Greeting(sid))
      && |o.session.snapshots| <= Placeholders(frames)
    ensures o.result.Err? ==> o.result.error.SocketIo?
  {
    match greetingError
    case Some(e) => Outcome(Session(None, [], [], []), Err(SocketIo("Failed to send connection response: " + e)))
    case None => Run(Opened(sid), frames, p)
  }

  /** `handle_connection`: the open packet, then the `while let` loop over
      incoming frames with its pending-placeholder slot. */
  method HandleConnection(sid: string, greetingError: Option<string>, frames: seq<Frame>, p: Pipeline)
    returns (o: Outcome)
    ensures o == Connection(sid, greetingError, frames, p)
  {
    var greeting := Greeting(sid);
    if greetingError.Some? {
      return Outcome(Session(None, [], [], []),
                     Err(SocketIo("Failed to send connection response: " + greetingError.value)));
    }
    var session := Session(None, [SendText(greeting)], [], []);
    var i := 0;
    while i < |frames|
      invariant i <= |frames|
      invariant Run(session, frames[i..], p) == Connection(sid, greetingError, frames, p)
      decreases |frames| - i
    {
      RunFrom(session, frames, i, p);
      var next := HandleFrame(session, frames[i], p);
      match next.control {
        case Continue =>
          session := next.session;
        case Finish =>
          return Outcome(next.session, Ok(()));
        case Abort(e) =>
          return Outcome(next.session, Err(e));
      }
      i := i + 1;
    }
    return Outcome(session, Ok(()));
  }

  /** The body of the `while let` loop for one incoming frame: the pending
      slot, the frames written, the snapshots and the logged failures are
      updated in place, and the loop is told whether to go on. */
  method HandleFrame(s: Session, frame: Frame, p: Pipeline) returns (next: Stepped)
    ensures next == Step(s, frame, p)
  {
    var pending, outgoing, snapshots, failures := s.pending, s.outgoing, s.snapshots, s.failures;
    match frame {
      case Text(text, replyError) =>
        if StartsWith(text, "2") {
          if replyError.Some? {
            return Stepped(s, Abort(SocketIo("Failed to send pong: " + replyError.value)));
          }
          outgoing := outgoing + [SendText("3")];
        } else if StartsWith(text, "40") {
        } else if StartsWith(text, "42") {
        } else if StartsWith(text, "451-") {
          pending := Some(text[4..]);
        }
      case Binary(data, now) =>
        var announced := pending;
        pending := None;
        if announced.Some? {
          var result := ProcessData(data, p, now);
          match result {
            case Ok(d) => snapshots := snapshots + [d];
            case Err(e) => failures := failures + [e];
          }
        }
      case Close =>
        return Stepped(s, Finish);
      case Ping(payload, replyError) =>
        if replyError.Some? {
          return Stepped(s, Abort(SocketIo("Failed to send pong: " + replyError.value)));
        }
        outgoing := outgoing + [SendPong(payload)];
      case Pong =>
      case RawFrame =>
      case ReadError =>
        return Stepped(s, Finish);
    }
    return Stepped(Session(pending, outgoing, snapshots, failures), Continue);
  }

  // ---------------------------------------------------------------------------
  // Properties of the frame loop
  // ---------------------------------------------------------------------------

  /** The dispatch of text frames: "2" is answered with "3", "451-" fills
      the placeholder slot with the rest of the text (replacing what was
      there), and every other text frame changes nothing. */
  lemma TextDispatch(s: Session, text: string, p: Pipeline)
    ensures StartsWith(text, "2") ==>
      Step(s, Text(text, None), p) == Stepped(s.(outgoing := s.outgoing + [SendText("3")]), Continue)
    ensures StartsWith(text, "451-") ==>
      Step(s, Text(text, None), p) == Stepped(s.(pending := Some(text[4..])), Continue)
    ensures !StartsWith(text, "2") && !StartsWith(text, "451-") ==>
      Step(s, Text(text, None), p) == Stepped(s, Continue)
  {
    if StartsWith(text, "451-") {
      assert text[..4] == "451-";
      assert text[..1][0] == '4' && text[..2][1] == '5';
    }
  }

  /** A binary frame always empties the slot, and yields a snapshot or a
      logged failure exactly when the slot was filled. */
  lemma BinaryFrame(s: Session, data: seq<Byte>, now: int, p: Pipeline)
    ensures var next := Step(s, Binary(data, now), p);
      && next.control == Continue
      && next.session.pending.None?
      && next.session.outgoing == s.outgoing
      && (s.pending.None? ==> next.session == s)
      && (s.pending.Some? && ProcessDataSpec(data, p, now).Ok? ==>
            next.session.snapshots == s.snapshots + [ProcessDataSpec(data, p, now).value]
            && next.session.failures == s.failures)
      && (s.pending.Some? && ProcessDataSpec(data, p, now).Err? ==>
            next.session.snapshots == s.snapshots
            && next.session.failures == s.failures + [ProcessDataSpec(data, p, now).error])
  {
  }

  /** Once stopped, the loop reads nothing more. */
  lemma StopFramesEndTheLoop(s: Session, rest: seq<Frame>, p: Pipeline)
    ensures Run(s, [Close] + rest, p) == Outcome(s, Ok(()))
    ensures Run(s, [ReadError] + rest, p) == Outcome(s, Ok(()))
  {
  }

  predicate IsPlaceholder(f: Frame) {
    f.Text? && StartsWith(f.text, "451-")
  }

  /** The number of `451-` placeholder frames in a trace. */
  function Placeholders(frames: seq<Frame>): nat {
    if frames == [] then 0 else (if IsPlaceholder(frames[0]) then 1 else 0) + Placeholders(frames[1..])
  }

  /** What a session has taken in: binary frames processed, plus one if a
      placeholder is waiting. */
  function Announced(s: Session): nat {
    |s.snapshots| + |s.failures| + (if s.pending.Some? then 1 else 0)
  }
}
