/** Detection of compressed Socket.IO payloads (src/input/decompressor.rs).
    The zlib codec itself is not modelled: it is the `inflate` parameter, an
    arbitrary function from a compressed stream to its contents or to the
    codec's error message. */
module Decompressor {
  import opened Wrappers
  import opened Errors

  type Byte = b: int | 0 <= b < 256

  /** The three cases the byte prefix distinguishes. */
  datatype Format =
    | SocketIoZlib  // Engine.IO message byte 0x04 in front of a zlib stream
    | Zlib          // a bare zlib stream
    | Plain         // anything else, passed through

  const MessagePacket: Byte := 0x04
  const ZlibCmf: Byte := 0x78

  /** The FLG bytes accepted after CMF 0x78. */
  predicate AcceptedFlg(b: Byte) {
    b == 0x9C || b == 0xDA || b == 0x01
  }

  /** The prefix classification of `decompress`. Reads `data[1]` only when
      there are at least two bytes. */
  function Detect(data: seq<Byte>): (f: Format)
    ensures f == SocketIoZlib <==> |data| >= 2 && data[0] == MessagePacket && data[1] == ZlibCmf
    ensures f == Zlib <==> |data| >= 2 && data[0] == ZlibCmf && AcceptedFlg(data[1])
    ensures |data| < 2 ==> f == Plain
  {
    if |data| >= 2 && data[0] == MessagePacket && data[1] == ZlibCmf then SocketIoZlib
    else if |data| >= 2 && data[0] == ZlibCmf && AcceptedFlg(data[1]) then Zlib
    else Plain
  }

  /** The bytes handed to the codec for a compressed format. */
  function Stream(data: seq<Byte>, f: Format): seq<Byte>
    requires f == Detect(data) && f != Plain
  {
    if f == SocketIoZlib then data[1..] else data
  }

  /** `decompress_zlib`: a codec failure becomes a Decompression error. */
  function DecompressZlib(stream: seq<Byte>, inflate: seq<Byte> -> Result<seq<Byte>, string>)
    : (r: Result<seq<Byte>, VitalError>)
    ensures inflate(stream).Ok? ==> r == Ok(inflate(stream).value)
    ensures inflate(stream).Err? ==>
      r == Err(Decompression("Zlib decompression failed: " + inflate(stream).error))
  {
    match inflate(stream)
    case Ok(out) => Ok(out)
    case Err(e) => Err(Decompression("Zlib decompression failed: " + e))
  }

  /** `decompress`. */
  function Decompress(data: seq<Byte>, inflate: seq<Byte> -> Result<seq<Byte>, string>)
    : (r: Result<seq<Byte>, VitalError>)
    ensures Detect(data) == Plain ==> r == Ok(data)
    ensures Detect(data) == SocketIoZlib ==> r == DecompressZlib(data[1..], inflate)
    ensures Detect(data) == Zlib ==> r == DecompressZlib(data, inflate)
    ensures r.Err? ==> r.error.Decompression?
  {
    if |data| == 0 then Ok(data)
    else if |data| >= 2 && data[0] == MessagePacket && data[1] == ZlibCmf then
      DecompressZlib(data[1..], inflate)
    else if data[0] == ZlibCmf && |data| >= 2 && AcceptedFlg(data[1]) then
      DecompressZlib(data, inflate)
    else Ok(data)
  }

  /** Empty input is returned as empty output, without touching the codec. */
  lemma EmptyPassesThrough(inflate: seq<Byte> -> Result<seq<Byte>, string>)
    ensures Decompress([], inflate) == Ok([])
  {
  }

  /** An input starting 0x04 0x78 is inflated from index 1: exactly the
      leading byte is dropped. */
  lemma SocketIoDropsOnlyLeadingByte(data: seq<Byte>, inflate: seq<Byte> -> Result<seq<Byte>, string>)
    requires |data| >= 2 && data[0] == 0x04 && data[1] == 0x78
    ensures Decompress(data, inflate) == DecompressZlib(data[1..], inflate)
    ensures [data[0]] + Stream(data, Detect(data)) == data
  {
  }

  /** A bare zlib stream with an accepted FLG is inflated whole. */
  lemma ZlibInflatedWhole(data: seq<Byte>, inflate: seq<Byte> -> Result<seq<Byte>, string>)
    requires |data| >= 2 && data[0] == 0x78 && AcceptedFlg(data[1])
    ensures Decompress(data, inflate) == DecompressZlib(data, inflate)
    ensures Stream(data, Detect(data)) == data
  {
  }

  /** Everything that does not start with one of the recognised prefixes
      comes back byte for byte, whatever the codec would have said. */
  lemma OthersPassThrough(data: seq<Byte>, inflate: seq<Byte> -> Result<seq<Byte>, string>)
    requires !(|data| >= 2 && data[0] == 0x04 && data[1] == 0x78)
    requires !(|data| >= 2 && data[0] == 0x78 && AcceptedFlg(data[1]))
    ensures Decompress(data, inflate) == Ok(data)
  {
  }

  /** A lone 0x04 or 0x78 is plain data. */
  lemma LoneMarkerBytesArePlain(inflate: seq<Byte> -> Result<seq<Byte>, string>)
    ensures Decompress([0x04], inflate) == Ok([0x04])
    ensures Decompress([0x78], inflate) == Ok([0x78])
  {
  }

  /** The check of section 2.2 of RFC 1950: CMF*256 + FLG is a multiple of 31. */
  predicate ValidZlibHeader(cmf: Byte, flg: Byte) {
    (cmf * 256 + flg) % 31 == 0
  }

  /** Every accepted header pair is a valid RFC 1950 header announcing the
      deflate method (CM = 8) with a 32 KiB window (CINFO = 7). */
  lemma AcceptedHeadersAreValid(flg: Byte)
    requires AcceptedFlg(flg)
    ensures ValidZlibHeader(ZlibCmf, flg)
    ensures ZlibCmf % 16 == 8 && ZlibCmf / 16 == 7
    ensures (flg / 32) % 2 == 0  // FDICT clear: no preset dictionary
  {
  }

  /** 0x78 0x5E (the header zlib writes at its fastest levels) is a valid
      RFC 1950 header but is not recognised: it is passed through unchanged. */
  lemma FastestLevelHeaderIsPassedThrough(rest: seq<Byte>, inflate: seq<Byte> -> Result<seq<Byte>, string>)
    ensures ValidZlibHeader(0x78, 0x5E)
    ensures Decompress([0x78, 0x5E] + rest, inflate) == Ok([0x78, 0x5E] + rest)
  {
  }

  /** A codec failure is reported as a Decompression error: the input is never
      passed through and no partial output is returned. */
  lemma InflateFailureIsAnError(data: seq<Byte>, inflate: seq<Byte> -> Result<seq<Byte>, string>)
    requires Detect(data) != Plain
    ensures inflate(Stream(data, Detect(data))).Err? <==> Decompress(data, inflate).Err?
    ensures inflate(Stream(data, Detect(data))).Ok? ==>
      Decompress(data, inflate) == Ok(inflate(Stream(data, Detect(data))).value)
  {
  }
}
