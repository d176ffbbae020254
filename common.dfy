/** Types shared by the decoder, the frame selectors and the sequential
    pipeline: the Result/Option wrappers that stand in for Rust's, the
    fixed-width integers the source uses, and the abstract view of the
    media library (packets, decoded frames, and the decode/scale calls). */
module Common {

  datatype Option<+T> = None | Some(value: T)

  datatype Result<+T, +E> = Ok(value: T) | Err(error: E)

  /** Rust's `u8`. */
  type u8 = x: int | 0 <= x < 0x100

  /** Rust's `u32`. */
  type u32 = x: int | 0 <= x < 0x1_0000_0000

  const U32_MAX: int := 0xFFFF_FFFF
  const I16_MAX: int := 0x7FFF

  function Min(a: int, b: int): int {
    if a <= b then a else b
  }

  /** The errors of the media library. Only end-of-stream is told apart by
      the pipeline; every other kind is an opaque code. */
  datatype MediaError = Eof | Other(code: int)

  /** A demultiplexed packet: the index of the stream it belongs to, the
      packet's key flag, and its payload. */
  datatype Packet = Packet(streamIndex: nat, isKey: bool, payload: seq<u8>)

  /** A raw video frame: its first data plane, whether the decoder marked it
      as a key frame, and whether it holds no picture at all. */
  datatype Frame = Frame(data: seq<u8>, isKey: bool, isEmpty: bool)

  /** The input side of the media library as the pipeline sees it: the
      packets of the container in order, the index of the best video stream,
      and the decode and scale calls, abstracted as functions. */
  datatype Source = Source(
    packets: seq<Packet>,
    videoStream: nat,
    decode: Packet -> Result<Frame, MediaError>,
    scale: Frame -> Result<Frame, MediaError>)
}
