/** The decoder front end: it walks the container's packets, keeps those of
    the video stream (only key packets when asked to), drops the first
    `frame_skip` of them on every call, decodes and scales the next one, and
    gathers windows of such frames for the selectors. */
module Decoder {
  import opened Common
  import opened Request
  import opened FrameSelection

  datatype Pixel = RGB24 | YUV420P

  /** The pixel format `get_info` reports as decoded for a comparison
      mode. The scaler itself always produces RGB24, whatever the mode. */
  function OutputPixelFormat(mode: ComparisonMode): (p: Pixel)
    ensures p == RGB24 <==> mode.IsHash()
  {
    match mode
    case Blockhash | GradientHash | MeanHash => RGB24
    case MSE | SSIM | Noop => YUV420P
  }

  /** `get_info` reports RGB24 as the decoded pixel format exactly when the
      dispatch picks the hash selector, that is exactly when `get_hash_alg`
      accepts the mode. */
  lemma PixelFormatFollowsSelector(mode: ComparisonMode)
    ensures OutputPixelFormat(mode) == RGB24 <==> GetFrameSelector(mode) == Ok(HashSelector)
    ensures OutputPixelFormat(mode) == RGB24 <==> GetHashAlg(mode).Ok?
  {
  }

  /** A packet passes the two filters: it belongs to the video stream and,
      when only key frames are wanted, carries the key flag. */
  predicate Eligible(src: Source, keyOnly: bool, p: Packet) {
    p.streamIndex == src.videoStream && (!keyOnly || p.isKey)
  }

  /** Decoding a packet that passed the filters and the skip budget: None
      when the decoder hands back an empty frame (the scan goes on),
      otherwise the scaled frame or the error of decode or scale. */
  function DecodeAndScale(src: Source, p: Packet): Option<Result<Frame, MediaError>> {
    match src.decode(p)
    case Err(e) => Some(Err(e))
    case Ok(f) => if f.isEmpty then None else Some(src.scale(f))
  }

  /** How many packets in [lo, hi) pass the filters. */
  function CountEligible(src: Source, keyOnly: bool, lo: nat, hi: nat): nat
    requires lo <= hi <= |src.packets|
    decreases hi - lo
  {
    if lo == hi then 0
    else (if Eligible(src, keyOnly, src.packets[lo]) then 1 else 0) + CountEligible(src, keyOnly, lo + 1, hi)
  }

  /** Packet j passes the filters and lies beyond the first `skip` such
      packets counted from `start`. */
  predicate Admitted(src: Source, keyOnly: bool, start: nat, skip: nat, j: nat)
    requires start <= j < |src.packets|
  {
    Eligible(src, keyOnly, src.packets[j]) && CountEligible(src, keyOnly, start, j) >= skip
  }

  /** The scan `next_frame` performs from `cursor` with skip budget `skip`:
      its result and the cursor after the last packet it consumed. */
  function ScanFrame(src: Source, keyOnly: bool, cursor: nat, skip: nat): (r: (Result<Frame, MediaError>, nat))
    requires cursor <= |src.packets|
    ensures cursor <= r.1 <= |src.packets|
    ensures cursor < |src.packets| ==> cursor < r.1
    decreases |src.packets| - cursor
  {
    if cursor == |src.packets| then (Err(Eof), cursor)
    else if !Eligible(src, keyOnly, src.packets[cursor]) then ScanFrame(src, keyOnly, cursor + 1, skip)
    else if skip > 0 then ScanFrame(src, keyOnly, cursor + 1, skip - 1)
    else match DecodeAndScale(src, src.packets[cursor])
      case None => ScanFrame(src, keyOnly, cursor + 1, 0)
      case Some(res) => (res, cursor + 1)
  }

  /** The scan stops at the first admitted packet that decodes to something
      other than an empty frame, and returns what that packet gives; when
      there is none, it consumes every packet and returns end-of-stream. */
  lemma {:induction false} ScanFrameStopsAtFirstDecoded(src: Source, keyOnly: bool, cursor: nat, skip: nat)
    requires cursor <= |src.packets|
    ensures var (r, next) := ScanFrame(src, keyOnly, cursor, skip);
      && (forall j ::
            (cursor <= j < next && Admitted(src, keyOnly, cursor, skip, j) && DecodeAndScale(src, src.packets[j]).Some?)
            ==> j == next - 1)
      && ((next == |src.packets| && r == Err(Eof)) ||
          (cursor < next && Admitted(src, keyOnly, cursor, skip, next - 1) &&
           DecodeAndScale(src, src.packets[next - 1]) == Some(r)))
    decreases |src.packets| - cursor
  {
    var ps := src.packets;
    if cursor < |ps| {
      var p := ps[cursor];
      forall j | cursor < j < |ps|
        ensures CountEligible(src, keyOnly, cursor, j) ==
          (if Eligible(src, keyOnly, p) then 1 else 0) + CountEligible(src, keyOnly, cursor + 1, j)
      {
      }
      if !Eligible(src, keyOnly, p) {
        ScanFrameStopsAtFirstDecoded(src, keyOnly, cursor + 1, skip);
      } else if skip > 0 {
        ScanFrameStopsAtFirstDecoded(src, keyOnly, cursor + 1, skip - 1);
      } else if DecodeAndScale(src, p).None? {
        ScanFrameStopsAtFirstDecoded(src, keyOnly, cursor + 1, 0);
      }
    }
  }

  /** A frame `next_frame` returns comes from a packet of the video stream,
      a key packet when only key frames are wanted, at least `skip` such
      packets after the starting cursor, that decoded to a non-empty frame
      which scaled to the returned one. */
  lemma FrameComesFromAdmittedPacket(src: Source, keyOnly: bool, cursor: nat, skip: nat)
    requires cursor <= |src.packets|
    ensures var (r, next) := ScanFrame(src, keyOnly, cursor, skip);
      r.Ok? ==>
        && cursor < next
        && src.packets[next - 1].streamIndex == src.videoStream
        && (keyOnly ==> src.packets[next - 1].isKey)
        && CountEligible(src, keyOnly, cursor, next - 1) >= skip
        && src.decode(src.packets[next - 1]).Ok?
        && !src.decode(src.packets[next - 1]).value.isEmpty
        && src.scale(src.decode(src.packets[next - 1]).value) == r
  {
    ScanFrameStopsAtFirstDecoded(src, keyOnly, cursor, skip);
  }

  /** When the decoder never hands back an empty frame, the budget drops
      exactly `skip` eligible packets: the frame returned comes from the
      (skip+1)-th eligible packet after the cursor, so a budget of 2 admits
      every third eligible packet. */
  lemma {:induction false} SkipDropsExactly(src: Source, keyOnly: bool, cursor: nat, skip: nat)
    requires cursor <= |src.packets|
    requires forall j :: cursor <= j < |src.packets| && Eligible(src, keyOnly, src.packets[j]) ==>
      DecodeAndScale(src, src.packets[j]).Some?
    ensures var (r, next) := ScanFrame(src, keyOnly, cursor, skip);
      r.Ok? ==> cursor < next && CountEligible(src, keyOnly, cursor, next - 1) == skip
    decreases |src.packets| - cursor
  {
    var ps := src.packets;
    if cursor < |ps| {
      var p := ps[cursor];
      if !Eligible(src, keyOnly, p) {
        SkipDropsExactly(src, keyOnly, cursor + 1, skip);
      } else if skip > 0 {
        SkipDropsExactly(src, keyOnly, cursor + 1, skip - 1);
      }
    }
  }

  /** The loop of `next_window`, from `cursor` with `window` gathered so
      far: the window (or the error) and the cursor it leaves. */
  function Gather(src: Source, keyOnly: bool, skip: nat, size: nat, cursor: nat, window: seq<Frame>)
    : (r: (Result<seq<Frame>, MediaError>, nat))
    requires cursor <= |src.packets| && |window| <= size
    ensures cursor <= r.1 <= |src.packets|
    ensures r.0.Ok? ==> 0 < |r.0.value| <= size && |window| <= |r.0.value| && r.0.value[..|window|] == window
    ensures r.0 == Err(Eof) ==> window == []
    decreases size - |window|
  {
    if |window| >= size then (if |window| == 0 then Err(Eof) else Ok(window), cursor)
    else
      var (next, c) := ScanFrame(src, keyOnly, cursor, skip);
      match next
      case Ok(frame) =>
        var rest := Gather(src, keyOnly, skip, size, c, window + [frame]);
        assert rest.0.Ok? ==> rest.0.value[..|window|] == rest.0.value[..|window| + 1][..|window|];
        rest
      case Err(Eof) => (if |window| == 0 then Err(Eof) else Ok(window), c)
      case Err(e) => (Err(e), c)
  }

  /** The packets ran out, or the last packet decoded or scaled to
      end-of-stream. */
  predicate EndedAt(src: Source, cursor: nat)
    requires cursor <= |src.packets|
  {
    cursor == |src.packets| || (0 < cursor && DecodeAndScale(src, src.packets[cursor - 1]) == Some(Err(Eof)))
  }

  /** A window shorter than `window_size`, or end-of-stream from a
      non-zero window size, only happens when the scan hit end-of-stream. */
  lemma {:induction false} GatherStopsEarlyOnlyAtEof(src: Source, keyOnly: bool, skip: nat, size: nat, cursor: nat, window: seq<Frame>)
    requires cursor <= |src.packets| && |window| <= size
    ensures var (r, next) := Gather(src, keyOnly, skip, size, cursor, window);
      (r.Ok? && |r.value| < size) || (r == Err(Eof) && size > 0) ==> EndedAt(src, next)
    decreases size - |window|
  {
    if |window| < size {
      var (next, c) := ScanFrame(src, keyOnly, cursor, skip);
      ScanFrameStopsAtFirstDecoded(src, keyOnly, cursor, skip);
      if next.Ok? {
        GatherStopsEarlyOnlyAtEof(src, keyOnly, skip, size, c, window + [next.value]);
      }
    }
  }

  /** Any other error ends the window at once, partial frames dropped: it
      is what decoding or scaling the last packet consumed gave. */
  lemma {:induction false} GatherErrorComesFromLastPacket(src: Source, keyOnly: bool, skip: nat, size: nat, cursor: nat, window: seq<Frame>)
    requires cursor <= |src.packets| && |window| <= size
    ensures var (r, next) := Gather(src, keyOnly, skip, size, cursor, window);
      r.Err? && r.error != Eof ==> cursor < next && DecodeAndScale(src, src.packets[next - 1]) == Some(Err(r.error))
    decreases size - |window|
  {
    if |window| < size {
      var (next, c) := ScanFrame(src, keyOnly, cursor, skip);
      ScanFrameStopsAtFirstDecoded(src, keyOnly, cursor, skip);
      if next.Ok? {
        GatherErrorComesFromLastPacket(src, keyOnly, skip, size, c, window + [next.value]);
      }
    }
  }

  class Decoder {
    const src: Source
    const windowSize: u32
    const frameSkip: u32
    const keyFramesOnly: bool
    /** The position of the packet iterator. */
    var cursor: nat

    ghost predicate Valid()
      reads this
    {
      cursor <= |src.packets|
    }

    /** Stream discovery is not modelled: the source comes with the index
        of its video stream. */
    constructor (request: Request, source: Source)
      ensures Valid() && cursor == 0
      ensures src == source
      ensures windowSize == request.windowSize && frameSkip == request.frameSkip
      ensures keyFramesOnly == request.keyFramesOnly
    {
      src := source;
      windowSize := request.windowSize;
      frameSkip := request.frameSkip;
      keyFramesOnly := request.keyFramesOnly;
      cursor := 0;
    }

    method NextWindow() returns (r: Result<seq<Frame>, MediaError>)
      requires Valid()
      modifies this`cursor
      ensures Valid()
      ensures (r, cursor) == Gather(src, keyFramesOnly, frameSkip, windowSize, old(cursor), [])
      ensures r.Ok? ==> 0 < |r.value| <= windowSize
    {
      var window: seq<Frame> := [];
      while |window| < windowSize
        invariant Valid()
        invariant |window| <= windowSize
        invariant Gather(src, keyFramesOnly, frameSkip, windowSize, cursor, window) ==
          Gather(src, keyFramesOnly, frameSkip, windowSize, old(cursor), [])
        decreases windowSize - |window|
      {
        var next := NextFrame();
        match next
        case Ok(frame) =>
          window := window + [frame];
        case Err(Eof) =>
          break;
        case Err(e) =>
          return Err(e);
      }
      if |window| == 0 {
        r := Err(Eof);
      } else {
        r := Ok(window);
      }
    }

    method NextFrame() returns (r: Result<Frame, MediaError>)
      requires Valid()
      modifies this`cursor
      ensures Valid()
      ensures (r, cursor) == ScanFrame(src, keyFramesOnly, old(cursor), frameSkip)
    {
      var skipCount: nat := frameSkip;
      while true
        invariant Valid()
        invariant ScanFrame(src, keyFramesOnly, cursor, skipCount) ==
          ScanFrame(src, keyFramesOnly, old(cursor), frameSkip)
        decreases |src.packets| - cursor
      {
        if cursor == |src.packets| {
          return Err(Eof);
        }
        var packet := src.packets[cursor];
        cursor := cursor + 1;
        if packet.streamIndex != src.videoStream {
          continue;
        }
        if keyFramesOnly && !packet.isKey {
          continue;
        }
        if skipCount > 0 {
          skipCount := skipCount - 1;
          continue;
        }
        var decoded := src.decode(packet);
        if decoded.Err? {
          return Err(decoded.error);
        }
        var frame := decoded.value;
        if frame.isEmpty {
          continue;
        }
        var scaled := src.scale(frame);
        if scaled.Err? {
          return Err(scaled.error);
        }
        return Ok(scaled.value);
      }
    }
  }
}
