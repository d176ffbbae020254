/** The earlier, sequential pipeline: one context that both gathers a
    window (dropping only the first `frame_skip` eligible frames of each
    window) and picks the frame of smallest hash distance to the previous
    pick with an explicit loop. */
module Processing {
  import opened Common
  import opened ArgMin
  import opened Request
  import FrameSelection

  datatype ProcessingError =
    | Media(error: MediaError)
      /** A Rust panic: `remove(0)` or `unwrap()` on an empty window. */
    | Panic

  /** The decoded frame of packet p when it reaches the skip check: it is a
      video-stream packet, it decodes, and its frame is a key frame when
      only key frames are wanted. */
  function Reaching(src: Source, keyOnly: bool, p: Packet): (fs: seq<Frame>)
    ensures |fs| <= 1
  {
    if p.streamIndex != src.videoStream then []
    else match src.decode(p)
      case Err(_) => []
      case Ok(f) => if keyOnly && !f.isKey then [] else [f]
  }

  /** The frames of the packets in [lo, hi) that reach the skip check, in
      packet order. */
  function Candidates(src: Source, keyOnly: bool, lo: nat, hi: nat): seq<Frame>
    requires lo <= hi <= |src.packets|
    decreases hi - lo
  {
    if lo == hi then [] else Reaching(src, keyOnly, src.packets[lo]) + Candidates(src, keyOnly, lo + 1, hi)
  }

  /** The loop of `next_window` from `cursor`, with `skip` frames of the
      budget left and `window` gathered so far: the window (or the error)
      and the cursor it leaves. */
  function FillWindow(src: Source, keyOnly: bool, size: nat, cursor: nat, skip: nat, window: seq<Frame>)
    : (r: (Result<seq<Frame>, MediaError>, nat))
    requires cursor <= |src.packets| && |window| <= size
    ensures cursor <= r.1 <= |src.packets|
    ensures r.0.Ok? ==> |window| <= |r.0.value| <= size && r.0.value[..|window|] == window
    ensures r.0.Ok? && |r.0.value| < size ==> r.1 == |src.packets|
    ensures r.0.Err? ==>
      && cursor < r.1
      && src.packets[r.1 - 1].streamIndex == src.videoStream
      && (src.decode(src.packets[r.1 - 1]) == Err(r.0.error) ||
          (src.decode(src.packets[r.1 - 1]).Ok? &&
           src.scale(src.decode(src.packets[r.1 - 1]).value) == Err(r.0.error)))
    decreases |src.packets| - cursor
  {
    if |window| >= size || cursor == |src.packets| then (Ok(window), cursor)
    else
      var p := src.packets[cursor];
      if p.streamIndex != src.videoStream then FillWindow(src, keyOnly, size, cursor + 1, skip, window)
      else match src.decode(p)
        case Err(e) => (Err(e), cursor + 1)
        case Ok(f) =>
          if keyOnly && !f.isKey then FillWindow(src, keyOnly, size, cursor + 1, skip, window)
          else if skip > 0 then FillWindow(src, keyOnly, size, cursor + 1, skip - 1, window)
          else match src.scale(f)
            case Err(e) => (Err(e), cursor + 1)
            case Ok(g) =>
              var rest := FillWindow(src, keyOnly, size, cursor + 1, 0, window + [g]);
              assert rest.0.Ok? ==> rest.0.value[..|window|] == rest.0.value[..|window| + 1][..|window|];
              rest
  }

  /** Scaling the frames `fs` one by one succeeds and gives `out`. */
  ghost predicate ScalesTo(src: Source, fs: seq<Frame>, out: seq<Frame>) {
    |fs| == |out| && forall i :: 0 <= i < |fs| ==> src.scale(fs[i]) == Ok(out[i])
  }

  lemma ScalesToCons(src: Source, f: Frame, fs: seq<Frame>, g: Frame, out: seq<Frame>)
    requires src.scale(f) == Ok(g) && ScalesTo(src, fs, out)
    ensures ScalesTo(src, [f] + fs, [g] + out)
  {
    forall i | 0 < i < |fs| + 1
      ensures src.scale(([f] + fs)[i]) == Ok(([g] + out)[i])
    {
      assert ([f] + fs)[i] == fs[i - 1] && ([g] + out)[i] == out[i - 1];
    }
  }

  /** Of the frames that reach the skip check while the window fills from
      `cursor`, the first `skip` are dropped and every later one is scaled
      and appended to `window`, in order. */
  ghost predicate DropsFirstThenKeeps(
    src: Source, keyOnly: bool, size: nat, cursor: nat, skip: nat, window: seq<Frame>)
    requires cursor <= |src.packets| && |window| <= size
  {
    var (r, next) := FillWindow(src, keyOnly, size, cursor, skip, window);
    var cs := Candidates(src, keyOnly, cursor, next);
    r.Ok? ==> ScalesTo(src, cs[Min(skip, |cs|)..], r.value[|window|..])
  }

  lemma PassStep(src: Source, keyOnly: bool, size: nat, cursor: nat, skip: nat, window: seq<Frame>)
    requires cursor < |src.packets| && |window| < size
    requires Reaching(src, keyOnly, src.packets[cursor]) == []
    requires FillWindow(src, keyOnly, size, cursor, skip, window) ==
      FillWindow(src, keyOnly, size, cursor + 1, skip, window)
    requires DropsFirstThenKeeps(src, keyOnly, size, cursor + 1, skip, window)
    ensures DropsFirstThenKeeps(src, keyOnly, size, cursor, skip, window)
  {
    var next := FillWindow(src, keyOnly, size, cursor, skip, window).1;
    assert Candidates(src, keyOnly, cursor, next) == Candidates(src, keyOnly, cursor + 1, next);
  }

  lemma DropStep(src: Source, keyOnly: bool, size: nat, cursor: nat, skip: nat, window: seq<Frame>, f: Frame)
    requires cursor < |src.packets| && |window| < size && skip > 0
    requires Reaching(src, keyOnly, src.packets[cursor]) == [f]
    requires FillWindow(src, keyOnly, size, cursor, skip, window) ==
      FillWindow(src, keyOnly, size, cursor + 1, skip - 1, window)
    requires DropsFirstThenKeeps(src, keyOnly, size, cursor + 1, skip - 1, window)
    ensures DropsFirstThenKeeps(src, keyOnly, size, cursor, skip, window)
  {
    var next := FillWindow(src, keyOnly, size, cursor, skip, window).1;
    var cs := Candidates(src, keyOnly, cursor, next);
    var cs' := Candidates(src, keyOnly, cursor + 1, next);
    assert cs == [f] + cs';
    assert cs[Min(skip, |cs|)..] == cs'[Min(skip - 1, |cs'|)..];
  }

  lemma KeepStep(src: Source, keyOnly: bool, size: nat, cursor: nat, window: seq<Frame>, f: Frame, g: Frame)
    requires cursor < |src.packets| && |window| < size
    requires Reaching(src, keyOnly, src.packets[cursor]) == [f] && src.scale(f) == Ok(g)
    requires FillWindow(src, keyOnly, size, cursor, 0, window) ==
      FillWindow(src, keyOnly, size, cursor + 1, 0, window + [g])
    requires DropsFirstThenKeeps(src, keyOnly, size, cursor + 1, 0, window + [g])
    ensures DropsFirstThenKeeps(src, keyOnly, size, cursor, 0, window)
  {
    var (r, next) := FillWindow(src, keyOnly, size, cursor, 0, window);
    if r.Ok? {
      var cs := Candidates(src, keyOnly, cursor, next);
      var cs' := Candidates(src, keyOnly, cursor + 1, next);
      var out := r.value[|window| + 1..];
      assert cs == [f] + cs';
      assert Min(0, |cs'|) == 0 && Min(0, |cs|) == 0;
      assert ScalesTo(src, cs', out) by {
        assert cs'[0..] == cs';
      }
      assert r.value[|window|..] == [g] + out by {
        assert r.value[..|window| + 1] == window + [g];
      }
      ScalesToCons(src, f, cs', g, out);
      assert cs[0..] == cs;
    }
  }

  /** The skip budget is spent once per window: of the frames that reach
      the skip check while the window fills, the first `skip` are dropped
      and every later one is scaled and appended, in order. */
  lemma {:induction false} WindowSkipsOnlyItsFirstFrames(
    src: Source, keyOnly: bool, size: nat, cursor: nat, skip: nat, window: seq<Frame>)
    requires cursor <= |src.packets| && |window| <= size
    ensures DropsFirstThenKeeps(src, keyOnly, size, cursor, skip, window)
    decreases |src.packets| - cursor
  {
    if |window| < size && cursor < |src.packets| {
      var p := src.packets[cursor];
      if p.streamIndex != src.videoStream {
        WindowSkipsOnlyItsFirstFrames(src, keyOnly, size, cursor + 1, skip, window);
        PassStep(src, keyOnly, size, cursor, skip, window);
      } else if src.decode(p).Ok? {
        var f := src.decode(p).value;
        if keyOnly && !f.isKey {
          WindowSkipsOnlyItsFirstFrames(src, keyOnly, size, cursor + 1, skip, window);
          PassStep(src, keyOnly, size, cursor, skip, window);
        } else if skip > 0 {
          WindowSkipsOnlyItsFirstFrames(src, keyOnly, size, cursor + 1, skip - 1, window);
          DropStep(src, keyOnly, size, cursor, skip, window, f);
        } else if src.scale(f).Ok? {
          var g := src.scale(f).value;
          WindowSkipsOnlyItsFirstFrames(src, keyOnly, size, cursor + 1, 0, window + [g]);
          KeepStep(src, keyOnly, size, cursor, window, f, g);
        }
      }
    }
  }

  class TimelapseContext<H> {
    const src: Source
    const windowSize: u32
    const frameSkip: u32
    const keyFramesOnly: bool
    /** `hash_frame`: the context's hasher applied to a frame. */
    const hashOf: Frame -> H
    /** `ImageHash::dist`. */
    const dist: (H, H) -> nat
    /** The position of the packet iterator. */
    var cursor: nat
    /** The hash of the frame picked last; None before the first window. */
    var lastHash: Option<H>

    ghost predicate Valid()
      reads this
    {
      cursor <= |src.packets|
    }

    /** Stream discovery and the scaler's set-up are not modelled: the
        source comes with the index of its video stream. */
    constructor (request: Request, source: Source, hasher: Frame -> H, distance: (H, H) -> nat)
      ensures Valid() && cursor == 0 && lastHash == None
      ensures src == source && hashOf == hasher && dist == distance
      ensures windowSize == request.windowSize && frameSkip == request.frameSkip
      ensures keyFramesOnly == request.keyFramesOnly
    {
      src := source;
      windowSize := request.windowSize;
      frameSkip := request.frameSkip;
      keyFramesOnly := request.keyFramesOnly;
      hashOf := hasher;
      dist := distance;
      cursor := 0;
      lastHash := None;
    }

    method NextFrame() returns (r: Result<Frame, ProcessingError>)
      requires Valid()
      modifies this
      ensures Valid()
      ensures cursor == FillWindow(src, keyFramesOnly, windowSize, old(cursor), frameSkip, []).1
      ensures var w := FillWindow(src, keyFramesOnly, windowSize, old(cursor), frameSkip, []).0;
        && (w.Err? ==> r == Err(Media(w.error)) && lastHash == old(lastHash))
        && (w.Ok? && |w.value| == 0 ==> r == Err(Panic) && lastHash == old(lastHash))
        && (w.Ok? && |w.value| > 0 && old(lastHash).None? ==>
              r == Ok(w.value[0]) && lastHash == Some(hashOf(w.value[0])))
        && (w.Ok? && |w.value| > 0 && old(lastHash).Some? ==>
              var k := FrameSelection.HashBestIndex(old(lastHash).value, w.value, hashOf, dist);
              r == Ok(w.value[k]) && lastHash == Some(hashOf(w.value[k])))
    {
      var next := NextWindow();
      if next.Err? {
        return Err(Media(next.error));
      }
      var window := next.value;

      if lastHash.None? {
        if |window| == 0 {
          return Err(Panic);
        }
        var frame := window[0];
        lastHash := Some(hashOf(frame));
        return Ok(frame);
      }

      var reference := lastHash.value;
      ghost var distances := FrameSelection.HashDistances(reference, window, hashOf, dist);
      ghost var best: nat := 0;
      var lastDistance: nat := U32_MAX;
      var lastFrame: Option<Frame> := None;
      var currentHash: Option<H> := None;
      for i := 0 to |window|
        modifies {}
        invariant lastFrame.Some? <==> i > 0
        invariant currentHash.Some? <==> i > 0
        invariant i > 0 ==>
          && best == FirstMinBy(distances[..i], NatLess)
          && lastFrame == Some(window[best])
          && currentHash == Some(hashOf(window[best]))
          && lastDistance == dist(reference, hashOf(window[best]))
      {
        var frame := window[i];
        var hash := hashOf(frame);
        if i > 0 {
          FirstMinByExtend(distances, NatLess, i);
        } else {
          assert |distances[..1]| == 1;
        }
        match lastFrame
        case Some(_) =>
          if dist(reference, hash) < lastDistance {
            lastFrame := Some(frame);
            lastDistance := dist(reference, hash);
            currentHash := Some(hash);
            best := i;
          }
        case None =>
          lastFrame := Some(frame);
          lastDistance := dist(reference, hash);
          currentHash := Some(hash);
          best := i;
      }

      if currentHash.None? {
        // `current_hash.unwrap()` on an empty window
        return Err(Panic);
      }
      assert distances[..|window|] == distances;
      lastHash := Some(currentHash.value);
      // `current_hash` is set together with `last_frame`, so the `None`
      // arm of the final match (end-of-stream) cannot be reached.
      r := Ok(lastFrame.value);
    }

    method NextWindow() returns (r: Result<seq<Frame>, MediaError>)
      requires Valid()
      modifies this`cursor
      ensures Valid()
      ensures (r, cursor) == FillWindow(src, keyFramesOnly, windowSize, old(cursor), frameSkip, [])
    {
      var window: seq<Frame> := [];
      var skipCount: nat := frameSkip;
      while |window| < windowSize
        invariant Valid()
        invariant |window| <= windowSize
        invariant FillWindow(src, keyFramesOnly, windowSize, cursor, skipCount, window) ==
          FillWindow(src, keyFramesOnly, windowSize, old(cursor), frameSkip, [])
        decreases |src.packets| - cursor
      {
        if cursor == |src.packets| {
          break;
        }
        var packet := src.packets[cursor];
        cursor := cursor + 1;
        if packet.streamIndex != src.videoStream {
          continue;
        }
        var decoded := src.decode(packet);
        if decoded.Err? {
          return Err(decoded.error);
        }
        var frame := decoded.value;
        if keyFramesOnly && !frame.isKey {
          continue;
        }
        if skipCount > 0 {
          skipCount := skipCount - 1;
          continue;
        }
        var scaled := src.scale(frame);
        if scaled.Err? {
          return Err(scaled.error);
        }
        window := window + [scaled.value];
      }
      r := Ok(window);
    }
  }
}
