# timelapse-rs frame selection, modelled in Dafny

timelapse-rs condenses a video into a timelapse. It reads the video's
packets, groups the frames it decodes into windows of `window_size`, and
from each window keeps the frame most similar to the frame it kept last.
This project models the logic of that pipeline and proves what it
promises:

- **Run configuration** (`Request`): a builder with fixed defaults whose
  setters overwrite exactly one field in place and return the same object.
- **Selectors** (`FrameSelection`): the MSE selector remembers the luma
  samples of its last pick. The hash selector remembers a perceptual hash.
  The no-op selector keeps no state. Also modelled: the mode-to-selector
  and mode-to-algorithm dispatch, luma extraction (a loop), and the exact
  integer part of the MSE score, with its `i16` saturating square and its
  `u32` saturating sum.
- **Decoder front end** (`Decoder`): `next_frame` is a loop over the packet
  iterator. It filters by stream and by key flag, drops the first
  `frame_skip` eligible packets on every call, skips empty decodes, and
  scales. `next_window` gathers frames until the window is full or the
  stream ends.
- **Earlier sequential pipeline** (`Processing`): the `TimelapseContext`.
  It spends the skip budget once per window and picks the frame of
  smallest hash distance with an explicit strict-`<` loop.

Abstractions:

- The container is a `Source`. It holds the packet sequence, the index of
  the video stream, and the decode and scale calls as functions.
- A perceptual hash is a type parameter. The hasher and the distance
  `ImageHash::dist` are function parameters into the naturals.
- A Rust panic (`Vec::remove(0)` or `Option::unwrap` on an empty window,
  an unsupported mode) is an error value (`Panic`, `Unsupported`). It is
  never a precondition, except the hash selector's mode: the model's
  constructor requires a hash mode, the only kind `get_frame_selector`
  builds it for (see "## Left out").
- Rayon's `min_by` / `min_by_key` reduce to the first minimum, as the
  sequential loop does. The model uses that left fold (`ArgMin.FirstMinBy`).
  Among equal keys, the earliest wins.
- Each stateful entity is a class whose fields its methods update:
  `Request.Request`, `FrameSelection.MseFrameSelector`,
  `FrameSelection.HashFrameSelector`, `Decoder.Decoder` and
  `Processing.TimelapseContext`. The packet iterator's position is the
  `cursor` field. Each loop is proved against a specification function:
  the recursive `Decoder.ScanFrame`, `Decoder.Gather`,
  `Processing.FillWindow` and `ArgMin.FirstMinBy`, and for luma extraction
  the sequence comprehension `FrameSelection.Luma`. The lemmas state their
  properties about those functions.

In this snapshot of the source, `src/request.rs` has no `comparison_mode`
field and its `verbose` is a `bool`. `src/frame_selection.rs` and
`src/decoder.rs` read a `comparison_mode` and compare `verbose` with
integers. The model keeps the `Request` of `src/request.rs` and passes the
comparison mode as a parameter to the members that dispatch on it.

## Model

| member | source | states |
|---|---|---|
| Request.Request.constructor | src/request.rs:13-29 | `new()` is `default()`: both paths empty, window size 25, frame skip 0, key frames only, not verbose |
| Request.Request.SetInputPath | src/request.rs:31-38 | returns the same object; `input_path()` then gives the new path; every other field is unchanged |
| Request.Request.SetOutputPath | src/request.rs:40-47 | returns the same object; `output_path()` then gives the new path; every other field is unchanged |
| Request.Request.SetWindowSize | src/request.rs:49-52 | returns the same object; only `window_size` changes, to the argument |
| Request.Request.SetFrameSkip | src/request.rs:54-57 | returns the same object; only `frame_skip` changes, to the argument |
| Request.Request.SetKeyFramesOnly | src/request.rs:59-62 | returns the same object; only `key_frames_only` changes, to the argument |
| Request.Request.SetVerbose | src/request.rs:64-67 | returns the same object; only `verbose` changes, to the argument |
| FrameSelection.GetFrameSelector | src/frame_selection.rs:17-24 | Noop gives the no-op selector, exactly the three hash modes give the hash selector, MSE gives the MSE selector, and SSIM (the only other mode) is rejected, naming the mode (each an if-and-only-if) |
| FrameSelection.GetHashAlg | src/frame_selection.rs:113-120 | succeeds exactly for the hash modes: Blockhash to Blockhash, GradientHash to DoubleGradient, MeanHash to Mean |
| FrameSelection.HashSelectorHasAlgorithm | src/frame_selection.rs:17-24 | the dispatch picks the hash selector exactly when `get_hash_alg` accepts the mode, and distinct hash modes get distinct algorithms |
| FrameSelection.GetLumaData | src/frame_selection.rs:60-66 | the loop returns `len/3` samples whose i-th is byte `3*i` of the plane |
| FrameSelection.SaturatingSquareI16 | src/frame_selection.rs:70 | the square of an `i16` difference, exact below `i16::MAX` and clamped to it otherwise, never negative |
| FrameSelection.SaturatingAddU32 | src/frame_selection.rs:71 | the sum, exact below `u32::MAX` and clamped to it otherwise, never below either operand |
| FrameSelection.PixelTerm | src/frame_selection.rs:69-70 | one pair's term is at most 32767, and zero exactly when the bytes are equal |
| FrameSelection.PixelTermSymmetric | src/frame_selection.rs:70 | a pair's term does not depend on the order of the two bytes |
| FrameSelection.PixelTerms | src/frame_selection.rs:69 | `zip` pairs as many bytes as the shorter vector has |
| FrameSelection.FoldSaturatingAddIsCappedSum | src/frame_selection.rs:71 | folding with saturating adds equals the exact sum capped once at `u32::MAX` |
| FrameSelection.MseSumIsCappedSum | src/frame_selection.rs:69-71 | the integer part of `mse` is the sum of the per-pair terms capped at `u32::MAX`, and at most 32767 times the number of pairs |
| FrameSelection.MseSumOfSelf | src/frame_selection.rs:69-71 | a vector's sum against itself is 0 |
| FrameSelection.MseSumSymmetricAndZipped | src/frame_selection.rs:69-71 | the sum is symmetric, and bytes beyond the shorter vector's length do not count |
| FrameSelection.MseDistance | src/frame_selection.rs:68-73 | an empty first vector gives NaN (0/0); a non-empty first vector shorter than 2^32 gives a finite score between 0 and 32767 |
| FrameSelection.MseDistanceOfSelf | src/frame_selection.rs:68-73 | a non-empty vector has score exactly 0 against itself |
| FrameSelection.ScoreLessIsWeakOrder | src/frame_selection.rs:47 | without NaN, `partial_cmp(..).unwrap_or(Equal) == Less` is a strict weak order on scores |
| FrameSelection.FirstMinByScores | src/frame_selection.rs:47 | without NaN, the `min_by` fold lands on a score no other score is below, and strictly below every earlier score |
| FrameSelection.MseScores | src/frame_selection.rs:43-46 | one score per candidate: the candidate's luma against the remembered luma |
| FrameSelection.MseBestIndex | src/frame_selection.rs:43-47 | the kept candidate is in the window and no later score is strictly lower; without NaN, no candidate scores lower and every earlier one scores strictly higher |
| FrameSelection.HashDistances | src/frame_selection.rs:137-141 | one distance per candidate: its hash against the remembered hash |
| FrameSelection.HashBestIndex | src/frame_selection.rs:137-142 | the `min_by_key` winner's distance is at most every candidate's and strictly below every earlier candidate's |
| FrameSelection.MseFrameSelector.constructor | src/frame_selection.rs:75-82 | a new MSE selector has no reference yet |
| FrameSelection.MseFrameSelector.PickBest | src/frame_selection.rs:32-57 | unseeded: the first frame, with its luma stored (an empty window panics); seeded: the minimum-score candidate, with its luma stored; an empty seeded window gives `EmptyInput` and keeps the reference |
| FrameSelection.HashFrameSelector.constructor | src/frame_selection.rs:89-96 | a new hash selector has no reference and hashes with the algorithm `get_hash_alg` names for its mode |
| FrameSelection.HashFrameSelector.PickBest | src/frame_selection.rs:122-153 | unseeded: the first frame, with its hash stored (an empty window panics); seeded: the minimum-distance candidate, with its hash stored; an empty seeded window gives `EmptyInput` and keeps the reference |
| FrameSelection.NoopPickBest | src/frame_selection.rs:157-166 | `EmptyInput` exactly on an empty window, otherwise the first frame |
| ArgMin.FirstMinBy | src/frame_selection.rs:47 | the left fold of `min_by` ends on an index in range that no later key is strictly less than |
| ArgMin.FirstMinByIsEarliest | src/processing.rs:84-101 | under a strict weak order, the fold's key is strictly less than every earlier key: among equal keys the first wins |
| ArgMin.FirstMinByExtend | src/processing.rs:87-100 | one more key moves the fold to it exactly when it is strictly less than the current pick: the step of the running-minimum loop |
| ArgMin.FirstMinByNat | src/frame_selection.rs:142 | for natural keys the fold's key is at most every key and strictly below every earlier key |
| Decoder.OutputPixelFormat | src/decoder.rs:132-137 | the format `get_info` reports: RGB24 exactly for the three hash modes, YUV420P for MSE, SSIM and Noop |
| Decoder.PixelFormatFollowsSelector | src/decoder.rs:132-137 | `get_info` reports RGB24 as the decoded pixel format exactly when the dispatch picks the hash selector, that is exactly when `get_hash_alg` accepts the mode |
| Decoder.ScanFrame | src/decoder.rs:90-129 | the scan never moves the cursor back and consumes at least one packet while packets remain |
| Decoder.ScanFrameStopsAtFirstDecoded | src/decoder.rs:93-127 | the scan returns what the first packet past both filters and the skip budget, and decoding to a non-empty frame, gives; when there is none, it consumes every packet and returns end-of-stream |
| Decoder.FrameComesFromAdmittedPacket | src/decoder.rs:96-124 | a returned frame comes from a video-stream packet (a key packet when only key frames are wanted), at least `frame_skip` eligible packets after the call's start, whose non-empty decoded frame scaled to it |
| Decoder.SkipDropsExactly | src/decoder.rs:91-111 | with no empty decodes, a returned frame comes from the (`frame_skip`+1)-th eligible packet after the call's start |
| Decoder.Gather | src/decoder.rs:72-88 | an `Ok` window holds between 1 and `window_size` frames and extends the frames gathered so far; `Eof` only comes back for an empty window |
| Decoder.GatherStopsEarlyOnlyAtEof | src/decoder.rs:75-87 | a short window, or `Eof` from a positive window size, only happens when the scan hit end-of-stream |
| Decoder.GatherErrorComesFromLastPacket | src/decoder.rs:79 | any other error drops the partial window and is what decoding or scaling the last consumed packet gave |
| Decoder.Decoder.constructor | src/decoder.rs:23-58 | a new decoder starts at the first packet with the request's window size, skip and key-frame setting |
| Decoder.Decoder.NextFrame | src/decoder.rs:90-129 | the loop returns the result and leaves the iterator where the scan specification does, with the skip budget reset to `frame_skip` |
| Decoder.Decoder.NextWindow | src/decoder.rs:72-88 | the loop returns the window of the gathering specification, with at most `window_size` frames, and leaves the iterator where it does |
| Processing.Reaching | src/processing.rs:120-128 | a packet reaches the skip check with at most one frame: a video-stream packet that decodes, key when only key frames are wanted |
| Processing.FillWindow | src/processing.rs:113-145 | the window has at most `window_size` frames; it is short only when packets ran out (then still `Ok`, even empty); an error is the decode or scale error of the last video packet consumed |
| Processing.WindowSkipsOnlyItsFirstFrames | src/processing.rs:115-138 | of the frames reaching the skip check while a window fills, the first `frame_skip` are dropped and every later one is scaled and appended, in order |
| Processing.TimelapseContext.constructor | src/processing.rs:36-66 | a new context starts at the first packet with no reference hash |
| Processing.TimelapseContext.NextWindow | src/processing.rs:113-145 | the loop, with the skip counter set once per window, returns the window of the filling specification and leaves the iterator where it does |
| Processing.TimelapseContext.NextFrame | src/processing.rs:68-111 | a window error is passed through; an empty window panics; unseeded: the first frame and its hash; seeded: the loop's strict `<` keeps the earliest minimum-distance frame, whose hash becomes the reference |

## Left out

- `src/encoder.rs` and `src/main.rs`: output muxing and process set-up, foreign calls with no logic of their own.
- Stream discovery and scaler set-up in `Decoder::new` and `TimelapseContext::new`, and `Decoder::get_info`: the source comes with the index of its video stream and with decode and scale as functions.
- Decoding and scaling themselves: decode is a function of the packet alone, so the decoder's internal state (buffered reference frames) is not modelled.
- `hash_frame` and `ImageHash::dist`: the hash is an opaque type, and the hasher and distance are parameters; nothing is stated about the hash algorithms.
- FrameSelection.MseDistance: the `f64` division is modelled on exact reals, so rounding is not captured; NaN and infinity are kept as score values.
- FrameSelection.MseBestIndex and FrameSelection.HashBestIndex: rayon's parallel reduction is modelled as the sequential first-minimum fold; a parallel reduction tree may break ties differently.
- All `verbose` logging, and the unused `frame_n` counter of the sequential pipeline.
- FrameSelection.HashFrameSelector.constructor: requires a hash mode; the source constructs the selector for any mode but only `get_frame_selector` builds it, and only for the hash modes.
- The comparison mode is a parameter, not a `Request` field, because this snapshot of `src/request.rs` does not have that field.
- Processing.TimelapseContext.NextFrame: `ImageHash::dist` returns a `u32` and the loop starts from `u32::MAX`; distances are unbounded naturals here, which makes no difference because the first candidate is always taken.
- `Decoder::new` always scales to RGB24, while `output_pixel_format` reports YUV420P for MSE; `get_luma_data` therefore reads the red channel of packed RGB. The model follows the code and treats this as the luma the selector stores.
