/** The window selectors: given the frames of one window, each picks the
    frame most similar to the one it picked last time and remembers a
    summary of it. The MSE selector's summary is the luma samples of the
    frame; the hash selector's is a perceptual hash, whose algorithm and
    distance are parameters of the model; the no-op selector keeps nothing. */
module FrameSelection {
  import opened Common
  import opened ArgMin
  import opened Request

  datatype SelectionError =
    | EmptyInput
      /** A Rust panic: `Vec::remove(0)` on an empty window. */
    | Panic

  /** The three selector implementations `get_frame_selector` can box. */
  datatype SelectorKind = NoopSelector | HashSelector | MseSelector

  /** A mode no selector implements (the source panics on it). */
  datatype Unsupported = Unsupported(mode: ComparisonMode)

  /** The hash algorithms of the hashing library. */
  datatype HashAlg = Mean | Gradient | VertGradient | DoubleGradient | Blockhash

  // ---------------------------------------------------------------------
  // Dispatch

  function GetFrameSelector(mode: ComparisonMode): (r: Result<SelectorKind, Unsupported>)
    ensures r == Ok(NoopSelector) <==> mode == Noop
    ensures r == Ok(HashSelector) <==> mode.IsHash()
    ensures r == Ok(MseSelector) <==> mode == MSE
    ensures r.Err? <==> mode == SSIM
    ensures r.Err? ==> r.error.mode == mode
  {
    match mode
    case Noop => Ok(NoopSelector)
    case Blockhash | GradientHash | MeanHash => Ok(HashSelector)
    case MSE => Ok(MseSelector)
    case _ => Err(Unsupported(mode))
  }

  function GetHashAlg(mode: ComparisonMode): (r: Result<HashAlg, Unsupported>)
    ensures r.Ok? <==> mode.IsHash()
    ensures mode == ComparisonMode.Blockhash ==> r == Ok(HashAlg.Blockhash)
    ensures mode == GradientHash ==> r == Ok(DoubleGradient)
    ensures mode == MeanHash ==> r == Ok(Mean)
  {
    match mode
    case Blockhash => Ok(HashAlg.Blockhash)
    case GradientHash => Ok(DoubleGradient)
    case MeanHash => Ok(Mean)
    case _ => Err(Unsupported(mode))
  }

  /** The hash selector is chosen exactly for the modes that name a hash
      algorithm, and distinct hash modes hash with distinct algorithms. */
  lemma HashSelectorHasAlgorithm(mode: ComparisonMode, other: ComparisonMode)
    ensures GetFrameSelector(mode) == Ok(HashSelector) <==> GetHashAlg(mode).Ok?
    ensures GetHashAlg(mode).Ok? && GetHashAlg(other) == GetHashAlg(mode) ==> other == mode
  {
  }

  // ---------------------------------------------------------------------
  // Luma extraction and the MSE score

  /** Every third byte of a packed three-channel plane: the first sample
      of each pixel. */
  function Luma(data: seq<u8>): seq<u8> {
    seq(|data| / 3, i requires 0 <= i < |data| / 3 => data[3 * i])
  }

  method GetLumaData(frame: Frame) returns (luma: seq<u8>)
    ensures |luma| == |frame.data| / 3
    ensures forall i :: 0 <= i < |luma| ==> luma[i] == frame.data[3 * i]
    ensures luma == Luma(frame.data)
  {
    luma := [];
    for i := 0 to |frame.data| / 3
      invariant |luma| == i
      invariant forall j :: 0 <= j < i ==> luma[j] == frame.data[3 * j]
    {
      luma := luma + [frame.data[i * 3]];
    }
  }

  /** `i16::saturating_pow(d, 2)`: the square, clamped at `i16::MAX`. */
  function SaturatingSquareI16(d: int): (s: int)
    requires -0x8000 <= d <= 0x7FFF
    ensures 0 <= s <= I16_MAX && s <= d * d
    ensures s < I16_MAX ==> s == d * d
  {
    if d * d > I16_MAX then I16_MAX else d * d
  }

  /** `u32::saturating_add`. */
  function SaturatingAddU32(a: u32, b: u32): (s: u32)
    ensures a <= s && b <= s && s <= a + b
    ensures s < U32_MAX ==> s == a + b
  {
    if a + b > U32_MAX then U32_MAX else a + b
  }

  /** The score of one pixel pair: the byte difference as `i16`, squared
      with saturation, then widened through `u16` to `u32`. */
  function PixelTerm(a: u8, b: u8): (t: u32)
    ensures t <= I16_MAX
    ensures t == 0 <==> a == b
  {
    SaturatingSquareI16(a - b)
  }

  lemma PixelTermSymmetric(a: u8, b: u8)
    ensures PixelTerm(a, b) == PixelTerm(b, a)
  {
    assert (a - b) * (a - b) == (b - a) * (b - a);
  }

  /** The zipped pairs' terms: the pairs beyond the shorter vector are
      dropped, as `Iterator::zip` drops them. */
  function PixelTerms(vec1: seq<u8>, vec2: seq<u8>): (ts: seq<u32>)
    ensures |ts| == Min(|vec1|, |vec2|)
  {
    seq(Min(|vec1|, |vec2|), i requires 0 <= i < Min(|vec1|, |vec2|) => PixelTerm(vec1[i], vec2[i]))
  }

  /** `fold(acc, u32::saturating_add)`. */
  function FoldSaturatingAdd(acc: u32, ts: seq<u32>): u32
    decreases |ts|
  {
    if ts == [] then acc else FoldSaturatingAdd(SaturatingAddU32(acc, ts[0]), ts[1..])
  }

  /** The mathematical sum of the terms. */
  function Sum(ts: seq<u32>): nat {
    if ts == [] then 0 else ts[0] + Sum(ts[1..])
  }

  /** The integer part of `mse`: the saturating sum of the pair terms. */
  function MseSum(vec1: seq<u8>, vec2: seq<u8>): u32 {
    FoldSaturatingAdd(0, PixelTerms(vec1, vec2))
  }

  /** Saturating at every step is the same as saturating once at the end,
      because every term is non-negative. */
  lemma {:induction false} FoldSaturatingAddIsCappedSum(acc: u32, ts: seq<u32>)
    ensures FoldSaturatingAdd(acc, ts) == Min(acc + Sum(ts), U32_MAX)
    decreases |ts|
  {
    if ts != [] {
      FoldSaturatingAddIsCappedSum(SaturatingAddU32(acc, ts[0]), ts[1..]);
    }
  }

  lemma {:induction false} SumBound(ts: seq<u32>, cap: nat)
    requires forall i :: 0 <= i < |ts| ==> ts[i] <= cap
    ensures Sum(ts) <= cap * |ts|
  {
    if ts != [] {
      SumBound(ts[1..], cap);
    }
  }

  lemma {:induction false} SumOfZeros(ts: seq<u32>)
    requires forall i :: 0 <= i < |ts| ==> ts[i] == 0
    ensures Sum(ts) == 0
  {
    if ts != [] {
      SumOfZeros(ts[1..]);
    }
  }

  /** The MSE sum is the sum of the per-pair terms, each capped at
      `i16::MAX`, the whole capped at `u32::MAX`; it never exceeds
      `i16::MAX` times the number of pairs. */
  lemma MseSumIsCappedSum(vec1: seq<u8>, vec2: seq<u8>)
    ensures MseSum(vec1, vec2) == Min(Sum(PixelTerms(vec1, vec2)), U32_MAX)
    ensures MseSum(vec1, vec2) <= I16_MAX * Min(|vec1|, |vec2|)
  {
    var ts := PixelTerms(vec1, vec2);
    FoldSaturatingAddIsCappedSum(0, ts);
    SumBound(ts, I16_MAX);
  }

  lemma MseSumOfSelf(v: seq<u8>)
    ensures MseSum(v, v) == 0
  {
    SumOfZeros(PixelTerms(v, v));
    FoldSaturatingAddIsCappedSum(0, PixelTerms(v, v));
  }

  /** Swapping the vectors does not change the sum, and bytes of the longer
      vector beyond the shorter one's length do not count. */
  lemma MseSumSymmetricAndZipped(vec1: seq<u8>, vec2: seq<u8>)
    ensures MseSum(vec1, vec2) == MseSum(vec2, vec1)
    ensures MseSum(vec1, vec2) == MseSum(vec1[..Min(|vec1|, |vec2|)], vec2[..Min(|vec1|, |vec2|)])
  {
    var n := Min(|vec1|, |vec2|);
    forall i | 0 <= i < n
      ensures PixelTerms(vec1, vec2)[i] == PixelTerms(vec2, vec1)[i]
    {
      PixelTermSymmetric(vec1[i], vec2[i]);
    }
    assert PixelTerms(vec1, vec2) == PixelTerms(vec2, vec1);
    assert PixelTerms(vec1, vec2) == PixelTerms(vec1[..n], vec2[..n]);
  }

  /** A floating-point score, exact except for rounding: a finite value,
      positive infinity (a positive sum over a zero divisor) or NaN (zero
      over zero). */
  datatype Score = Finite(value: real) | Infinite | NotANumber

  /** `mse(vec1, vec2)`: the sum divided by `vec1.len() as u32`, a cast that
      keeps the length modulo 2^32. */
  function MseDistance(vec1: seq<u8>, vec2: seq<u8>): (d: Score)
    ensures |vec1| == 0 ==> d == NotANumber
    ensures 0 < |vec1| < 0x1_0000_0000 ==> d.Finite? && 0.0 <= d.value <= I16_MAX as real
  {
    var sum := MseSum(vec1, vec2);
    var len := |vec1| % 0x1_0000_0000;
    MseSumIsCappedSum(vec1, vec2);
    MeanBound(sum, len, I16_MAX);
    if len != 0 then Finite(sum as real / len as real)
    else if sum == 0 then NotANumber
    else Infinite
  }

  lemma MeanBound(sum: nat, len: nat, cap: nat)
    ensures 0 < len && sum <= cap * len ==> sum as real / len as real <= cap as real
  {
    if 0 < len && sum <= cap * len {
      assert sum as real <= cap as real * len as real;
    }
  }

  lemma MseDistanceOfSelf(v: seq<u8>)
    requires 0 < |v| < 0x1_0000_0000
    ensures MseDistance(v, v) == Finite(0.0)
  {
    MseSumOfSelf(v);
  }

  /** `a.partial_cmp(b) == Some(Less)`: NaN is unordered, and the
      `unwrap_or(Equal)` makes it compare equal to everything. */
  predicate ScoreLess(a: Score, b: Score) {
    match (a, b)
    case (Finite(x), Finite(y)) => x < y
    case (Finite(_), Infinite) => true
    case _ => false
  }

  lemma ScoreLessIsWeakOrder(scores: seq<Score>)
    requires forall i :: 0 <= i < |scores| ==> !scores[i].NotANumber?
    ensures WeakOrderOn(scores, ScoreLess)
  {
  }

  /** Without NaN among the scores, the fold lands on the earliest of the
      lowest scores. */
  lemma FirstMinByScores(scores: seq<Score>)
    requires |scores| > 0
    ensures (forall j :: 0 <= j < |scores| ==> !scores[j].NotANumber?) ==>
      && (forall j :: 0 <= j < FirstMinBy(scores, ScoreLess) ==>
            ScoreLess(scores[FirstMinBy(scores, ScoreLess)], scores[j]))
      && (forall j :: 0 <= j < |scores| ==>
            !ScoreLess(scores[j], scores[FirstMinBy(scores, ScoreLess)]))
  {
    if forall j :: 0 <= j < |scores| ==> !scores[j].NotANumber? {
      ScoreLessIsWeakOrder(scores);
      FirstMinByIsEarliest(scores, ScoreLess);
    }
  }

  /** The scores of a window's candidates against the remembered luma. */
  function MseScores(previousLuma: seq<u8>, window: seq<Frame>): (scores: seq<Score>)
    ensures |scores| == |window|
  {
    seq(|window|, i requires 0 <= i < |window| => MseDistance(Luma(window[i].data), previousLuma))
  }

  /** The candidate the MSE selector keeps: no later candidate scores
      strictly lower and, when no score is NaN, every earlier one scores
      strictly higher and no candidate scores lower at all. */
  function MseBestIndex(previousLuma: seq<u8>, window: seq<Frame>): (k: nat)
    requires |window| > 0
    ensures k < |window|
    ensures forall j :: k < j < |window| ==>
      !ScoreLess(MseScores(previousLuma, window)[j], MseScores(previousLuma, window)[k])
    ensures (forall j :: 0 <= j < |window| ==> !MseScores(previousLuma, window)[j].NotANumber?) ==>
      && (forall j :: 0 <= j < k ==>
            ScoreLess(MseScores(previousLuma, window)[k], MseScores(previousLuma, window)[j]))
      && (forall j :: 0 <= j < |window| ==>
            !ScoreLess(MseScores(previousLuma, window)[j], MseScores(previousLuma, window)[k]))
  {
    var scores := MseScores(previousLuma, window);
    FirstMinByScores(scores);
    FirstMinBy(scores, ScoreLess)
  }

  // ---------------------------------------------------------------------
  // Hash distances

  function HashDistances<H>(reference: H, window: seq<Frame>, hashOf: Frame -> H, dist: (H, H) -> nat): (ds: seq<nat>)
    ensures |ds| == |window|
  {
    seq(|window|, i requires 0 <= i < |window| => dist(reference, hashOf(window[i])))
  }

  /** The candidate `min_by_key` keeps: its distance to the reference is
      at most every candidate's, and strictly below every earlier one's. */
  function HashBestIndex<H>(reference: H, window: seq<Frame>, hashOf: Frame -> H, dist: (H, H) -> nat): (k: nat)
    requires |window| > 0
    ensures k < |window|
    ensures forall j :: 0 <= j < |window| ==>
      dist(reference, hashOf(window[k])) <= dist(reference, hashOf(window[j]))
    ensures forall j :: 0 <= j < k ==>
      dist(reference, hashOf(window[k])) < dist(reference, hashOf(window[j]))
  {
    var ds := HashDistances(reference, window, hashOf, dist);
    assert forall j :: 0 <= j < |window| ==> ds[j] == dist(reference, hashOf(window[j]));
    FirstMinByNat(ds);
    FirstMinBy(ds, NatLess)
  }

  // ---------------------------------------------------------------------
  // The selectors

  class MseFrameSelector {
    /** The luma of the frame picked last; None before the first window. */
    var lastFrame: Option<seq<u8>>

    constructor ()
      ensures lastFrame == None
    {
      lastFrame := None;
    }

    method PickBest(window: seq<Frame>) returns (r: Result<Frame, SelectionError>)
      modifies this
      ensures old(lastFrame).None? && |window| == 0 ==>
        r == Err(Panic) && lastFrame == old(lastFrame)
      ensures old(lastFrame).None? && |window| > 0 ==>
        r == Ok(window[0]) && lastFrame == Some(Luma(window[0].data))
      ensures old(lastFrame).Some? && |window| == 0 ==>
        r == Err(EmptyInput) && lastFrame == old(lastFrame)
      ensures old(lastFrame).Some? && |window| > 0 ==>
        var k := MseBestIndex(old(lastFrame).value, window);
        r == Ok(window[k]) && lastFrame == Some(Luma(window[k].data))
    {
      if lastFrame.None? {
        if |window| == 0 {
          return Err(Panic);
        }
        var frame := window[0];
        var luma := GetLumaData(frame);
        lastFrame := Some(luma);
        return Ok(frame);
      }
      var previousLuma := lastFrame.value;
      if |window| == 0 {
        return Err(EmptyInput);
      }
      var k := MseBestIndex(previousLuma, window);
      lastFrame := Some(Luma(window[k].data));
      r := Ok(window[k]);
    }
  }

  class HashFrameSelector<H> {
    /** `hash_frame(_, comparison_mode)` for the mode the selector was built for. */
    const hashOf: Frame -> H
    /** `ImageHash::dist`. */
    const dist: (H, H) -> nat
    /** The hash of the frame picked last; None before the first window. */
    var lastHash: Option<H>

    constructor (mode: ComparisonMode, hasher: (HashAlg, Frame) -> H, distance: (H, H) -> nat)
      requires mode.IsHash()
      ensures lastHash == None
      ensures forall f :: hashOf(f) == hasher(GetHashAlg(mode).value, f)
      ensures dist == distance
    {
      var alg := GetHashAlg(mode).value;
      hashOf := f => hasher(alg, f);
      dist := distance;
      lastHash := None;
    }

    method PickBest(window: seq<Frame>) returns (r: Result<Frame, SelectionError>)
      modifies this
      ensures old(lastHash).None? && |window| == 0 ==>
        r == Err(Panic) && lastHash == old(lastHash)
      ensures old(lastHash).None? && |window| > 0 ==>
        r == Ok(window[0]) && lastHash == Some(hashOf(window[0]))
      ensures old(lastHash).Some? && |window| == 0 ==>
        r == Err(EmptyInput) && lastHash == old(lastHash)
      ensures old(lastHash).Some? && |window| > 0 ==>
        var k := HashBestIndex(old(lastHash).value, window, hashOf, dist);
        r == Ok(window[k]) && lastHash == Some(hashOf(window[k]))
    {
      if lastHash.None? {
        if |window| == 0 {
          return Err(Panic);
        }
        var frame := window[0];
        lastHash := Some(hashOf(frame));
        return Ok(frame);
      }
      var reference := lastHash.value;
      if |window| == 0 {
        return Err(EmptyInput);
      }
      var k := HashBestIndex(reference, window, hashOf, dist);
      lastHash := Some(hashOf(window[k]));
      r := Ok(window[k]);
    }
  }

  /** The no-op selector keeps no state: the first frame, if there is one. */
  function NoopPickBest(window: seq<Frame>): (r: Result<Frame, SelectionError>)
    ensures r.Err? <==> |window| == 0
    ensures r.Err? ==> r.error == EmptyInput
    ensures r.Ok? ==> r.value == window[0]
  {
    if |window| == 0 then Err(EmptyInput) else Ok(window[0])
  }
}
