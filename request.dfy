/** The run configuration: a builder whose setters overwrite one field in
    place and hand back the same object for chaining, and the comparison
    modes the selectors and the decoder dispatch on. */
module Request {
  import opened Common

  /** The similarity strategies a run can ask for. */
  datatype ComparisonMode = Noop | Blockhash | GradientHash | MeanHash | MSE | SSIM
  {
    /** The three perceptual-hash strategies. */
    predicate IsHash() {
      this == Blockhash || this == GradientHash || this == MeanHash
    }
  }

  /** A file-system path, as the characters it was built from. */
  type Path = seq<char>

  /** A snapshot of every field of a request, to say what a setter keeps. */
  datatype Settings = Settings(
    inputPath: Path,
    outputPath: Path,
    windowSize: u32,
    frameSkip: u32,
    keyFramesOnly: bool,
    verbose: bool)

  class Request {
    var inputPath: Path
    var outputPath: Path
    var windowSize: u32
    var frameSkip: u32
    var keyFramesOnly: bool
    var verbose: bool

    function Current(): Settings
      reads this
    {
      Settings(inputPath, outputPath, windowSize, frameSkip, keyFramesOnly, verbose)
    }

    /** `Request::new()`, which is `Request::default()`. */
    constructor ()
      ensures inputPath == [] && outputPath == []
      ensures windowSize == 25 && frameSkip == 0
      ensures keyFramesOnly && !verbose
    {
      inputPath := [];
      outputPath := [];
      windowSize := 25;
      frameSkip := 0;
      keyFramesOnly := true;
      verbose := false;
    }

    function InputPath(): Path
      reads this
    {
      inputPath
    }

    function OutputPath(): Path
      reads this
    {
      outputPath
    }

    method SetInputPath(pathname: Path) returns (self: Request)
      modifies this
      ensures self == this
      ensures InputPath() == pathname
      ensures Current() == old(Current()).(inputPath := pathname)
    {
      inputPath := pathname;
      self := this;
    }

    method SetOutputPath(pathname: Path) returns (self: Request)
      modifies this
      ensures self == this
      ensures OutputPath() == pathname
      ensures Current() == old(Current()).(outputPath := pathname)
    {
      outputPath := pathname;
      self := this;
    }

    method SetWindowSize(size: u32) returns (self: Request)
      modifies this
      ensures self == this
      ensures Current() == old(Current()).(windowSize := size)
    {
      windowSize := size;
      self := this;
    }

    method SetFrameSkip(skip: u32) returns (self: Request)
      modifies this
      ensures self == this
      ensures Current() == old(Current()).(frameSkip := skip)
    {
      frameSkip := skip;
      self := this;
    }

    method SetKeyFramesOnly(keyOnly: bool) returns (self: Request)
      modifies this
      ensures self == this
      ensures Current() == old(Current()).(keyFramesOnly := keyOnly)
    {
      keyFramesOnly := keyOnly;
      self := this;
    }

    method SetVerbose(isVerbose: bool) returns (self: Request)
      modifies this
      ensures self == this
      ensures Current() == old(Current()).(verbose := isVerbose)
    {
      verbose := isVerbose;
      self := this;
    }
  }
}
