// The WebP side of main/webp_animation_decoder.c: the checks init makes on
// what libwebp reports, and the timing state decode_next and reset keep.
// libwebp itself is an oracle: each call receives the library's answer.
module WebpDecoder {
  import opened Esp

  /** WebPDemux's ANIMATION_FLAG bit of WEBP_FF_FORMAT_FLAGS. */
  const AnimationFlag: bv32 := 0x2

  /** WebPAnimInfo as far as the adapter reads it. */
  datatype AnimInfo = AnimInfo(canvasWidth: nat, canvasHeight: nat, frameCount: nat, bgcolor: bv32)

  /** The answers libwebp gives, in order, while the adapter opens a file. */
  datatype Library = Library(
    optionsInit: bool,       // WebPAnimDecoderOptionsInit succeeds
    demuxes: bool,           // WebPDemux returns a demuxer
    formatFlags: bv32,       // WebPDemuxGetI(WEBP_FF_FORMAT_FLAGS)
    decoderNew: bool,        // WebPAnimDecoderNew returns a decoder
    info: Option<AnimInfo>)  // WebPAnimDecoderGetInfo, None when it fails

  predicate Animated(lib: Library)
  {
    lib.formatFlags & AnimationFlag != 0
  }

  predicate UsableInfo(i: AnimInfo)
  {
    i.frameCount > 0 && i.canvasWidth > 0 && i.canvasHeight > 0
  }

  /**
   * The error the WebP branch of animation_decoder_init returns once the
   * arguments are present: FAIL for a library step that fails, NOT_SUPPORTED
   * for a still image, INVALID_SIZE for empty metadata.
   */
  function InitError(lib: Library): (e: Err)
    ensures e == Ok <==> lib.optionsInit && lib.demuxes && Animated(lib) && lib.decoderNew
                         && lib.info.Some? && UsableInfo(lib.info.value)
    ensures e == NotSupported <==> lib.optionsInit && lib.demuxes && !Animated(lib)
    ensures e == InvalidSize <==> lib.optionsInit && lib.demuxes && Animated(lib) && lib.decoderNew
                                  && lib.info.Some? && !UsableInfo(lib.info.value)
    ensures e in {Ok, Fail, NotSupported, InvalidSize}
  {
    if !lib.optionsInit then Fail
    else if !lib.demuxes then Fail
    else if !Animated(lib) then NotSupported
    else if !lib.decoderNew then Fail
    else if lib.info.None? then Fail
    else if !UsableInfo(lib.info.value) then InvalidSize
    else Ok
  }

  /** What WebPAnimDecoderGetNext hands back for one call. */
  datatype NextFrame =
    | NoMoreFrames                                  // GetNext returns false
    | NullFrame                                     // GetNext succeeds without a buffer
    | Frame(pixels: seq<Byte>, timestampMs: int)    // a canvas and its cumulative timestamp

  /** The delay of a frame: the step between cumulative timestamps, at least 1 ms. */
  function FrameDelay(last: int, timestamp: int): (d: int)
    ensures d >= 1
    ensures d >= timestamp - last
    ensures timestamp - last >= 1 ==> d == timestamp - last
  {
    if timestamp - last < 1 then 1 else timestamp - last
  }

  /** The delays reported while decoding frames with these timestamps, starting from last. */
  function Delays(last: int, timestamps: seq<int>): seq<int>
    decreases |timestamps|
  {
    if timestamps == [] then []
    else [FrameDelay(last, timestamps[0])] + Delays(timestamps[0], timestamps[1..])
  }

  function Sum(s: seq<int>): int
    decreases |s|
  {
    if s == [] then 0 else s[0] + Sum(s[1..])
  }

  predicate StrictlyIncreasing(last: int, timestamps: seq<int>)
  {
    (|timestamps| > 0 ==> last < timestamps[0])
    && forall i, j :: 0 <= i < j < |timestamps| ==> timestamps[i] < timestamps[j]
  }

  /**
   * For cumulative timestamps that strictly increase, the delays telescope:
   * playing the frames takes exactly the span of the timestamps.
   */
  lemma {:induction false} DelaysTelescope(last: int, timestamps: seq<int>)
    requires |timestamps| > 0 && StrictlyIncreasing(last, timestamps)
    ensures Sum(Delays(last, timestamps)) == timestamps[|timestamps| - 1] - last
    decreases |timestamps|
  {
    if |timestamps| > 1 {
      DelaysTelescope(timestamps[0], timestamps[1..]);
    }
  }

  /**
   * Whatever the timestamps, every delay is positive and the total playing
   * time is never shorter than the span up to the last timestamp.
   */
  lemma {:induction false} DelaysCoverSpan(last: int, timestamps: seq<int>)
    requires |timestamps| > 0
    ensures |Delays(last, timestamps)| == |timestamps|
    ensures forall i :: 0 <= i < |timestamps| ==> Delays(last, timestamps)[i] >= 1
    ensures Sum(Delays(last, timestamps)) >= timestamps[|timestamps| - 1] - last
    decreases |timestamps|
  {
    if |timestamps| > 1 {
      DelaysCoverSpan(timestamps[0], timestamps[1..]);
    }
  }

  /** The per-decoder state of an opened WebP animation (webp_decoder_data_t). */
  class Webp {
    const info: AnimInfo
    var lastTimestampMs: int
    var currentFrameDelayMs: int
    var initialized: bool

    ghost predicate Valid()
      reads this
    {
      currentFrameDelayMs >= 1
    }

    /** Bytes of one RGBA canvas. */
    function FrameSize(): nat
    {
      info.canvasWidth * info.canvasHeight * 4
    }

    /** The state init leaves behind once the library accepted the file. */
    constructor (info: AnimInfo)
      requires UsableInfo(info)
      ensures Valid() && this.info == info && initialized
      ensures lastTimestampMs == 0 && currentFrameDelayMs == 1
    {
      this.info := info;
      lastTimestampMs := 0;
      currentFrameDelayMs := 1;
      initialized := true;
    }

    /**
     * decode_next: end of sequence gives INVALID_STATE and a frame without a
     * buffer FAIL, both leaving the timing untouched; a frame updates the
     * delay from the cumulative timestamp and copies one canvas out.
     */
    method DecodeNext(next: NextFrame, rgba: array<Byte>) returns (err: Err)
      requires Valid()
      requires rgba.Length >= FrameSize()
      requires next.Frame? ==> |next.pixels| >= FrameSize()
      modifies this`lastTimestampMs, this`currentFrameDelayMs, rgba
      ensures Valid()
      ensures err == (if !initialized then InvalidState
                      else match next
                        case NoMoreFrames => InvalidState
                        case NullFrame => Fail
                        case Frame(_, _) => Ok)
      ensures err != Ok ==> unchanged(this) && unchanged(rgba)
      ensures err == Ok ==> (
        currentFrameDelayMs == FrameDelay(old(lastTimestampMs), next.timestampMs)
        && lastTimestampMs == next.timestampMs
        && rgba[..FrameSize()] == next.pixels[..FrameSize()]
        && rgba[FrameSize()..] == old(rgba[FrameSize()..]))
    {
      if !initialized {
        return InvalidState;
      }
      match next
      case NoMoreFrames =>
        return InvalidState;
      case NullFrame =>
        return Fail;
      case Frame(pixels, timestamp) =>
        var delay := timestamp - lastTimestampMs;
        if delay < 1 {
          delay := 1;
        }
        currentFrameDelayMs := delay;
        lastTimestampMs := timestamp;
        var n := FrameSize();
        forall i | 0 <= i < n {
          rgba[i] := pixels[i];
        }
        err := Ok;
    }

    /** reset: the library rewinds and the timing restarts from timestamp 0 with delay 1. */
    method Reset() returns (err: Err)
      requires Valid()
      modifies this`lastTimestampMs, this`currentFrameDelayMs
      ensures Valid()
      ensures err == (if initialized then Ok else InvalidState)
      ensures err == Ok ==> lastTimestampMs == 0 && currentFrameDelayMs == 1
      ensures err != Ok ==> unchanged(this)
    {
      if !initialized {
        return InvalidState;
      }
      lastTimestampMs := 0;
      currentFrameDelayMs := 1;
      err := Ok;
    }

    /** get_frame_delay: the delay of the last decoded frame, never below 1 ms. */
    method GetFrameDelay() returns (err: Err, delayMs: int)
      requires Valid()
      ensures err == (if initialized then Ok else InvalidState)
      ensures err == Ok ==> delayMs == currentFrameDelayMs && delayMs >= 1
    {
      if !initialized {
        return InvalidState, 0;
      }
      return Ok, currentFrameDelayMs;
    }

    /**
     * get_info: the canvas and frame count as the library gave them, and
     * transparency exactly when the background colour's alpha byte is 0.
     */
    method GetInfo() returns (err: Err, out: DecoderInfo)
      ensures err == (if initialized then Ok else InvalidState)
      ensures err == Ok ==> out.canvasWidth == info.canvasWidth && out.canvasHeight == info.canvasHeight
                            && out.frameCount == info.frameCount
      ensures err == Ok ==> (out.hasTransparency <==> (info.bgcolor >> 24) as bv8 == 0)
    {
      if !initialized {
        return InvalidState, DecoderInfo(0, 0, 0, false);
      }
      err := Ok;
      out := DecoderInfo(info.canvasWidth, info.canvasHeight, info.frameCount,
                         info.bgcolor & 0xff000000 == 0);
    }
  }
}
