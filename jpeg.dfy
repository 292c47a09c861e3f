// main/jpeg_animation_decoder.c: a still JPEG shown as a one-frame
// animation. The hardware engine is an oracle; the adapter's own logic is the
// signature and size checks, the RGB565/RGB888 to RGBA expansion and the
// fixed delay of its single frame.
module JpegDecoder {
  import opened Esp
  import Upscale

  /** JPEG_STATIC_FRAME_DELAY_MS. */
  const StaticFrameDelayMs: int := 100

  /** A JPEG stream starts with the SOI marker FF D8. */
  predicate HasSignature(data: seq<Byte>)
  {
    |data| >= 2 && data[0] == 0xFF && data[1] == 0xD8
  }

  /** The answers of the JPEG engine while the adapter opens a file. */
  datatype Engine = Engine(
    newEngine: Err,      // jpeg_new_decoder_engine
    getInfo: Err,        // jpeg_decoder_get_info
    width: nat,
    height: nat,
    process: Err,        // jpeg_decoder_process
    decoded: seq<Byte>)  // the engine's output in the configured format

  /** Bytes per pixel of the engine's output format. */
  function SourceBytes(fmt: Upscale.PixelFormat): nat
  {
    match fmt
    case RGB565 => 2
    case RGB888 => 3
  }

  /**
   * jpeg_decoder_init's verdict: INVALID_ARG for an empty file or a missing
   * SOI marker, the engine's own error for a failing engine step,
   * INVALID_SIZE for an empty picture.
   */
  function InitError(data: seq<Byte>, e: Engine): (err: Err)
    ensures err == Ok <==> HasSignature(data) && e.newEngine == Ok && e.getInfo == Ok
                           && e.width > 0 && e.height > 0 && e.process == Ok
    ensures !HasSignature(data) ==> err == InvalidArg
    ensures HasSignature(data) && e.newEngine == Ok && e.getInfo == Ok && (e.width == 0 || e.height == 0) ==>
      err == InvalidSize
    ensures err != Ok ==> err in {InvalidArg, InvalidSize, e.newEngine, e.getInfo, e.process}
  {
    if |data| == 0 then InvalidArg
    else if !HasSignature(data) then InvalidArg
    else if e.newEngine != Ok then e.newEngine
    else if e.getInfo != Ok then e.getInfo
    else if e.width == 0 || e.height == 0 then InvalidSize
    else if e.process != Ok then e.process
    else Ok
  }

  /** The 16-bit pixel i of an RGB565 buffer, stored low byte first. */
  function Word(src: seq<Byte>, i: nat): bv16
    requires 2 * i + 1 < |src|
  {
    (src[2 * i] as bv16) | ((src[2 * i + 1] as bv16) << 8)
  }

  /**
   * The RGB565 expansion: each field is shifted to the top of its byte and
   * its high bits are repeated in the low bits.
   */
  function Expand565(p: bv16): (Byte, Byte, Byte)
  {
    var r := (((p >> 11) & 0x1F) << 3) as bv8;
    var g := (((p >> 5) & 0x3F) << 2) as bv8;
    var b := ((p & 0x1F) << 3) as bv8;
    (r | (r >> 5), g | (g >> 6), b | (b >> 5))
  }

  /**
   * Packing an expanded pixel again gives the pixel back: the expansion keeps
   * every field in the top bits of its byte.
   */
  lemma Expand565RoundTrip(p: bv16)
    ensures var (r, g, b) := Expand565(p); Upscale.Rgb565(r, g, b) == p
  {
  }

  /** A full field becomes 255, an empty one 0, and the top bits are the field. */
  lemma Expand565Range(p: bv16)
    ensures var (r, g, b) := Expand565(p);
      (r >> 3) as bv16 == p >> 11 && (g >> 2) as bv16 == (p >> 5) & 0x3F && (b >> 3) as bv16 == p & 0x1F
    ensures p >> 11 == 0x1F ==> Expand565(p).0 == 255
    ensures (p >> 5) & 0x3F == 0x3F ==> Expand565(p).1 == 255
    ensures p & 0x1F == 0x1F ==> Expand565(p).2 == 255
    ensures p == 0 ==> Expand565(p) == (0, 0, 0)
  {
  }

  /** Byte c of RGBA pixel i converted from the engine output; alpha is always 255. */
  function RgbaAt(src: seq<Byte>, fmt: Upscale.PixelFormat, i: nat, c: nat): Byte
    requires (i + 1) * SourceBytes(fmt) <= |src| && c < 4
  {
    if c == 3 then 255
    else match fmt
      case RGB565 =>
        var (r, g, b) := Expand565(Word(src, i));
        if c == 0 then r else if c == 1 then g else b
      case RGB888 => src[3 * i + c]
  }

  /** One pixel of the conversion loop. */
  method ConvertPixel(src: seq<Byte>, fmt: Upscale.PixelFormat, i: nat, dst: array<Byte>)
    requires (i + 1) * SourceBytes(fmt) <= |src| && 4 * i + 4 <= dst.Length
    modifies dst
    ensures forall j :: 0 <= j < dst.Length && !(4 * i <= j < 4 * i + 4) ==> dst[j] == old(dst[j])
    ensures forall c :: 0 <= c < 4 ==> dst[4 * i + c] == RgbaAt(src, fmt, i, c)
  {
    match fmt
    case RGB565 =>
      var pixel := (src[2 * i] as bv16) | ((src[2 * i + 1] as bv16) << 8);
      var r := (((pixel >> 11) & 0x1F) << 3) as bv8;
      var g := (((pixel >> 5) & 0x3F) << 2) as bv8;
      var b := ((pixel & 0x1F) << 3) as bv8;
      r := r | (r >> 5);
      g := g | (g >> 6);
      b := b | (b >> 5);
      dst[4 * i] := r;
      dst[4 * i + 1] := g;
      dst[4 * i + 2] := b;
      dst[4 * i + 3] := 255;
    case RGB888 =>
      dst[4 * i] := src[3 * i];
      dst[4 * i + 1] := src[3 * i + 1];
      dst[4 * i + 2] := src[3 * i + 2];
      dst[4 * i + 3] := 255;
  }

  /** The RGB to RGBA conversion loop over every pixel of the picture. */
  method ConvertToRgba(src: seq<Byte>, fmt: Upscale.PixelFormat, pixelCount: nat, dst: array<Byte>)
    requires pixelCount * SourceBytes(fmt) <= |src| && dst.Length == 4 * pixelCount
    modifies dst
    ensures forall i, c :: 0 <= i < pixelCount && 0 <= c < 4 ==> dst[4 * i + c] == RgbaAt(src, fmt, i, c)
  {
    var i := 0;
    while i < pixelCount
      invariant 0 <= i <= pixelCount
      invariant forall k, c :: 0 <= k < i && 0 <= c < 4 ==> dst[4 * k + c] == RgbaAt(src, fmt, k, c)
    {
      assert (i + 1) * SourceBytes(fmt) <= pixelCount * SourceBytes(fmt);
      ConvertPixel(src, fmt, i, dst);
      i := i + 1;
    }
  }

  /** The engine's output is large enough for the picture it reports. */
  predicate EngineConsistent(e: Engine, fmt: Upscale.PixelFormat)
  {
    e.process == Ok ==> e.width * e.height * SourceBytes(fmt) <= |e.decoded|
  }

  /** An opened JPEG (jpeg_decoder_data_t): the converted picture and the delay. */
  class Jpeg {
    const canvasWidth: nat
    const canvasHeight: nat
    const frame: array<Byte>
    var currentFrameDelayMs: int
    var initialized: bool

    function Size(): nat
    {
      canvasWidth * canvasHeight * 4
    }

    ghost predicate Valid()
    {
      frame.Length == Size()
    }

    constructor (w: nat, h: nat, frame: array<Byte>)
      requires frame.Length == w * h * 4
      ensures Valid()
      ensures canvasWidth == w && canvasHeight == h && this.frame == frame
      ensures currentFrameDelayMs == StaticFrameDelayMs && initialized
    {
      canvasWidth, canvasHeight, this.frame := w, h, frame;
      currentFrameDelayMs := StaticFrameDelayMs;
      initialized := true;
    }

    /**
     * jpeg_decoder_init: on success the picture is decoded once and converted
     * to RGBA in the configured output format.
     */
    static method Init(data: seq<Byte>, e: Engine, fmt: Upscale.PixelFormat) returns (err: Err, dec: Option<Jpeg>)
      requires EngineConsistent(e, fmt)
      ensures err == InitError(data, e)
      ensures err == Ok <==> dec.Some?
      ensures dec.Some? ==> (
        fresh(dec.value) && fresh(dec.value.frame) && dec.value.Valid() && dec.value.initialized
        && dec.value.canvasWidth == e.width && dec.value.canvasHeight == e.height
        && dec.value.currentFrameDelayMs == StaticFrameDelayMs
        && forall i, c :: 0 <= i < e.width * e.height && 0 <= c < 4 ==>
             dec.value.frame[4 * i + c] == RgbaAt(e.decoded, fmt, i, c))
    {
      err := InitError(data, e);
      if err != Ok {
        return err, None;
      }
      var pixels := e.width * e.height;
      var rgba := new Byte[4 * pixels];
      ConvertToRgba(e.decoded, fmt, pixels, rgba);
      var j := new Jpeg(e.width, e.height, rgba);
      dec := Some(j);
    }

    /** decode_next: every call copies the same picture out and restores the 100 ms delay. */
    method DecodeNext(out: array<Byte>) returns (err: Err)
      requires Valid() && out.Length >= Size() && out != frame
      modifies this`currentFrameDelayMs, out
      ensures err == (if initialized then Ok else InvalidState)
      ensures err != Ok ==> unchanged(this) && unchanged(out)
      ensures err == Ok ==> (
        out[..Size()] == frame[..] && out[Size()..] == old(out[Size()..])
        && currentFrameDelayMs == StaticFrameDelayMs)
    {
      if !initialized {
        return InvalidState;
      }
      var n := frame.Length;
      forall i | 0 <= i < n {
        out[i] := frame[i];
      }
      currentFrameDelayMs := StaticFrameDelayMs;
      err := Ok;
    }

    /** reset: a still picture only restores its delay. */
    method Reset() returns (err: Err)
      modifies this`currentFrameDelayMs
      ensures err == (if initialized then Ok else InvalidState)
      ensures err == Ok ==> currentFrameDelayMs == StaticFrameDelayMs
      ensures err != Ok ==> unchanged(this)
    {
      if !initialized {
        return InvalidState;
      }
      currentFrameDelayMs := StaticFrameDelayMs;
      err := Ok;
    }

    method GetFrameDelay() returns (err: Err, delayMs: int)
      ensures err == (if initialized then Ok else InvalidState)
      ensures err == Ok ==> delayMs == currentFrameDelayMs
    {
      if !initialized {
        return InvalidState, 0;
      }
      return Ok, currentFrameDelayMs;
    }

    /** get_info: one frame, never transparent. */
    method GetInfo() returns (err: Err, info: DecoderInfo)
      ensures err == (if initialized then Ok else InvalidState)
      ensures err == Ok ==> info == DecoderInfo(canvasWidth, canvasHeight, 1, false)
    {
      if !initialized {
        return InvalidState, DecoderInfo(0, 0, 0, false);
      }
      return Ok, DecoderInfo(canvasWidth, canvasHeight, 1, false);
    }
  }

  /** What a decoder handle slot holds, as far as unload looks at it. */
  datatype Slot = Empty | JpegSlot(dec: Jpeg) | OtherSlot(tag: int)

  /** jpeg_decoder_unload: clears a JPEG handle and leaves any other handle alone. */
  function Unload(s: Slot): (r: Slot)
    ensures s.JpegSlot? ==> r == Empty
    ensures !s.JpegSlot? ==> r == s
  {
    if s.JpegSlot? then Empty else s
  }
}
