// The animation_decoder_* dispatcher of main/webp_animation_decoder.c: it
// checks its arguments and routes each call to the WebP or the GIF adapter by
// the handle's type tag; any other tag is refused with INVALID_ARG.
module AnimationDecoder {
  import opened Esp
  import WebpDecoder
  import GifDecoder

  /** animation_decoder_type_t, with room for tags the enumeration does not declare. */
  datatype DecoderType = WebpType | GifType | OtherType(tag: int)

  /** An opened animation_decoder_t: the adapter state behind the type tag. */
  datatype Handle =
    | WebpHandle(webp: WebpDecoder.Webp)
    | GifHandle(gif: GifDecoder.Gif)
    | Foreign(tag: int)

  /** Whether the call reaches an adapter (a handle of a known type). */
  predicate Routed(h: Option<Handle>)
  {
    h.Some? && !h.value.Foreign?
  }

  /** The objects a call on the handle may change. */
  function Footprint(h: Option<Handle>): set<object>
  {
    if h.None? then {}
    else match h.value
      case WebpHandle(w) => {w}
      case GifHandle(g) => {g, g.rgba, g.previous}
      case Foreign(_) => {}
  }

  ghost predicate HandleValid(h: Option<Handle>)
    reads Footprint(h)
  {
    h.Some? ==> match h.value
      case WebpHandle(w) => w.Valid()
      case GifHandle(g) => g.Valid()
      case Foreign(_) => true
  }

  /**
   * animation_decoder_init: a missing handle pointer, missing data or an
   * empty file is INVALID_ARG; WebP and GIF go to their adapters, with the
   * library's answers as inputs; any other type is INVALID_ARG.
   */
  method Init(handleSlot: bool, kind: DecoderType, data: Option<seq<Byte>>,
              webpLibrary: WebpDecoder.Library, gifOpening: GifDecoder.Opening)
    returns (err: Err, h: Option<Handle>)
    requires kind.GifType? ==> |gifOpening.counted| == gifOpening.canvasWidth * gifOpening.canvasHeight * 4
    ensures err == Ok <==> h.Some?
    ensures !handleSlot || data.None? || (data.Some? && |data.value| == 0) ==> err == InvalidArg
    ensures handleSlot && data.Some? && |data.value| > 0 ==>
      err == match kind
        case WebpType => WebpDecoder.InitError(webpLibrary)
        case GifType => GifDecoder.InitError(gifOpening)
        case OtherType(_) => InvalidArg
    ensures h.Some? ==> HandleValid(h) && fresh(Footprint(h))
    ensures h.Some? && kind.WebpType? ==> (
      h.value.WebpHandle? && h.value.webp.initialized
      && h.value.webp.info == webpLibrary.info.value
      && h.value.webp.lastTimestampMs == 0 && h.value.webp.currentFrameDelayMs == 1)
    ensures h.Some? && kind.GifType? ==> (
      h.value.GifHandle? && h.value.gif.initialized
      && h.value.gif.canvasWidth == gifOpening.canvasWidth && h.value.gif.canvasHeight == gifOpening.canvasHeight
      && h.value.gif.frameCount == GifDecoder.FramesPlayed(gifOpening.playResults)
      && h.value.gif.currentFrame == 0 && h.value.gif.currentFrameDelayMs == 1
      && h.value.gif.rgba[..] == gifOpening.counted
      && h.value.gif.previous[..] == GifDecoder.Zeros(h.value.gif.Size()))
  {
    if !handleSlot || data.None? || |data.value| == 0 {
      return InvalidArg, None;
    }
    match kind
    case WebpType =>
      err := WebpDecoder.InitError(webpLibrary);
      if err != Ok {
        return err, None;
      }
      var w := new WebpDecoder.Webp(webpLibrary.info.value);
      h := Some(WebpHandle(w));
    case GifType =>
      err := GifDecoder.InitError(gifOpening);
      if err != Ok {
        return err, None;
      }
      var frames := GifDecoder.CountFrames(gifOpening.playResults);
      var g := new GifDecoder.Gif(gifOpening.canvasWidth, gifOpening.canvasHeight, frames, gifOpening.counted);
      h := Some(GifHandle(g));
    case OtherType(_) =>
      return InvalidArg, None;
  }

  /** animation_decoder_get_info: INVALID_ARG unless the handle reaches an adapter. */
  method GetInfo(h: Option<Handle>) returns (err: Err, info: DecoderInfo)
    ensures !Routed(h) ==> err == InvalidArg
    ensures Routed(h) && h.value.WebpHandle? ==>
      var w := h.value.webp;
      err == (if w.initialized then Ok else InvalidState)
      && (err == Ok ==> info.canvasWidth == w.info.canvasWidth && info.canvasHeight == w.info.canvasHeight
                        && info.frameCount == w.info.frameCount
                        && (info.hasTransparency <==> (w.info.bgcolor >> 24) as bv8 == 0))
    ensures Routed(h) && h.value.GifHandle? ==>
      var g := h.value.gif;
      err == (if g.initialized then Ok else InvalidState)
      && (err == Ok ==> info == DecoderInfo(g.canvasWidth, g.canvasHeight, g.frameCount, true))
  {
    info := DecoderInfo(0, 0, 0, false);
    if h.None? {
      return InvalidArg, info;
    }
    match h.value
    case WebpHandle(w) =>
      err, info := w.GetInfo();
    case GifHandle(g) =>
      err, info := g.GetInfo();
    case Foreign(_) =>
      err := InvalidArg;
  }

  /** animation_decoder_decode_next, given the library's answer for either adapter. */
  method DecodeNext(h: Option<Handle>, webpNext: WebpDecoder.NextFrame, gifPlay: GifDecoder.Play, rgba: array<Byte>)
    returns (err: Err)
    requires HandleValid(h) && rgba !in Footprint(h)
    requires h.Some? && h.value.WebpHandle? ==>
      rgba.Length >= h.value.webp.FrameSize()
      && (webpNext.Frame? ==> |webpNext.pixels| >= h.value.webp.FrameSize())
    requires h.Some? && h.value.GifHandle? ==>
      rgba.Length >= h.value.gif.Size()
      && GifDecoder.LinesFit(gifPlay.lines, h.value.gif.canvasWidth, h.value.gif.canvasHeight)
    modifies Footprint(h), rgba
    ensures HandleValid(h)
    ensures !Routed(h) ==> err == InvalidArg && unchanged(rgba)
    ensures Routed(h) && h.value.WebpHandle? ==>
      err == (if !old(h.value.webp.initialized) then InvalidState
              else match webpNext
                case NoMoreFrames => InvalidState
                case NullFrame => Fail
                case Frame(_, _) => Ok)
    ensures Routed(h) && h.value.WebpHandle? && err == Ok ==>
      var w := h.value.webp;
      w.currentFrameDelayMs == WebpDecoder.FrameDelay(old(w.lastTimestampMs), webpNext.timestampMs)
      && w.lastTimestampMs == webpNext.timestampMs
      && rgba[..w.FrameSize()] == webpNext.pixels[..w.FrameSize()]
    ensures Routed(h) && h.value.WebpHandle? && err != Ok ==> unchanged(h.value.webp) && unchanged(rgba)
    ensures Routed(h) && h.value.GifHandle? && !old(h.value.gif.initialized) ==>
      err == InvalidState && unchanged(rgba)
    ensures Routed(h) && h.value.GifHandle? && old(h.value.gif.initialized) ==>
      var g := h.value.gif;
      err == (if gifPlay.result < 0 then InvalidState else Ok)
      && (gifPlay.result < 0 ==> unchanged(rgba))
      && GifDecoder.Canvases(g.rgba[..], g.previous[..])
         == GifDecoder.DecodeCanvases(GifDecoder.Canvases(old(g.rgba[..]), old(g.previous[..])), gifPlay.lines, g.canvasWidth, g.canvasHeight)
    ensures Routed(h) && h.value.GifHandle? && old(h.value.gif.initialized) && gifPlay.result >= 0 ==>
      var g := h.value.gif;
      g.currentFrameDelayMs == Max(1, gifPlay.delayMs)
      && rgba[..g.Size()] == g.rgba[..]
      && g.currentFrame == (if old(g.currentFrame) + 1 >= g.frameCount then 0 else old(g.currentFrame) + 1)
  {
    if h.None? {
      return InvalidArg;
    }
    match h.value
    case WebpHandle(w) =>
      err := w.DecodeNext(webpNext, rgba);
    case GifHandle(g) =>
      err := g.DecodeNext(gifPlay, rgba);
    case Foreign(_) =>
      err := InvalidArg;
  }

  /** animation_decoder_reset: restarts the animation of a known handle. */
  method Reset(h: Option<Handle>) returns (err: Err)
    requires HandleValid(h)
    modifies Footprint(h)
    ensures HandleValid(h)
    ensures !Routed(h) ==> err == InvalidArg
    ensures Routed(h) && h.value.WebpHandle? ==>
      err == (if h.value.webp.initialized then Ok else InvalidState)
      && (err == Ok ==> h.value.webp.lastTimestampMs == 0 && h.value.webp.currentFrameDelayMs == 1)
    ensures Routed(h) && h.value.GifHandle? ==>
      err == (if h.value.gif.initialized then Ok else InvalidState)
      && (err == Ok ==> h.value.gif.currentFrame == 0 && h.value.gif.currentFrameDelayMs == 1)
  {
    if h.None? {
      return InvalidArg;
    }
    match h.value
    case WebpHandle(w) =>
      err := w.Reset();
    case GifHandle(g) =>
      err := g.Reset();
    case Foreign(_) =>
      err := InvalidArg;
  }

  /** animation_decoder_get_frame_delay: the last frame's delay, at least 1 ms, from a known handle. */
  method GetFrameDelay(h: Option<Handle>) returns (err: Err, delayMs: int)
    requires HandleValid(h)
    ensures !Routed(h) ==> err == InvalidArg
    ensures Routed(h) && h.value.WebpHandle? ==>
      err == (if h.value.webp.initialized then Ok else InvalidState)
    ensures Routed(h) && h.value.GifHandle? ==>
      err == (if h.value.gif.initialized then Ok else InvalidState)
    ensures err == Ok ==> delayMs >= 1
    ensures err == Ok ==> delayMs == match h.value
      case WebpHandle(w) => w.currentFrameDelayMs
      case GifHandle(g) => g.currentFrameDelayMs
      case Foreign(_) => 0
  {
    if h.None? {
      return InvalidArg, 0;
    }
    match h.value
    case WebpHandle(w) =>
      err, delayMs := w.GetFrameDelay();
    case GifHandle(g) =>
      err, delayMs := g.GetFrameDelay();
    case Foreign(_) =>
      err, delayMs := InvalidArg, 0;
  }

  /** animation_decoder_unload: safe on a missing handle, and the caller's handle is cleared. */
  method Unload(h: Option<Handle>) returns (cleared: Option<Handle>)
    ensures cleared.None?
  {
    cleared := None;
  }
}
