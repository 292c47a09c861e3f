// components/animated_gif_decoder/gif_animation_decoder.c: the draw callback
// that turns palette-indexed lines into RGBA on the canvas, and the state the
// adapter keeps between frames. AnimatedGIF is an oracle: a playFrame call is
// given as its result code, its delay and the lines it hands to the callback.
module GifDecoder {
  import opened Esp

  /** One GIFDRAW: line y of a frame whose rectangle starts at (frameX, frameY). */
  datatype DrawLine = DrawLine(
    y: nat, frameX: nat, frameY: nat, frameW: nat,
    pixels: seq<Byte>,       // palette indices, frameW of them
    palette: seq<Byte>,      // RGB888 palette, 256 entries of three bytes
    transparent: Byte,
    hasTransparency: bool)

  /** The library keeps a line inside the canvas and gives a full palette. */
  predicate LineFits(line: DrawLine, w: nat, h: nat)
  {
    line.frameY + line.y < h && line.frameX + line.frameW <= w
    && |line.pixels| >= line.frameW && |line.palette| == 768
  }

  predicate LinesFit(lines: seq<DrawLine>, w: nat, h: nat)
  {
    forall k :: 0 <= k < |lines| ==> LineFits(lines[k], w, h)
  }

  /** Byte offset of the line's first pixel in a canvas w pixels wide. */
  function SegmentStart(line: DrawLine, w: nat): int
  {
    ((line.frameY + line.y) * w + line.frameX) * 4
  }

  lemma LineInCanvas(line: DrawLine, w: nat, h: nat)
    requires LineFits(line, w, h)
    ensures 0 <= SegmentStart(line, w)
    ensures SegmentStart(line, w) + 4 * line.frameW <= w * h * 4
  {
    var row := line.frameY + line.y;
    assert (row + 1) * w <= h * w by {
      MulLe(row + 1, h, w);
    }
  }

  lemma MulLe(a: nat, b: nat, c: nat)
    requires a <= b
    ensures a * c <= b * c
  {
  }

  /**
   * Channel c of pixel x of a drawn line: a transparent index keeps the
   * previous frame's byte at the same canvas position, any other index gives
   * its palette colour with alpha 255.
   */
  function PixelByte(line: DrawLine, prev: seq<Byte>, start: int, x: int, c: int): Byte
  {
    var idx := ByteAt(line.pixels, x);
    if line.hasTransparency && idx == line.transparent then ByteAt(prev, start + 4 * x + c)
    else if c == 3 then 255
    else ByteAt(line.palette, 3 * idx as int + c)
  }

  /** Byte j of a drawn line's segment: channel j % 4 of pixel j / 4. */
  function LineByte(line: DrawLine, prev: seq<Byte>, start: int, j: int): Byte
  {
    PixelByte(line, prev, start, j / 4, j % 4)
  }

  /** Byte 4x+c of a segment is channel c of pixel x. */
  lemma SegmentOffset(x: int, c: int)
    requires 0 <= c < 4
    ensures (4 * x + c) / 4 == x && (4 * x + c) % 4 == c
  {
  }

  /** The four bytes gif_draw_callback stores for pixel x, as bytes 4x to 4x+3 of the segment. */
  lemma PixelValues(line: DrawLine, prev: seq<Byte>, start: int, x: nat, r: Byte, g: Byte, b: Byte, a: Byte)
    requires |line.pixels| > x && |line.palette| == 768 && 0 <= start && start + 4 * x + 4 <= |prev|
    requires line.hasTransparency && line.pixels[x] == line.transparent ==>
      var p := start + 4 * x; r == prev[p] && g == prev[p + 1] && b == prev[p + 2] && a == prev[p + 3]
    requires !(line.hasTransparency && line.pixels[x] == line.transparent) ==>
      var q := 3 * line.pixels[x] as int; r == line.palette[q] && g == line.palette[q + 1] && b == line.palette[q + 2] && a == 255
    ensures LineByte(line, prev, start, 4 * x) == r && LineByte(line, prev, start, 4 * x + 1) == g
    ensures LineByte(line, prev, start, 4 * x + 2) == b && LineByte(line, prev, start, 4 * x + 3) == a
  {
    SegmentOffset(x, 0);
    SegmentOffset(x, 1);
    SegmentOffset(x, 2);
    SegmentOffset(x, 3);
  }

  /** Byte i of s, 0 outside it (PixelByte is only asked for bytes inside). */
  function ByteAt(s: seq<Byte>, i: int): Byte
  {
    if 0 <= i < |s| then s[i] else 0
  }

  /** The canvas after the callback drew one line onto buf. */
  function Drawn(buf: seq<Byte>, prev: seq<Byte>, line: DrawLine, w: nat, h: nat): (r: seq<Byte>)
    requires |buf| == |prev| == w * h * 4 && LineFits(line, w, h)
    ensures |r| == |buf|
  {
    LineInCanvas(line, w, h);
    var start := SegmentStart(line, w);
    seq(|buf|, i requires 0 <= i < |buf| =>
      if start <= i < start + 4 * line.frameW then LineByte(line, prev, start, i - start)
      else buf[i])
  }

  /** The canvas after the callback drew the lines of a frame in order. */
  function Compose(buf: seq<Byte>, prev: seq<Byte>, lines: seq<DrawLine>, w: nat, h: nat): (r: seq<Byte>)
    requires |buf| == |prev| == w * h * 4 && LinesFit(lines, w, h)
    ensures |r| == |buf|
    decreases |lines|
  {
    if lines == [] then buf
    else Drawn(Compose(buf, prev, lines[..|lines| - 1], w, h), prev, lines[|lines| - 1], w, h)
  }

  function Zeros(n: nat): (r: seq<Byte>)
    ensures |r| == n && forall i :: 0 <= i < n ==> r[i] == 0
  {
    seq(n, _ => 0)
  }

  /** A byte no line of the frame covers. */
  predicate Untouched(lines: seq<DrawLine>, w: nat, i: int)
  {
    forall k :: 0 <= k < |lines| ==>
      !(SegmentStart(lines[k], w) <= i < SegmentStart(lines[k], w) + 4 * lines[k].frameW)
  }

  /** Bytes outside every drawn line keep the value they had before the frame. */
  lemma {:induction false} ComposeKeepsUntouched(buf: seq<Byte>, prev: seq<Byte>, lines: seq<DrawLine>, w: nat, h: nat, i: int)
    requires |buf| == |prev| == w * h * 4 && LinesFit(lines, w, h)
    requires 0 <= i < |buf| && Untouched(lines, w, i)
    ensures Compose(buf, prev, lines, w, h)[i] == buf[i]
    decreases |lines|
  {
    if lines != [] {
      var init := lines[..|lines| - 1];
      assert Untouched(init, w, i) by {
        forall k | 0 <= k < |init| ensures !(SegmentStart(init[k], w) <= i < SegmentStart(init[k], w) + 4 * init[k].frameW) {
          assert init[k] == lines[k];
        }
      }
      assert LinesFit(init, w, h) by {
        forall k | 0 <= k < |init| ensures LineFits(init[k], w, h) {
          assert init[k] == lines[k];
        }
      }
      ComposeKeepsUntouched(buf, prev, init, w, h, i);
    }
  }

  /** Pixel x of the last line drawn, for an opaque index: its palette colour, alpha 255. */
  lemma OpaquePixel(buf: seq<Byte>, prev: seq<Byte>, line: DrawLine, w: nat, h: nat, x: nat, c: nat)
    requires |buf| == |prev| == w * h * 4 && LineFits(line, w, h)
    requires x < line.frameW && c < 4
    requires !(line.hasTransparency && line.pixels[x] == line.transparent)
    ensures SegmentStart(line, w) + 4 * x + c < |buf|
    ensures Drawn(buf, prev, line, w, h)[SegmentStart(line, w) + 4 * x + c]
            == if c == 3 then 255 else line.palette[3 * line.pixels[x] as int + c]
  {
    LineInCanvas(line, w, h);
    var start := SegmentStart(line, w);
    var i := start + 4 * x + c;
    SegmentOffset(x, c);
    assert Drawn(buf, prev, line, w, h)[i] == LineByte(line, prev, start, 4 * x + c);
  }

  /** Pixel x of the last line drawn, for the transparent index: the previous frame's pixel. */
  lemma TransparentPixel(buf: seq<Byte>, prev: seq<Byte>, line: DrawLine, w: nat, h: nat, x: nat, c: nat)
    requires |buf| == |prev| == w * h * 4 && LineFits(line, w, h)
    requires x < line.frameW && c < 4
    requires line.hasTransparency && line.pixels[x] == line.transparent
    ensures SegmentStart(line, w) + 4 * x + c < |buf|
    ensures Drawn(buf, prev, line, w, h)[SegmentStart(line, w) + 4 * x + c] == prev[SegmentStart(line, w) + 4 * x + c]
  {
    LineInCanvas(line, w, h);
    var start := SegmentStart(line, w);
    var i := start + 4 * x + c;
    SegmentOffset(x, c);
    assert Drawn(buf, prev, line, w, h)[i] == LineByte(line, prev, start, 4 * x + c);
  }

  /** The number of playFrame results equal to 1 before the first other one. */
  method CountFrames(results: seq<int>) returns (count: nat)
    ensures count <= |results|
    ensures forall k :: 0 <= k < count ==> results[k] == 1
    ensures count < |results| ==> results[count] != 1
    ensures count == FramesPlayed(results)
  {
    count := 0;
    while count < |results| && results[count] == 1
      invariant count <= |results|
      invariant forall k :: 0 <= k < count ==> results[k] == 1
    {
      count := count + 1;
    }
  }

  /**
   * What the adapter learns from the library while opening a file: whether
   * it opens, the canvas size, the results of the counting pass's playFrame
   * calls, and the bytes the current canvas holds after that pass (memory
   * from malloc that every counted frame is drawn onto without clearing).
   */
  datatype Opening = Opening(opens: bool, canvasWidth: nat, canvasHeight: nat, playResults: seq<int>, counted: seq<Byte>)

  /** The leading run of frames the library plays. */
  function FramesPlayed(results: seq<int>): (n: nat)
    ensures n <= |results|
    ensures forall k :: 0 <= k < n ==> results[k] == 1
    ensures n < |results| ==> results[n] != 1
    decreases |results|
  {
    if results == [] || results[0] != 1 then 0 else 1 + FramesPlayed(results[1..])
  }

  /** gif_decoder_init's verdict: FAIL when the file does not open, INVALID_SIZE for an empty canvas or no frames. */
  function InitError(o: Opening): (e: Err)
    ensures e == Ok <==> o.opens && o.canvasWidth > 0 && o.canvasHeight > 0 && FramesPlayed(o.playResults) > 0
    ensures e == Fail <==> !o.opens
    ensures e != Ok && e != Fail ==> e == InvalidSize
  {
    if !o.opens then Fail
    else if o.canvasWidth == 0 || o.canvasHeight == 0 then InvalidSize
    else if FramesPlayed(o.playResults) == 0 then InvalidSize
    else Ok
  }

  /** One playFrame call: its result code, the delay it reports and the lines it draws. */
  datatype Play = Play(result: int, delayMs: int, lines: seq<DrawLine>)

  /** The two canvases the adapter keeps: the one being drawn and the previous one. */
  datatype Canvases = Canvases(rgba: seq<Byte>, previous: seq<Byte>)

  /**
   * decode_next on the canvases: the previous canvas becomes a copy of the
   * current one, which is cleared and then drawn.
   */
  function DecodeCanvases(c: Canvases, lines: seq<DrawLine>, w: nat, h: nat): (r: Canvases)
    requires |c.rgba| == w * h * 4 && LinesFit(lines, w, h)
    ensures r.previous == c.rgba && |r.rgba| == w * h * 4
  {
    Canvases(Compose(Zeros(w * h * 4), c.rgba, lines, w, h), c.rgba)
  }

  /** reset as written: only the previous canvas is cleared. */
  function ResetAsWritten(c: Canvases): (r: Canvases)
    ensures r.rgba == c.rgba && |r.previous| == |c.previous|
  {
    c.(previous := Zeros(|c.previous|))
  }

  /**
   * The clearing in reset as written is lost: decode_next overwrites the
   * previous canvas with the current one before any line reads it, so the
   * frame after a reset is the frame that would have come without it.
   */
  lemma ResetAsWrittenIsLost(c: Canvases, lines: seq<DrawLine>, w: nat, h: nat)
    requires |c.rgba| == w * h * 4 && LinesFit(lines, w, h)
    ensures DecodeCanvases(ResetAsWritten(c), lines, w, h) == DecodeCanvases(c, lines, w, h)
  {
  }

  /** A one-pixel canvas showing (9, 9, 9, 9) and a frame whose only pixel is transparent. */
  function WitnessLine(): DrawLine
  {
    DrawLine(0, 0, 0, 1, [7], Zeros(768), 7, true)
  }

  /**
   * After reset as written, a transparent pixel of the first frame still shows
   * the pixel of the frame before the reset rather than transparent black.
   */
  lemma ResetAsWrittenCarriesOver()
    ensures var c := Canvases([9, 9, 9, 9], [9, 9, 9, 9]);
      DecodeCanvases(ResetAsWritten(c), [WitnessLine()], 1, 1).rgba[0] == 9
  {
    var c := Canvases([9, 9, 9, 9], [9, 9, 9, 9]);
    var line := WitnessLine();
    assert LinesFit([line], 1, 1);
    TransparentPixel(Compose(Zeros(4), c.rgba, [], 1, 1), c.rgba, line, 1, 1, 0, 0);
  }

  /** reset as intended: both canvases are cleared, so nothing is carried over. */
  function ResetClearing(c: Canvases): (r: Canvases)
    ensures r.rgba == Zeros(|c.rgba|) && r.previous == Zeros(|c.previous|)
  {
    Canvases(Zeros(|c.rgba|), Zeros(|c.previous|))
  }

  /**
   * After the clearing reset, a transparent pixel of the first frame's last
   * line is transparent black, whatever was shown before.
   */
  lemma ResetClearingBlanksCarryOver(c: Canvases, lines: seq<DrawLine>, w: nat, h: nat, x: nat, ch: nat)
    requires |c.rgba| == w * h * 4 && LinesFit(lines, w, h) && lines != []
    requires var line := lines[|lines| - 1];
      x < line.frameW && ch < 4 && line.hasTransparency && line.pixels[x] == line.transparent
    ensures var line := lines[|lines| - 1];
      SegmentStart(line, w) + 4 * x + ch < w * h * 4
      && DecodeCanvases(ResetClearing(c), lines, w, h).rgba[SegmentStart(line, w) + 4 * x + ch] == 0
  {
    var line := lines[|lines| - 1];
    var n := w * h * 4;
    var before := ComposeLast(Zeros(n), Zeros(n), lines, w, h);
    assert ResetClearing(c).rgba == Zeros(n);
    TransparentPixel(before, Zeros(n), line, w, h, x, ch);
  }

  /** Composing a non-empty run of lines draws the last one over the composition of the others. */
  lemma ComposeLast(buf: seq<Byte>, prev: seq<Byte>, lines: seq<DrawLine>, w: nat, h: nat) returns (before: seq<Byte>)
    requires |buf| == |prev| == w * h * 4 && LinesFit(lines, w, h) && lines != []
    ensures |before| == |buf|
    ensures LineFits(lines[|lines| - 1], w, h)
    ensures Compose(buf, prev, lines, w, h) == Drawn(before, prev, lines[|lines| - 1], w, h)
  {
    var init := lines[..|lines| - 1];
    assert LinesFit(init, w, h) by {
      forall k | 0 <= k < |init| ensures LineFits(init[k], w, h) {
        assert init[k] == lines[k];
      }
    }
    before := Compose(buf, prev, init, w, h);
  }

  /** The state of one opened GIF (gif_decoder_impl). */
  class Gif {
    const canvasWidth: nat
    const canvasHeight: nat
    const frameCount: nat
    const rgba: array<Byte>
    const previous: array<Byte>
    var currentFrame: nat
    var currentFrameDelayMs: int
    var initialized: bool

    ghost predicate Valid()
      reads this
    {
      rgba.Length == previous.Length == canvasWidth * canvasHeight * 4
      && rgba != previous
      && frameCount > 0 && currentFrame < frameCount && currentFrameDelayMs >= 1
    }

    function Size(): nat
    {
      canvasWidth * canvasHeight * 4
    }

    /**
     * The state init leaves behind once the file opened with a non-empty
     * canvas and at least one frame: the current canvas as the counting
     * pass left it, the previous one cleared, frame 0, delay 1.
     */
    constructor (w: nat, h: nat, frames: nat, counted: seq<Byte>)
      requires w > 0 && h > 0 && frames > 0 && |counted| == w * h * 4
      ensures Valid() && fresh(rgba) && fresh(previous) && initialized
      ensures canvasWidth == w && canvasHeight == h && frameCount == frames
      ensures rgba[..] == counted && previous[..] == Zeros(Size())
      ensures currentFrame == 0 && currentFrameDelayMs == 1
    {
      canvasWidth, canvasHeight, frameCount := w, h, frames;
      rgba := new Byte[w * h * 4](i requires 0 <= i < w * h * 4 => counted[i]);
      previous := new Byte[w * h * 4](_ => 0);
      currentFrame := 0;
      currentFrameDelayMs := 1;
      initialized := true;
    }

    /** gif_draw_callback: draws one line onto the current canvas. */
    method DrawCallback(line: DrawLine)
      requires Valid() && LineFits(line, canvasWidth, canvasHeight)
      modifies rgba
      ensures rgba[..] == Drawn(old(rgba[..]), previous[..], line, canvasWidth, canvasHeight)
    {
      LineInCanvas(line, canvasWidth, canvasHeight);
      var start := SegmentStart(line, canvasWidth);
      var x := 0;
      while x < line.frameW
        invariant 0 <= x <= line.frameW
        invariant forall i :: 0 <= i < rgba.Length && !(start <= i < start + 4 * x) ==> rgba[i] == old(rgba[i])
        invariant forall i :: start <= i < start + 4 * x ==> rgba[i] == LineByte(line, previous[..], start, i - start)
      {
        WritePixel(line, start, x);
        x := x + 1;
      }
    }

    /** One pixel of gif_draw_callback's loop: the four bytes of pixel x of the line. */
    method WritePixel(line: DrawLine, start: int, x: nat)
      requires rgba != previous && rgba.Length == previous.Length
      requires |line.pixels| >= line.frameW && |line.palette| == 768 && x < line.frameW
      requires 0 <= start && start + 4 * line.frameW <= rgba.Length
      modifies rgba
      ensures forall i :: 0 <= i < rgba.Length && !(start + 4 * x <= i < start + 4 * x + 4) ==> rgba[i] == old(rgba[i])
      ensures forall i :: start + 4 * x <= i < start + 4 * x + 4 ==> rgba[i] == LineByte(line, previous[..], start, i - start)
    {
      var p := start + 4 * x;
      ghost var prev := previous[..];
      var idx := line.pixels[x];
      var r, g, b, a;
      if line.hasTransparency && idx == line.transparent {
        r, g, b, a := previous[p], previous[p + 1], previous[p + 2], previous[p + 3];
      } else {
        r, g, b, a := line.palette[3 * idx as int], line.palette[3 * idx as int + 1], line.palette[3 * idx as int + 2], 255;
      }
      PixelValues(line, prev, start, x, r, g, b, a);
      StorePixel(p, r, g, b, a);
      assert previous[..] == prev;
      forall i | p <= i < p + 4
        ensures rgba[i] == LineByte(line, prev, start, i - start)
      {
        if i == p {
        } else if i == p + 1 {
        } else if i == p + 2 {
        } else {
          assert i == p + 3;
        }
      }
    }

    /** The four byte stores of one RGBA pixel at offset p. */
    method StorePixel(p: int, r: Byte, g: Byte, b: Byte, a: Byte)
      requires 0 <= p && p + 4 <= rgba.Length
      modifies rgba
      ensures forall i :: 0 <= i < rgba.Length && !(p <= i < p + 4) ==> rgba[i] == old(rgba[i])
      ensures rgba[p] == r && rgba[p + 1] == g && rgba[p + 2] == b && rgba[p + 3] == a
    {
      rgba[p] := r;
      rgba[p + 1] := g;
      rgba[p + 2] := b;
      rgba[p + 3] := a;
    }

    /**
     * decode_next: the previous canvas takes the current one, the current one
     * is cleared and the frame drawn on it. A negative library result gives
     * INVALID_STATE after the canvases have changed; otherwise the delay is
     * clamped to 1 ms, the canvas copied out and the frame counter advanced,
     * wrapping at the frame count.
     */
    method DecodeNext(play: Play, out: array<Byte>) returns (err: Err)
      requires Valid() && LinesFit(play.lines, canvasWidth, canvasHeight)
      requires out.Length >= Size() && out != rgba && out != previous
      modifies rgba, previous, this`currentFrame, this`currentFrameDelayMs, out
      ensures Valid()
      ensures !old(initialized) ==> err == InvalidState && unchanged(this) && unchanged(rgba, previous, out)
      ensures old(initialized) ==> (
        previous[..] == old(rgba[..])
        && DecodeCanvases(Canvases(old(rgba[..]), old(previous[..])), play.lines, canvasWidth, canvasHeight)
           == Canvases(rgba[..], previous[..]))
      ensures old(initialized) && play.result < 0 ==>
        err == InvalidState && unchanged(this) && unchanged(out)
      ensures old(initialized) && play.result >= 0 ==> (
        err == Ok
        && currentFrameDelayMs == Max(1, play.delayMs)
        && out[..Size()] == rgba[..] && out[Size()..] == old(out[Size()..])
        && currentFrame == (if old(currentFrame) + 1 >= frameCount then 0 else old(currentFrame) + 1))
    {
      if !initialized {
        return InvalidState;
      }
      var n := Size();
      ghost var before := rgba[..];
      forall i | 0 <= i < n {
        previous[i] := rgba[i];
      }
      forall i | 0 <= i < n {
        rgba[i] := 0;
      }
      assert previous[..] == before;
      assert rgba[..] == Zeros(n);
      var k := 0;
      while k < |play.lines|
        invariant 0 <= k <= |play.lines|
        invariant Valid() && currentFrame == old(currentFrame) && currentFrameDelayMs == old(currentFrameDelayMs)
        invariant unchanged(out)
        invariant previous[..] == before
        invariant LinesFit(play.lines[..k], canvasWidth, canvasHeight)
        invariant rgba[..] == Compose(Zeros(n), before, play.lines[..k], canvasWidth, canvasHeight)
      {
        assert play.lines[..k + 1][..k] == play.lines[..k];
        DrawCallback(play.lines[k]);
        k := k + 1;
      }
      assert play.lines[..k] == play.lines;
      if play.result < 0 {
        return InvalidState;
      }
      currentFrameDelayMs := if play.delayMs < 1 then 1 else play.delayMs;
      forall i | 0 <= i < n {
        out[i] := rgba[i];
      }
      currentFrame := currentFrame + 1;
      if currentFrame >= frameCount {
        currentFrame := 0;
      }
      err := Ok;
    }

    /**
     * reset, clearing both canvases (the source clears only the previous
     * one; see ResetAsWrittenIsLost): frame 0, delay 1.
     */
    method Reset() returns (err: Err)
      requires Valid()
      modifies rgba, previous, this`currentFrame, this`currentFrameDelayMs
      ensures Valid()
      ensures err == (if initialized then Ok else InvalidState)
      ensures err != Ok ==> unchanged(this) && unchanged(rgba, previous)
      ensures err == Ok ==> (
        Canvases(rgba[..], previous[..]) == ResetClearing(Canvases(old(rgba[..]), old(previous[..])))
        && currentFrame == 0 && currentFrameDelayMs == 1)
    {
      if !initialized {
        return InvalidState;
      }
      currentFrame := 0;
      currentFrameDelayMs := 1;
      var n := Size();
      forall i | 0 <= i < n {
        rgba[i] := 0;
      }
      forall i | 0 <= i < n {
        previous[i] := 0;
      }
      assert rgba[..] == Zeros(n) && previous[..] == Zeros(n);
      err := Ok;
    }

    /** get_frame_delay: the delay of the last decoded frame, never below 1 ms. */
    method GetFrameDelay() returns (err: Err, delayMs: int)
      requires Valid()
      ensures err == (if initialized then Ok else InvalidState)
      ensures err == Ok ==> delayMs == currentFrameDelayMs && delayMs >= 1
    {
      if !initialized {
        return InvalidState, 0;
      }
      return Ok, currentFrameDelayMs;
    }

    /** get_info: the canvas and counted frames; a GIF always reports transparency. */
    method GetInfo() returns (err: Err, out: DecoderInfo)
      ensures err == (if initialized then Ok else InvalidState)
      ensures err == Ok ==> out == DecoderInfo(canvasWidth, canvasHeight, frameCount, true)
    {
      if !initialized {
        return InvalidState, DecoderInfo(0, 0, 0, false);
      }
      return Ok, DecoderInfo(canvasWidth, canvasHeight, frameCount, true);
    }
  }
}
