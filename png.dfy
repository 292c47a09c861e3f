// main/png_animation_decoder.c: a still PNG shown as a one-frame animation.
// libpng is an oracle for the header and pixels; the adapter's own logic is
// the in-memory read callback, the signature and size checks, the choice of
// transforms that turn any PNG into 8-bit RGBA, and the row layout.
module PngDecoder {
  import opened Esp

  /** PNG_STATIC_FRAME_DELAY_MS. */
  const StaticFrameDelayMs: int := 100

  /** The eight signature bytes png_sig_cmp compares. */
  const Signature: seq<Byte> := [137, 80, 78, 71, 13, 10, 26, 10]

  predicate HasSignature(data: seq<Byte>)
  {
    |data| >= 8 && data[..8] == Signature
  }

  /** The read cursor over the file: the bytes read and the new offset, or None past the end. */
  function ReadAt(file: seq<Byte>, offset: nat, length: nat): (r: Option<(seq<Byte>, nat)>)
    ensures r.Some? <==> offset + length <= |file|
    ensures r.Some? ==> |r.value.0| == length && r.value.1 == offset + length
  {
    if offset + length > |file| then None else Some((file[offset..offset + length], offset + length))
  }

  /**
   * Two reads in a row take the same bytes as one read of both lengths, and
   * the second fails exactly when the combined read would.
   */
  lemma ReadsCompose(file: seq<Byte>, offset: nat, a: nat, b: nat)
    requires ReadAt(file, offset, a).Some?
    ensures var second := ReadAt(file, offset + a, b);
      var both := ReadAt(file, offset, a + b);
      second.Some? == both.Some?
      && (both.Some? ==> ReadAt(file, offset, a).value.0 + second.value.0 == both.value.0
                         && second.value.1 == both.value.1)
  {
    if offset + a + b <= |file| {
      assert file[offset..offset + a] + file[offset + a..offset + a + b] == file[offset..offset + a + b];
    }
  }

  /** png_read_from_memory's cursor over the file handed to init. */
  class Reader {
    const file: seq<Byte>
    var offset: nat

    constructor (file: seq<Byte>)
      ensures this.file == file && offset == 0
    {
      this.file := file;
      offset := 0;
    }

    /**
     * A read past the end is an error and leaves the offset where it was;
     * otherwise the next length bytes are copied and the offset advances.
     */
    method Read(length: nat, into: array<Byte>) returns (ok: bool)
      requires into.Length >= length
      modifies this`offset, into
      ensures ok <==> ReadAt(file, old(offset), length).Some?
      ensures ok ==> (into[..length] == ReadAt(file, old(offset), length).value.0
                      && offset == ReadAt(file, old(offset), length).value.1
                      && into[length..] == old(into[length..]))
      ensures !ok ==> unchanged(this) && unchanged(into)
    {
      if offset + length > |file| {
        return false;
      }
      var start := offset;
      forall i | 0 <= i < length {
        into[i] := file[start + i];
      }
      offset := offset + length;
      ok := true;
    }
  }

  /** The PNG colour types and the alpha bit of PNG_COLOR_MASK_ALPHA. */
  const Gray: bv8 := 0
  const Rgb: bv8 := 2
  const Palette: bv8 := 3
  const GrayAlpha: bv8 := 4
  const RgbAlpha: bv8 := 6
  const AlphaMask: bv8 := 4

  /** The colour type and bit depth combinations the PNG format allows. */
  predicate ValidFormat(colorType: bv8, bitDepth: nat)
  {
    (colorType == Gray && bitDepth in {1, 2, 4, 8, 16})
    || (colorType == Palette && bitDepth in {1, 2, 4, 8})
    || (colorType in {Rgb, GrayAlpha, RgbAlpha} && bitDepth in {8, 16})
  }

  /** What png_read_info reports. */
  datatype Header = Header(width: nat, height: nat, colorType: bv8, bitDepth: nat, hasTrns: bool)

  /** The libpng transforms the adapter requests. */
  datatype Transforms = Transforms(strip16: bool, paletteToRgb: bool, expandGray: bool,
                                   trnsToAlpha: bool, grayToRgb: bool, addAlpha: bool)

  /** The transform choice in png_decoder_init. */
  function Choose(h: Header): Transforms
  {
    Transforms(
      h.bitDepth == 16,
      h.colorType == Palette,
      h.colorType == Gray && h.bitDepth < 8,
      h.hasTrns,
      h.colorType == Gray || h.colorType == GrayAlpha,
      h.colorType & AlphaMask == 0)
  }

  /** The pixel layout after the transforms, by what each one does in libpng. */
  datatype Layout = Layout(bitDepth: nat, colour: bool, alpha: bool)

  function Output(h: Header, t: Transforms): Layout
  {
    var depth := if t.strip16 || t.paletteToRgb || t.expandGray then 8 else h.bitDepth;
    var colour := h.colorType in {Rgb, RgbAlpha} || t.paletteToRgb || t.grayToRgb;
    var alpha := h.colorType & AlphaMask != 0 || t.trnsToAlpha || t.addAlpha;
    Layout(depth, colour, alpha)
  }

  /**
   * Whatever the colour type and bit depth, the chosen transforms give 8-bit
   * RGB with an alpha channel: four bytes per pixel.
   */
  lemma ChosenTransformsGiveRgba8(h: Header)
    requires ValidFormat(h.colorType, h.bitDepth)
    ensures Output(h, Choose(h)) == Layout(8, true, true)
  {
  }

  /** Each depth transform is needed: without strip_16 a 16-bit image stays 16-bit. */
  lemma Strip16Needed(h: Header)
    requires ValidFormat(h.colorType, h.bitDepth) && h.bitDepth == 16
    ensures Output(h, Choose(h).(strip16 := false)).bitDepth == 16
  {
  }

  /** The filler is added exactly when the image has no alpha channel of its own. */
  lemma FillerOnlyWithoutAlpha(h: Header)
    requires ValidFormat(h.colorType, h.bitDepth)
    ensures Choose(h).addAlpha <==> h.colorType in {Gray, Rgb, Palette}
  {
  }

  /** has_transparency: an alpha channel or a tRNS chunk. */
  predicate HasTransparency(h: Header)
  {
    h.colorType & AlphaMask != 0 || h.hasTrns
  }

  /** For a well-formed image: transparent exactly for the alpha colour types or a tRNS chunk. */
  lemma TransparencyByColourType(h: Header)
    requires ValidFormat(h.colorType, h.bitDepth)
    ensures HasTransparency(h) <==> h.colorType in {GrayAlpha, RgbAlpha} || h.hasTrns
  {
  }

  /**
   * png_decoder_init's verdict: INVALID_ARG for an empty file or a bad
   * signature, FAIL when libpng reports an error (header is None), and
   * INVALID_SIZE for an empty picture.
   */
  function InitError(data: seq<Byte>, header: Option<Header>): (err: Err)
    ensures err == Ok <==> HasSignature(data) && header.Some? && header.value.width > 0 && header.value.height > 0
    ensures !HasSignature(data) ==> err == InvalidArg
    ensures HasSignature(data) && header.None? ==> err == Fail
    ensures HasSignature(data) && header.Some? && (header.value.width == 0 || header.value.height == 0) ==>
      err == InvalidSize
  {
    if |data| == 0 then InvalidArg
    else if !HasSignature(data) then InvalidArg
    else if header.None? then Fail
    else if header.value.width == 0 || header.value.height == 0 then InvalidSize
    else Ok
  }

  /** The row pointers libpng fills: row y starts y * width * 4 bytes into the picture. */
  method RowOffsets(width: nat, height: nat) returns (rows: array<nat>)
    ensures fresh(rows) && rows.Length == height
    ensures forall y :: 0 <= y < height ==> rows[y] == y * width * 4
  {
    rows := new nat[height];
    var y := 0;
    while y < height
      invariant 0 <= y <= height
      invariant forall k :: 0 <= k < y ==> rows[k] == k * width * 4
    {
      rows[y] := y * width * 4;
      y := y + 1;
    }
  }

  /** The rows tile the picture: each follows the previous one and the last ends at its end. */
  lemma RowsTilePicture(width: nat, height: nat, y: nat)
    requires y < height
    ensures (y + 1) * width * 4 == y * width * 4 + width * 4
    ensures y * width * 4 + width * 4 <= width * height * 4
  {
    assert (y + 1) * width <= height * width by {
      MulLe(y + 1, height, width);
    }
  }

  /** The row-pointer loop: libpng fills row y at its offset, so the picture is the pixels in order. */
  method CopyRows(rgba: array<Byte>, rows: array<nat>, pixels: seq<Byte>, width: nat, height: nat)
    requires rows.Length == height && rgba.Length == width * height * 4 && |pixels| >= width * height * 4
    requires forall y :: 0 <= y < height ==> rows[y] == y * width * 4
    modifies rgba
    ensures rgba[..] == pixels[..width * height * 4]
  {
    var y := 0;
    while y < height
      invariant 0 <= y <= height
      invariant forall i :: 0 <= i < y * width * 4 ==> rgba[i] == pixels[i]
    {
      RowsTilePicture(width, height, y);
      var start := rows[y];
      forall i | 0 <= i < width * 4 {
        rgba[start + i] := pixels[start + i];
      }
      y := y + 1;
    }
    assert height * width * 4 == width * height * 4;
  }

  lemma MulLe(a: nat, b: nat, c: nat)
    requires a <= b
    ensures a * c <= b * c
  {
  }

  /** An opened PNG (png_decoder_data_t): the decoded picture and the delay. */
  class Png {
    const canvasWidth: nat
    const canvasHeight: nat
    const hasTransparency: bool
    const frame: array<Byte>
    var currentFrameDelayMs: int
    var initialized: bool

    function Size(): nat
    {
      canvasWidth * canvasHeight * 4
    }

    ghost predicate Valid()
    {
      frame.Length == Size()
    }

    /** The state init leaves behind: the picture libpng decoded into the rows, delay 100 ms. */
    constructor (h: Header, frame: array<Byte>)
      requires h.width > 0 && h.height > 0 && frame.Length == h.width * h.height * 4
      ensures Valid() && this.frame == frame && initialized
      ensures canvasWidth == h.width && canvasHeight == h.height
      ensures hasTransparency == HasTransparency(h)
      ensures currentFrameDelayMs == StaticFrameDelayMs
    {
      canvasWidth, canvasHeight := h.width, h.height;
      hasTransparency := HasTransparency(h);
      this.frame := frame;
      currentFrameDelayMs := StaticFrameDelayMs;
      initialized := true;
    }

    /**
     * png_decoder_init once libpng has read the header and the pixels: the
     * rows are laid out one after another in a single RGBA picture.
     */
    static method Init(data: seq<Byte>, header: Option<Header>, pixels: seq<Byte>) returns (err: Err, dec: Option<Png>)
      requires header.Some? ==> |pixels| >= header.value.width * header.value.height * 4
      ensures err == InitError(data, header)
      ensures err == Ok <==> dec.Some?
      ensures dec.Some? ==> (
        fresh(dec.value) && fresh(dec.value.frame) && dec.value.Valid() && dec.value.initialized
        && dec.value.canvasWidth == header.value.width && dec.value.canvasHeight == header.value.height
        && dec.value.hasTransparency == HasTransparency(header.value)
        && dec.value.frame[..] == pixels[..dec.value.Size()])
    {
      err := InitError(data, header);
      if err != Ok {
        return err, None;
      }
      var h := header.value;
      var n := h.width * h.height * 4;
      var rgba := new Byte[n];
      var rows := RowOffsets(h.width, h.height);
      CopyRows(rgba, rows, pixels, h.width, h.height);
      var png := new Png(h, rgba);
      dec := Some(png);
    }

    /** decode_next: every call copies the same picture out and restores the 100 ms delay. */
    method DecodeNext(out: array<Byte>) returns (err: Err)
      requires Valid() && out.Length >= Size() && out != frame
      modifies this`currentFrameDelayMs, out
      ensures err == (if initialized then Ok else InvalidState)
      ensures err != Ok ==> unchanged(this) && unchanged(out)
      ensures err == Ok ==> (
        out[..Size()] == frame[..] && out[Size()..] == old(out[Size()..])
        && currentFrameDelayMs == StaticFrameDelayMs)
    {
      if !initialized {
        return InvalidState;
      }
      var n := frame.Length;
      forall i | 0 <= i < n {
        out[i] := frame[i];
      }
      currentFrameDelayMs := StaticFrameDelayMs;
      err := Ok;
    }

    /** reset: a still picture only restores its delay. */
    method Reset() returns (err: Err)
      modifies this`currentFrameDelayMs
      ensures err == (if initialized then Ok else InvalidState)
      ensures err == Ok ==> currentFrameDelayMs == StaticFrameDelayMs
      ensures err != Ok ==> unchanged(this)
    {
      if !initialized {
        return InvalidState;
      }
      currentFrameDelayMs := StaticFrameDelayMs;
      err := Ok;
    }

    method GetFrameDelay() returns (err: Err, delayMs: int)
      ensures err == (if initialized then Ok else InvalidState)
      ensures err == Ok ==> delayMs == currentFrameDelayMs
    {
      if !initialized {
        return InvalidState, 0;
      }
      return Ok, currentFrameDelayMs;
    }

    /** get_info: one frame, transparency as the header showed it. */
    method GetInfo() returns (err: Err, info: DecoderInfo)
      ensures err == (if initialized then Ok else InvalidState)
      ensures err == Ok ==> info == DecoderInfo(canvasWidth, canvasHeight, 1, hasTransparency)
    {
      if !initialized {
        return InvalidState, DecoderInfo(0, 0, 0, false);
      }
      return Ok, DecoderInfo(canvasWidth, canvasHeight, 1, hasTransparency);
    }
  }
}
