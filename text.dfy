// The width arithmetic of the frame-duration overlay in main/animation_player.c:
// how far each glyph advances the cursor, how wide a string is, and where a
// right-aligned string starts. The glyph bitmaps themselves are not modelled.
module TextOverlay {
  /** Width in font units of a digit glyph (DIGIT_WIDTH). */
  const DigitWidth: int := 5

  /** The scale the drawing helpers fall back to when given a non-positive one. */
  function EffectiveScale(scale: int): (r: int)
    ensures r >= 1
    ensures scale >= 1 ==> r == scale
  {
    if scale <= 0 then 1 else scale
  }

  predicate IsDigit(c: char)
  {
    '0' <= c <= '9'
  }

  /**
   * char_pixel_width: a digit or a minus sign is a glyph plus one unit of
   * spacing, a decimal point or comma is two units, anything else three.
   */
  function CharPixelWidth(c: char, scale: int): (w: int)
    ensures var s := EffectiveScale(scale);
      w == (if IsDigit(c) || c == '-' then (DigitWidth + 1) * s else if c == '.' || c == ',' then 2 * s else 3 * s)
    ensures w >= 2 * EffectiveScale(scale)
  {
    var s := EffectiveScale(scale);
    if IsDigit(c) then DigitWidth * s + s
    else if c == '.' || c == ',' then s * 2
    else if c == '-' then DigitWidth * s + s
    else s * 3
  }

  /** The sum of the advances of the characters of text. */
  function TextWidth(text: string, scale: int): int
  {
    if text == [] then 0 else TextWidth(text[..|text| - 1], scale) + CharPixelWidth(text[|text| - 1], scale)
  }

  /** The width of two strings side by side is the sum of their widths. */
  lemma {:induction false} TextWidthAppend(a: string, b: string, scale: int)
    ensures TextWidth(a + b, scale) == TextWidth(a, scale) + TextWidth(b, scale)
    decreases |b|
  {
    if b != [] {
      var b' := b[..|b| - 1];
      assert (a + b)[..|a + b| - 1] == a + b';
      assert (a + b)[|a + b| - 1] == b[|b| - 1];
      TextWidthAppend(a, b', scale);
    } else {
      assert a + b == a;
    }
  }

  /** Every character widens the text by at least two scale units. */
  lemma {:induction false} TextWidthLowerBound(text: string, scale: int)
    ensures TextWidth(text, scale) >= 2 * EffectiveScale(scale) * |text|
    decreases |text|
  {
    if text != [] {
      var n, u := |text|, EffectiveScale(scale);
      TextWidthLowerBound(text[..n - 1], scale);
      assert 2 * u * n == 2 * u * (n - 1) + 2 * u;
    }
  }

  /** A string of n digits is n glyphs of six units. */
  lemma {:induction false} DigitsWidth(text: string, scale: int)
    requires forall i :: 0 <= i < |text| ==> IsDigit(text[i])
    ensures TextWidth(text, scale) == (DigitWidth + 1) * EffectiveScale(scale) * |text|
    decreases |text|
  {
    if text != [] {
      var n, u := |text|, EffectiveScale(scale);
      DigitsWidth(text[..n - 1], scale);
      assert (DigitWidth + 1) * u * n == (DigitWidth + 1) * u * (n - 1) + (DigitWidth + 1) * u;
    }
  }

  /** measure_text_width: 0 for a non-positive scale, otherwise the sum of the advances. */
  method MeasureTextWidth(text: string, scale: int) returns (width: int)
    ensures scale <= 0 ==> width == 0
    ensures scale > 0 ==> width == TextWidth(text, scale)
  {
    if scale <= 0 {
      return 0;
    }
    width := 0;
    var i := 0;
    while i < |text|
      invariant 0 <= i <= |text|
      invariant width == TextWidth(text[..i], scale)
    {
      assert text[..i + 1][..i] == text[..i];
      width := width + CharPixelWidth(text[i], scale);
      i := i + 1;
    }
    assert text[..|text|] == text;
  }

  /**
   * draw_text's cursor: the x at which each character is drawn, starting at
   * x and advancing by each character's width.
   */
  method GlyphPositions(text: string, x: int, scale: int) returns (xs: seq<int>)
    ensures |xs| == |text|
    ensures forall i :: 0 <= i < |text| ==> xs[i] == x + TextWidth(text[..i], scale)
  {
    var s := EffectiveScale(scale);
    var cursor := x;
    xs := [];
    var i := 0;
    while i < |text|
      invariant 0 <= i <= |text| && |xs| == i
      invariant cursor == x + TextWidth(text[..i], s)
      invariant forall j :: 0 <= j < i ==> xs[j] == x + TextWidth(text[..j], scale)
    {
      assert text[..i + 1][..i] == text[..i];
      ScaleNormalised(text[..i], scale);
      xs := xs + [cursor];
      cursor := cursor + CharPixelWidth(text[i], s);
      i := i + 1;
    }
  }

  /** Widths at a scale equal those at its normalised scale. */
  lemma {:induction false} ScaleNormalised(text: string, scale: int)
    ensures TextWidth(text, EffectiveScale(scale)) == TextWidth(text, scale)
    decreases |text|
  {
    if text != [] {
      ScaleNormalised(text[..|text| - 1], scale);
    }
  }

  /** The left edge of draw_text_top_right on a panel hRes pixels wide, clamped to the panel. */
  method TopRightX(text: string, hRes: int, marginX: int, scale: int) returns (x: int)
    ensures x >= 0
    ensures x == if hRes - marginX - TextWidth(text, EffectiveScale(scale)) < 0 then 0
                 else hRes - marginX - TextWidth(text, EffectiveScale(scale))
  {
    var s := EffectiveScale(scale);
    var width := MeasureTextWidth(text, s);
    x := hRes - marginX - width;
    if x < 0 {
      x := 0;
    }
  }

  /** When the text fits, it ends exactly marginX pixels before the right edge. */
  lemma RightAligned(text: string, hRes: int, marginX: int, scale: int)
    requires TextWidth(text, scale) <= hRes - marginX
    ensures var x := hRes - marginX - TextWidth(text, EffectiveScale(scale));
      x >= 0 && x + TextWidth(text, scale) == hRes - marginX
  {
    ScaleNormalised(text, scale);
  }
}
