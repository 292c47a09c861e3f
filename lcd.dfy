// The display glue of the firmware: the frame-buffer geometry app_lcd_init
// derives from the panel driver's buffer addresses before it starts the
// player, and the thin wrappers through which the touch and HTTP layers
// drive the player.
module Lcd {
  import opened Esp
  import AnimationPlayer

  /** Row stride and whole-buffer size, in bytes, handed to the player. */
  datatype Layout = Layout(rowStrideBytes: nat, frameBufferBytes: nat)

  /** The values the statics hold before app_lcd_init runs. */
  function StaticLayout(hRes: nat, vRes: nat, bitsPerPixel: nat): Layout
  {
    Layout(hRes * (bitsPerPixel / 8), hRes * vRes * (bitsPerPixel / 8))
  }

  /** A tightly packed layout: each row is exactly hRes pixels wide. */
  function PackedLayout(hRes: nat, vRes: nat, bytesPerPixel: nat): Layout
  {
    Layout(hRes * bytesPerPixel, hRes * bytesPerPixel * vRes)
  }

  /**
   * The driver's measured buffer spacing is used instead of the packed one:
   * at least two buffers, both non-NULL, the second above the first, the
   * spacing a whole number of rows and those rows no narrower than packed.
   */
  predicate AdoptsSpacing(hRes: nat, vRes: nat, bytesPerPixel: nat, bufferCount: nat,
                          buf0: Option<nat>, buf1: Option<nat>)
    requires vRes > 0
  {
    bufferCount > 1 && buf0.Some? && buf1.Some? && buf1.value > buf0.value &&
    (buf1.value - buf0.value) % vRes == 0 &&
    (buf1.value - buf0.value) / vRes >= hRes * bytesPerPixel
  }

  /** The geometry app_lcd_init settles on once bytes per pixel is non-zero. */
  function DerivedLayout(hRes: nat, vRes: nat, bytesPerPixel: nat, bufferCount: nat,
                         buf0: Option<nat>, buf1: Option<nat>): Layout
    requires vRes > 0
  {
    if AdoptsSpacing(hRes, vRes, bytesPerPixel, bufferCount, buf0, buf1)
    then Layout((buf1.value - buf0.value) / vRes, buf1.value - buf0.value)
    else PackedLayout(hRes, vRes, bytesPerPixel)
  }

  /** Whichever branch is taken, the buffer is vRes rows of the stride and a row holds a full line of pixels. */
  lemma LayoutInvariant(hRes: nat, vRes: nat, bytesPerPixel: nat, bufferCount: nat,
                        buf0: Option<nat>, buf1: Option<nat>)
    requires vRes > 0
    ensures DerivedLayout(hRes, vRes, bytesPerPixel, bufferCount, buf0, buf1).frameBufferBytes ==
            DerivedLayout(hRes, vRes, bytesPerPixel, bufferCount, buf0, buf1).rowStrideBytes * vRes
    ensures DerivedLayout(hRes, vRes, bytesPerPixel, bufferCount, buf0, buf1).rowStrideBytes >= hRes * bytesPerPixel
  {
    if AdoptsSpacing(hRes, vRes, bytesPerPixel, bufferCount, buf0, buf1) {
      var spacing := buf1.value - buf0.value;
      assert spacing == (spacing / vRes) * vRes + spacing % vRes;
    }
  }

  /** The spacing is adopted exactly when its conditions hold; otherwise the packed layout stays. */
  lemma SpacingAdoptedIff(hRes: nat, vRes: nat, bytesPerPixel: nat, bufferCount: nat,
                          buf0: Option<nat>, buf1: Option<nat>)
    requires vRes > 0
    ensures AdoptsSpacing(hRes, vRes, bytesPerPixel, bufferCount, buf0, buf1) ==>
            DerivedLayout(hRes, vRes, bytesPerPixel, bufferCount, buf0, buf1).frameBufferBytes == buf1.value - buf0.value
    ensures !AdoptsSpacing(hRes, vRes, bytesPerPixel, bufferCount, buf0, buf1) ==>
            DerivedLayout(hRes, vRes, bytesPerPixel, bufferCount, buf0, buf1) == PackedLayout(hRes, vRes, bytesPerPixel)
    ensures bufferCount <= 1 ==>
            DerivedLayout(hRes, vRes, bytesPerPixel, bufferCount, buf0, buf1) == PackedLayout(hRes, vRes, bytesPerPixel)
  {
  }

  /** The statics' initial values already are the packed layout for the configured depth. */
  lemma StaticIsPacked(hRes: nat, vRes: nat, bitsPerPixel: nat)
    ensures StaticLayout(hRes, vRes, bitsPerPixel) == PackedLayout(hRes, vRes, bitsPerPixel / 8)
  {
    var bpp := bitsPerPixel / 8;
    assert hRes * vRes * bpp == hRes * bpp * vRes by {
      MulCommutes(vRes, bpp, hRes);
    }
  }

  lemma MulCommutes(a: nat, b: nat, c: nat)
    ensures c * a * b == c * b * a
  {
  }

  /** The display module's statics: the panel geometry and the layout handed to the player. */
  class Display {
    const hRes: nat
    const vRes: nat
    const bitsPerPixel: nat
    const bufNum: nat
    var layout: Layout
    var bufferCount: nat

    constructor (hRes: nat, vRes: nat, bitsPerPixel: nat, bufNum: nat)
      ensures this.hRes == hRes && this.vRes == vRes && this.bitsPerPixel == bitsPerPixel && this.bufNum == bufNum
      ensures layout == StaticLayout(hRes, vRes, bitsPerPixel) && bufferCount == bufNum
    {
      this.hRes := hRes;
      this.vRes := vRes;
      this.bitsPerPixel := bitsPerPixel;
      this.bufNum := bufNum;
      layout := StaticLayout(hRes, vRes, bitsPerPixel);
      bufferCount := bufNum;
    }

    /**
     * app_lcd_init after the panel is up: buf0 and buf1 are the driver's frame
     * buffer addresses (None for NULL); playerInit and playerStart are what
     * animation_player_init and animation_player_start return.
     */
    method Init(buf0: Option<nat>, buf1: Option<nat>, playerInit: Err, playerStart: Err) returns (err: Err)
      requires vRes > 0
      modifies this
      ensures bufferCount == bufNum
      ensures bitsPerPixel / 8 == 0 ==> err == InvalidState && layout == old(layout)
      ensures bitsPerPixel / 8 > 0 ==> layout == DerivedLayout(hRes, vRes, bitsPerPixel / 8, bufNum, buf0, buf1)
      ensures bitsPerPixel / 8 > 0 ==> err == (if playerInit != Ok then playerInit else playerStart)
    {
      bufferCount := bufNum;
      var bytesPerPixel := bitsPerPixel / 8;
      if bytesPerPixel == 0 {
        return InvalidState;
      }
      var stride := hRes * bytesPerPixel;
      var bytes := stride * vRes;
      layout := Layout(stride, bytes);
      if bufferCount > 1 && buf0.Some? && buf1.Some? && buf1.value > buf0.value {
        var spacing := buf1.value - buf0.value;
        if spacing > 0 && spacing % vRes == 0 {
          var candidate := spacing / vRes;
          if candidate >= stride {
            layout := Layout(candidate, spacing);
          }
        }
      }
      if playerInit != Ok {
        return playerInit;
      }
      if playerStart != Ok {
        return playerStart;
      }
      return Ok;
    }
  }

  /** app_lcd_set_animation_paused. */
  method SetAnimationPaused(p: AnimationPlayer.Player, paused: bool)
    modifies p
    ensures p.State() == AnimationPlayer.SetPaused(old(p.State()), paused)
  {
    p.SetPausedTo(paused);
  }

  /** app_lcd_toggle_animation_pause. */
  method ToggleAnimationPause(p: AnimationPlayer.Player)
    modifies p
    ensures p.State() == AnimationPlayer.TogglePause(old(p.State()))
  {
    p.Toggle();
  }

  /** app_lcd_is_animation_paused. */
  method IsAnimationPaused(p: AnimationPlayer.Player) returns (paused: bool)
    ensures paused == p.paused
  {
    paused := p.IsPaused();
  }

  /** app_lcd_cycle_animation: one step forward through the playlist. */
  method CycleAnimation(p: AnimationPlayer.Player)
    modifies p
    ensures p.State() == AnimationPlayer.Cycle(old(p.State()), true)
  {
    p.CycleAnimation(true);
  }

  /** app_lcd_cycle_animation_backward: one step backward through the playlist. */
  method CycleAnimationBackward(p: AnimationPlayer.Player)
    modifies p
    ensures p.State() == AnimationPlayer.Cycle(old(p.State()), false)
  {
    p.CycleAnimation(false);
  }

  /** app_lcd_cycle_to_random. */
  method CycleToRandom(p: AnimationPlayer.Player) returns (target: nat)
    modifies p
    ensures AnimationPlayer.RandomPickAllowed(old(p.State()), target)
    ensures p.State() == AnimationPlayer.CycleToRandom(old(p.State()), target)
  {
    target := p.CycleToRandomEntry();
  }
}
