// The touch task: it polls the touch controller, and on each new press
// resets the auto-swap timer and cycles the playlist backward for a touch
// on the left half of the screen, forward for one on the right half.
module Touch {
  import opened Esp
  import AnimationPlayer
  import Lcd

  /** One poll of the controller: whether it reported a press, the touch count, and the first point's x. */
  datatype Sample = Sample(pressed: bool, count: nat, x: nat)

  /** What one poll makes the task do. */
  datatype Action = NoAction | Backward | Forward

  /** A poll that counts as touching: pressed with at least one point. */
  predicate Touching(s: Sample)
  {
    s.pressed && s.count > 0
  }

  /** The left/right boundary, half the panel width. */
  function Midpoint(hRes: nat): nat
  {
    hRes / 2
  }

  /** Poll i starts a touch: it touches and the poll before it (if any) did not. */
  predicate PressEdge(samples: seq<Sample>, i: nat)
    requires i < |samples|
  {
    Touching(samples[i]) && (i == 0 || !Touching(samples[i - 1]))
  }

  /** The action of poll i: a press edge cycles by the side of the screen touched, anything else does nothing. */
  function ActionAt(samples: seq<Sample>, i: nat, hRes: nat): Action
    requires i < |samples|
  {
    if !PressEdge(samples, i) then NoAction
    else if samples[i].x < Midpoint(hRes) then Backward
    else Forward
  }

  /** The actions of a run of polls, one per poll. */
  function Actions(samples: seq<Sample>, hRes: nat): (r: seq<Action>)
    ensures |r| == |samples|
  {
    seq(|samples|, i requires 0 <= i < |samples| => ActionAt(samples, i, hRes))
  }

  /** How many actions cycle the playlist (and so reset the auto-swap timer). */
  function Presses(actions: seq<Action>): nat
  {
    if |actions| == 0 then 0
    else Presses(actions[..|actions| - 1]) + (if actions[|actions| - 1] == NoAction then 0 else 1)
  }

  /** The player state after the cycles the actions request, in order. */
  function Apply(s: AnimationPlayer.Pipeline, actions: seq<Action>): AnimationPlayer.Pipeline
  {
    if |actions| == 0 then s
    else
      var before := Apply(s, actions[..|actions| - 1]);
      match actions[|actions| - 1]
      case NoAction => before
      case Backward => AnimationPlayer.Cycle(before, false)
      case Forward => AnimationPlayer.Cycle(before, true)
  }

  /**
   * app_touch_task over a finite run of polls: the endless loop with its
   * 'touch_active' flag, the timer reset and the cycle wrappers it calls.
   */
  method TouchTask(p: AnimationPlayer.Player, samples: seq<Sample>, hRes: nat)
    returns (actions: seq<Action>, timerResets: nat)
    modifies p
    ensures actions == Actions(samples, hRes)
    ensures timerResets == Presses(actions)
    ensures p.State() == Apply(old(p.State()), actions)
  {
    var touchActive := false;
    actions := [];
    timerResets := 0;
    var i := 0;
    while i < |samples|
      invariant 0 <= i <= |samples|
      invariant |actions| == i
      invariant forall k :: 0 <= k < i ==> actions[k] == ActionAt(samples, k, hRes)
      invariant touchActive == (i > 0 && Touching(samples[i - 1]))
      invariant timerResets == Presses(actions)
      invariant p.State() == Apply(old(p.State()), actions)
    {
      var s := samples[i];
      var action := NoAction;
      if s.pressed && s.count > 0 {
        if !touchActive {
          var midpoint := hRes / 2;
          timerResets := timerResets + 1;
          if s.x < midpoint {
            Lcd.CycleAnimationBackward(p);
            action := Backward;
          } else {
            Lcd.CycleAnimation(p);
            action := Forward;
          }
        }
        touchActive := true;
      } else if touchActive {
        touchActive := false;
      }
      assert (actions + [action])[..i] == actions;
      actions := actions + [action];
      i := i + 1;
    }
    assert actions == Actions(samples, hRes);
  }

  /** A touch held over any number of polls cycles once, at its first poll. */
  lemma {:induction false} HoldFiresOnce(samples: seq<Sample>, hRes: nat)
    requires |samples| > 0
    requires forall i :: 0 <= i < |samples| ==> Touching(samples[i])
    ensures Presses(Actions(samples, hRes)) == 1
  {
    var n := |samples|;
    if n == 1 {
      var a := Actions(samples, hRes);
      assert a[..0] == [];
      assert a[0] != NoAction;
    } else {
      var init := samples[..n - 1];
      HoldFiresOnce(init, hRes);
      var a := Actions(samples, hRes);
      assert a[..n - 1] == Actions(init, hRes);
      assert a[n - 1] == NoAction;
    }
  }

  /** Between two presses there is a poll that does not touch: a held touch never re-fires. */
  lemma PressesSeparatedByRelease(samples: seq<Sample>, hRes: nat, i: nat, j: nat)
    requires i < j < |samples|
    requires ActionAt(samples, i, hRes) != NoAction && ActionAt(samples, j, hRes) != NoAction
    ensures exists k :: i < k < j && !Touching(samples[k])
  {
    assert !Touching(samples[j - 1]);
  }

  /** A press edge goes backward exactly when it lands left of the midpoint, and resets the timer either way. */
  lemma DirectionBySide(samples: seq<Sample>, hRes: nat, i: nat)
    requires i < |samples| && PressEdge(samples, i)
    ensures ActionAt(samples, i, hRes) == Backward <==> samples[i].x < hRes / 2
    ensures ActionAt(samples, i, hRes) == Forward <==> samples[i].x >= hRes / 2
    ensures Presses(Actions(samples, hRes)[..i + 1]) == Presses(Actions(samples, hRes)[..i]) + 1
  {
    var a := Actions(samples, hRes);
    assert a[..i + 1][..i] == a[..i];
  }

  /** A poll that is not touching does nothing, whatever came before. */
  lemma ReleaseDoesNothing(samples: seq<Sample>, hRes: nat, i: nat)
    requires i < |samples| && !Touching(samples[i])
    ensures Actions(samples, hRes)[i] == NoAction
    ensures forall s :: Apply(s, Actions(samples, hRes)[..i + 1]) == Apply(s, Actions(samples, hRes)[..i])
  {
    var a := Actions(samples, hRes);
    assert a[..i + 1][..i] == a[..i];
  }
}
