/**
 * The bouncing motion of the "next" button in game/ui/next_button.py: its
 * position animator's `on_stop` callback re-enters `start` with the opposite
 * displacement, so the animator never comes to rest.
 */
module NextButton {
  import opened Animation

  const Displace: real := 0.001

  class NextButtonMotion {
    const positionAnimator: Animator

    ghost predicate Valid()
      reads this, positionAnimator
    {
      && positionAnimator.Valid()
      && positionAnimator.lerper == Lerper(EaseInOut, 1000)
      && positionAnimator.isAnimating
      && (positionAnimator.targetValue == Displace || positionAnimator.targetValue == -Displace)
    }

    constructor ()
      ensures Valid() && fresh(positionAnimator)
      ensures positionAnimator.currentValue == -Displace
      ensures positionAnimator.targetValue == Displace
    {
      positionAnimator := new Animator(Lerper(EaseInOut, 1000), -Displace);
      new;
      positionAnimator.Start(Displace);
    }

    /** The `on_stop` callback: head back the other way. */
    method ReverseAnimator(oldTarget: real)
      requires positionAnimator.Valid()
      modifies positionAnimator
      ensures positionAnimator.Valid() && positionAnimator.isAnimating && positionAnimator.timeElapsed == 0
      ensures positionAnimator.targetValue == if oldTarget == Displace then -Displace else Displace
      ensures positionAnimator.currentValue == old(positionAnimator.currentValue)
    {
      var newTarget := if oldTarget == Displace then -Displace else Displace;
      positionAnimator.Start(newTarget);
    }

    /**
     * One frame of `render`: advance the animator, run `on_stop` if the run
     * completed, and return the displacement the frame reports.
     */
    method Render(deltaTime: nat) returns (y: real)
      requires Valid()
      modifies positionAnimator
      ensures Valid()
      ensures y == old(positionAnimator.currentValue)
        + Interpolate(positionAnimator.lerper, old(positionAnimator.timeElapsed) + deltaTime)
          * old(positionAnimator.difference)
      ensures old(positionAnimator.timeElapsed) + deltaTime >= 1000 ==>
        && y == old(positionAnimator.targetValue)
        && positionAnimator.currentValue == old(positionAnimator.targetValue)
        && positionAnimator.targetValue == -old(positionAnimator.targetValue)
        && positionAnimator.timeElapsed == 0
      ensures old(positionAnimator.timeElapsed) + deltaTime < 1000 ==>
        && positionAnimator.currentValue == old(positionAnimator.currentValue)
        && positionAnimator.targetValue == old(positionAnimator.targetValue)
        && positionAnimator.timeElapsed == old(positionAnimator.timeElapsed) + deltaTime
    {
      ghost var oldTarget := positionAnimator.targetValue;
      var outcome := positionAnimator.Frame(deltaTime);
      if outcome.Finished? {
        assert outcome.finalValue == oldTarget;
        ReverseAnimator(outcome.finalValue);
        assert positionAnimator.targetValue == -oldTarget;
      } else {
        assert positionAnimator.targetValue == oldTarget;
      }
      y := outcome.value;
    }
  }
}
