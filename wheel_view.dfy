/**
  The animation state one wheel owns (src/components/Wheel.jsx): the CSS
  rotation of the disc and its transition, overwritten by two effects, one
  that turns the disc to the selected slice while a spin runs and one that
  snaps it back to zero once the selection is cleared.
 */
module WheelView {
  import opened Wrappers
  import opened WheelGeometry

  /** The CSS `transition` of the disc: `'none'`, or an eased turn over `durationMs`. */
  datatype Transition = Instant | Eased(durationMs: nat)

  class Wheel {
    var rotation: real
    var transition: Transition

    constructor ()
      ensures rotation == 0.0 && transition == Instant
    {
      rotation := 0.0;
      transition := Instant;
    }

    /**
      The target-rotation effect: while spinning with a selected index, the
      rotation is set to the target for that index, whatever it was before;
      otherwise nothing changes.
     */
    method SpinEffect(spinning: bool, selectedIndex: Option<nat>, itemCount: nat, durationMs: nat)
      modifies this
      ensures spinning && selectedIndex.Some? ==>
                rotation == TargetDeg(selectedIndex.value, SliceCount(itemCount)) &&
                transition == Eased(durationMs)
      ensures !(spinning && selectedIndex.Some?) ==>
                rotation == old(rotation) && transition == old(transition)
    {
      var n := SliceCount(itemCount);
      if !spinning || selectedIndex.None? || n == 0 {
        return;
      }
      var targetDeg := TargetDeg(selectedIndex.value, n);
      transition := Eased(durationMs);
      rotation := targetDeg;
    }

    /** The reset effect: idle with nothing selected snaps the disc to 0 without a transition. */
    method ResetEffect(spinning: bool, selectedIndex: Option<nat>)
      modifies this
      ensures !spinning && selectedIndex.None? ==> rotation == 0.0 && transition == Instant
      ensures !(!spinning && selectedIndex.None?) ==>
                rotation == old(rotation) && transition == old(transition)
    {
      if !spinning && selectedIndex.None? {
        transition := Instant;
        rotation := 0.0;
      }
    }

    /**
      One render with the given props: both effects run. At most one of them
      acts, since one needs `spinning` and the other needs it false.
     */
    method Render(spinning: bool, selectedIndex: Option<nat>, itemCount: nat, durationMs: nat)
      modifies this
      ensures spinning && selectedIndex.Some? ==>
                rotation == TargetDeg(selectedIndex.value, SliceCount(itemCount)) &&
                transition == Eased(durationMs)
      ensures !spinning && selectedIndex.None? ==> rotation == 0.0 && transition == Instant
      ensures !spinning && selectedIndex.Some? ==>
                rotation == old(rotation) && transition == old(transition)
      ensures spinning && selectedIndex.None? ==>
                rotation == old(rotation) && transition == old(transition)
    {
      SpinEffect(spinning, selectedIndex, itemCount, durationMs);
      ResetEffect(spinning, selectedIndex);
    }
  }
}
