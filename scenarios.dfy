/**
  Whole-application runs built from the controller and the wheels, stated
  for every random number: what a user sees after a spin, and what the
  buttons' guards rule out.
 */
module Scenarios {
  import opened Wrappers
  import opened Selection
  import opened Controller
  import opened WheelGeometry
  import opened WheelView

  /** With nothing saved, every loaded student starts enabled, so a spin can start. */
  lemma FreshStartCanSpin(terms: seq<Term>, students: seq<Student>)
    requires |terms| > 0 && |students| > 0
    ensures OnIdsChanged({}, Ids(students)) == IdSet(Ids(students))
    ensures CanSpin(terms, students, OnIdsChanged({}, Ids(students)), false)
  {
    assert Ids(students)[0] == students[0].id;
    assert students[0].id in IdSet(Ids(students));
  }

  /**
    One term and two students of which only the second is enabled: every
    draw gives term 0 and student 1.
   */
  method OnlyEnabledStudentIsDrawn(termRand: real, studentRand: real)
    returns (termIdx: Option<nat>, studentIdx: Option<nat>)
    requires 0.0 <= termRand < 1.0 && 0.0 <= studentRand < 1.0
    ensures termIdx == Some(0) && studentIdx == Some(1)
  {
    var terms := [Term("A", "defA")];
    var students := [Student("1", "X"), Student("2", "Y")];
    var c := new SpinController(terms, students, {"2"});
    assert Ids(students) == ["1", "2"];
    assert "2" in IdSet(Ids(students));
    assert c.enabled == {"2"};
    assert students[1].id in c.enabled;
    StudentPickSingle(students, c.enabled, 1, studentRand);
    c.StartSpin(termRand, studentRand);
    termIdx, studentIdx := c.selectedTermIdx, c.selectedStudentIdx;
  }

  /** A saved id that no longer exists falls back to every current student. */
  method StaleSavedIdFallsBack() returns (enabled: set<Id>)
    ensures enabled == {"1", "2"}
  {
    var c := new SpinController([], [Student("1", "X"), Student("2", "Y")], {"9"});
    assert Ids(c.students) == ["1", "2"];
    assert IdSet(["1", "2"]) == {"1", "2"};
    enabled := c.enabled;
  }

  /**
    Starting again while a spin runs is ignored: the draw stays the first
    one and a single completion timer is pending; when it fires the wheels
    are finished and no timer is left.
   */
  method SecondStartIsIgnored(terms: seq<Term>, students: seq<Student>, r1: real, r2: real, r3: real, r4: real)
    returns (first: (Option<nat>, Option<nat>), second: (Option<nat>, Option<nat>),
             pendingAfterStarts: bool, finishedAfterFire: bool, pendingAfterFire: bool)
    requires |terms| > 0 && |students| > 0
    requires 0.0 <= r1 < 1.0 && 0.0 <= r2 < 1.0 && 0.0 <= r3 < 1.0 && 0.0 <= r4 < 1.0
    ensures first.0.Some? && first.1.Some? && first == second
    ensures pendingAfterStarts && finishedAfterFire && !pendingAfterFire
  {
    FreshStartCanSpin(terms, students);
    var c := new SpinController(terms, students, {});
    c.StartSpin(r1, r2);
    first := (c.selectedTermIdx, c.selectedStudentIdx);
    c.StartSpin(r3, r4);
    second := (c.selectedTermIdx, c.selectedStudentIdx);
    pendingAfterStarts := c.pendingTimer;
    c.Fire();
    finishedAfterFire, pendingAfterFire := c.finished, c.pendingTimer;
  }

  /**
    Without the reset button's guard, resetting mid-spin leaves the timer
    pending, and when it fires the controller reports a finished spin with
    nothing drawn; the guard is what keeps this from happening.
   */
  method UnguardedResetLeavesStaleTimer(terms: seq<Term>, students: seq<Student>, r1: real, r2: real)
    returns (resetAllowed: bool, finished: bool, termIdx: Option<nat>, studentIdx: Option<nat>)
    requires |terms| > 0 && |students| > 0
    requires 0.0 <= r1 < 1.0 && 0.0 <= r2 < 1.0
    ensures !resetAllowed
    ensures finished && termIdx == None && studentIdx == None
  {
    FreshStartCanSpin(terms, students);
    var c := new SpinController(terms, students, {});
    c.StartSpin(r1, r2);
    resetAllowed := c.ResetEnabled();
    c.ResetSpin();
    c.Fire();
    finished, termIdx, studentIdx := c.finished, c.selectedTermIdx, c.selectedStudentIdx;
  }

  /**
    A spin seen on screen, for any saved presence set: both wheels stop
    with the drawn slice under the marker, the student slice is the
    student drawn among those enabled after the prune, that student is
    drawn in colour, the wheels stay there when the timer fires, and a
    reset snaps them back to zero.
   */
  method SpinShowsTheDraw(terms: seq<Term>, students: seq<Student>, saved: set<Id>, r1: real, r2: real)
    returns (termSlice: nat, studentSlice: nat, studentFill: Fill,
             termSliceAfterFire: nat, studentSliceAfterFire: nat, rotationAfterReset: real)
    requires |terms| > 0 && |students| > 0
    requires 0.0 <= r1 < 1.0 && 0.0 <= r2 < 1.0
    ensures termSlice == RandomIndex(r1, |terms|) && termSlice < |terms|
    ensures SomeEnabled(students, OnIdsChanged(saved, Ids(students)))
    ensures studentSlice == StudentPick(students, OnIdsChanged(saved, Ids(students)), r2)
    ensures studentSlice < |students| && students[studentSlice].id in OnIdsChanged(saved, Ids(students))
    ensures studentSlice !in DisabledIndices(students, OnIdsChanged(saved, Ids(students)))
    ensures studentFill == Colour(Palette(|students|, Students)[studentSlice])
    ensures termSliceAfterFire == termSlice && studentSliceAfterFire == studentSlice
    ensures rotationAfterReset == 0.0
  {
    LoadedListHasEnabled(saved, students);
    var c := new SpinController(terms, students, saved);
    var termWheel := new Wheel();
    var studentWheel := new Wheel();
    c.StartSpin(r1, r2);
    var t := c.selectedTermIdx.value;
    var s := c.selectedStudentIdx.value;
    termWheel.Render(c.spinning, c.selectedTermIdx, |terms|, SpinDurationMs);
    studentWheel.Render(c.spinning, c.selectedStudentIdx, |students|, SpinDurationMs);
    TargetLandsOnSelected(t, |terms|);
    TargetLandsOnSelected(s, |students|);
    termSlice := SliceUnderMarker(termWheel.rotation, SliceCount(|terms|));
    studentSlice := SliceUnderMarker(studentWheel.rotation, SliceCount(|students|));
    var disabled := DisabledIndices(students, c.enabled);
    studentFill := SliceFill(studentSlice, disabled, Palette(SliceCount(|students|), Students));

    c.Fire();
    termWheel.Render(c.spinning, c.selectedTermIdx, |terms|, SpinDurationMs);
    studentWheel.Render(c.spinning, c.selectedStudentIdx, |students|, SpinDurationMs);
    termSliceAfterFire := SliceUnderMarker(termWheel.rotation, SliceCount(|terms|));
    studentSliceAfterFire := SliceUnderMarker(studentWheel.rotation, SliceCount(|students|));

    c.ResetSpin();
    studentWheel.Render(c.spinning, c.selectedStudentIdx, |students|, SpinDurationMs);
    rotationAfterReset := studentWheel.rotation;
  }
}
