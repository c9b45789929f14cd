/**
  The spin controller of the application (src/App.jsx): the loaded term
  and student lists, the enabled set, the drawn indices, the three flags
  `spinning`, `finished` and `revealed`, and the one completion timer a spin
  schedules. The timer is a flag that `StartSpin` raises and `Fire` (the
  timer running out) or `Unmount` lowers; `Math.random` is the two numbers
  in [0, 1) that `StartSpin` is given.
 */
module Controller {
  import opened Wrappers
  import opened Selection

  /** How long the wheels turn. */
  const SpinDurationMs: nat := 10000

  /** The completion timer waits for the animation plus a safety margin. */
  const TimerDelayMs: nat := SpinDurationMs + 100

  class SpinController {
    const terms: seq<Term>
    const students: seq<Student>
    var enabled: set<Id>
    var selectedTermIdx: Option<nat>
    var selectedStudentIdx: Option<nat>
    var spinning: bool
    var finished: bool
    var revealed: bool
    /** `endTimer.current` refers to a timeout that has not run yet. */
    var pendingTimer: bool

    /**
      Kept by every operation whatever the buttons allow: a wheel is never
      spinning and finished at once, and while it spins both drawn indices
      point into their lists.
     */
    ghost predicate Valid()
      reads this
    {
      && !(spinning && finished)
      && (spinning ==>
            && selectedTermIdx.Some? && selectedTermIdx.value < |terms|
            && selectedStudentIdx.Some? && selectedStudentIdx.value < |students|)
    }

    /** A completion timer is pending exactly while the wheels spin. */
    predicate TimerMatchesSpin()
      reads this
    {
      pendingTimer == spinning
    }

    predicate CanSpinNow()
      reads this
    {
      CanSpin(terms, students, enabled, spinning)
    }

    /**
      The reset button is disabled while `spinning && !finished`: it can be
      pressed when idle or once the spin is finished.
     */
    predicate ResetEnabled(): (b: bool)
      reads this
      ensures b <==> !spinning || finished
    {
      !(spinning && !finished)
    }

    /** `selectedTerm`: the drawn term, or null when none is drawn or the index is off the list. */
    function SelectedTerm(): (t: Option<Term>)
      reads this
      ensures t.Some? <==> selectedTermIdx.Some? && selectedTermIdx.value < |terms|
      ensures t.Some? ==> t.value == terms[selectedTermIdx.value]
    {
      match selectedTermIdx
      case Some(i) => if i < |terms| then Some(terms[i]) else None
      case None => None
    }

    /** `selectedStudent` */
    function SelectedStudent(): (s: Option<Student>)
      reads this
      ensures s.Some? <==> selectedStudentIdx.Some? && selectedStudentIdx.value < |students|
      ensures s.Some? ==> s.value == students[selectedStudentIdx.value]
    {
      match selectedStudentIdx
      case Some(i) => if i < |students| then Some(students[i]) else None
      case None => None
    }

    /**
      The definition button is shown once finished and enabled when a term
      is drawn: it can be pressed exactly when the spin is finished and the
      drawn term index points into the term list.
     */
    predicate RevealButtonEnabled(): (b: bool)
      reads this
      ensures b <==> finished && selectedTermIdx.Some? && selectedTermIdx.value < |terms|
    {
      finished && SelectedTerm().Some?
    }

    /**
      The definition dialog is on screen: it is open and there is a drawn
      term to define.
     */
    predicate ModalShown(): (b: bool)
      reads this
      ensures b <==> revealed && selectedTermIdx.Some? && selectedTermIdx.value < |terms|
    {
      revealed && SelectedTerm().Some?
    }

    /**
      The application once both lists are loaded: `saved` is what the
      browser storage held (empty when nothing or something unreadable was
      stored), pruned against the loaded student ids.
     */
    constructor (terms: seq<Term>, students: seq<Student>, saved: set<Id>)
      ensures this.terms == terms && this.students == students
      ensures enabled == OnIdsChanged(saved, Ids(students))
      ensures selectedTermIdx == None && selectedStudentIdx == None
      ensures !spinning && !finished && !revealed && !pendingTimer
      ensures Valid() && TimerMatchesSpin()
    {
      var ids := Ids(students);
      var pruned := saved;
      if |ids| != 0 {
        pruned := PruneLoop(saved, ids);
      }
      this.terms := terms;
      this.students := students;
      enabled := pruned;
      selectedTermIdx, selectedStudentIdx := None, None;
      spinning, finished, revealed := false, false, false;
      pendingTimer := false;
    }

    /**
      `startSpin`: a no-op unless `canSpin`; otherwise draws a term and an
      enabled student, starts the spin and leaves exactly one completion
      timer pending.
     */
    method StartSpin(termRand: real, studentRand: real)
      requires 0.0 <= termRand < 1.0 && 0.0 <= studentRand < 1.0
      requires Valid()
      modifies this
      ensures Valid()
      ensures enabled == old(enabled)
      ensures !old(CanSpinNow()) ==> unchanged(this)
      ensures old(CanSpinNow()) ==>
                && spinning && !finished && !revealed && pendingTimer
                && selectedTermIdx == Some(RandomIndex(termRand, |terms|))
                && selectedStudentIdx == Some(StudentPick(students, enabled, studentRand))
      ensures old(CanSpinNow()) ==>
                && selectedTermIdx.value < |terms|
                && selectedStudentIdx.value < |students|
                && students[selectedStudentIdx.value].id in enabled
      ensures old(TimerMatchesSpin()) ==> TimerMatchesSpin()
    {
      if !CanSpin(terms, students, enabled, spinning) {
        return;
      }
      revealed := false;
      finished := false;
      spinning := true;

      var tIdx := RandomIndex(termRand, |terms|);
      var eligibleIndices := EligibleIndices(students, enabled);
      var pickedEligibleIdx := RandomIndex(studentRand, |Eligible(students, enabled)|);
      var sIdx := eligibleIndices[pickedEligibleIdx];
      assert sIdx == StudentPick(students, enabled, studentRand);

      selectedTermIdx := Some(tIdx);
      selectedStudentIdx := Some(sIdx);

      // the previous timer is cleared and a fresh one scheduled
      pendingTimer := true;
    }

    /** The completion timer runs out: the spin is over. */
    method Fire()
      requires pendingTimer
      requires Valid()
      modifies this
      ensures Valid() && TimerMatchesSpin()
      ensures !spinning && finished && !pendingTimer
      ensures revealed == old(revealed) && enabled == old(enabled)
      ensures selectedTermIdx == old(selectedTermIdx) && selectedStudentIdx == old(selectedStudentIdx)
    {
      spinning := false;
      finished := true;
      pendingTimer := false;
    }

    /**
      `resetSpin`: back to idle with nothing drawn. The pending timer, if
      any, is left to run; with the reset button's guard there is none.
     */
    method ResetSpin()
      requires Valid()
      modifies this
      ensures Valid()
      ensures !spinning && !finished && !revealed
      ensures selectedTermIdx == None && selectedStudentIdx == None
      ensures pendingTimer == old(pendingTimer) && enabled == old(enabled)
      ensures old(ResetEnabled()) && old(TimerMatchesSpin()) ==> TimerMatchesSpin()
    {
      spinning := false;
      finished := false;
      revealed := false;
      selectedStudentIdx := None;
      selectedTermIdx := None;
    }

    /** The definition button: opens the dialog, which shows when a term is drawn. */
    method OpenReveal()
      requires Valid()
      modifies this`revealed
      ensures Valid()
      ensures revealed
      ensures old(RevealButtonEnabled()) ==> ModalShown()
    {
      revealed := true;
    }

    /** The overlay, the close icon and the close button. */
    method CloseReveal()
      requires Valid()
      modifies this`revealed
      ensures Valid()
      ensures !revealed && !ModalShown()
    {
      revealed := false;
    }

    /** `toggleStudent(id)` */
    method ToggleStudent(id: Id)
      requires Valid()
      modifies this`enabled
      ensures Valid()
      ensures enabled == Toggle(old(enabled), id)
    {
      enabled := Toggle(enabled, id);
    }

    /** `setAllStudents(on)` */
    method SetAllStudents(on: bool)
      requires Valid()
      modifies this`enabled
      ensures Valid()
      ensures enabled == SetAll(on, Ids(students))
    {
      enabled := SetAll(on, Ids(students));
    }

    /** The unmount cleanup clears the pending timer. */
    method Unmount()
      requires Valid()
      modifies this`pendingTimer
      ensures Valid()
      ensures !pendingTimer
    {
      pendingTimer := false;
    }
  }
}
