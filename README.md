# Double wheel draw — a verified model

The application is a classroom randomiser. Two animated wheels spin: one
holds vocabulary terms, the other holds student names. A spin draws a term
and a student who is marked present. After the spin, the term's definition
can be revealed.

This project models the logic underneath the React rendering:

- **Enabled set** (`selection.dfy`, module `Selection`). This is the set of
  ids of students marked present. It covers the prune rule that runs when
  the student list changes, the checkbox toggle and "select all / none".
- **Draw** (`selection.dfy`). This is the list of eligible students, the
  `canSpin` guard, `randomIndex`, and the mapping of a pick among eligible
  students back to an index in the full list through `findIndex`.
- **Spin controller** (`controller.dfy`, class `Controller.SpinController`).
  Its state is the flags `spinning`, `finished` and `reveal`, the two
  optional drawn indices, and the completion timer. Its operations are
  start, timer fire, reset, open/close of the definition dialog, and
  unmount.
- **Wheel geometry** (`wheel_geometry.dfy`, module `WheelGeometry`). This is
  the number of slices, their angle, the slice centre, the target rotation,
  which slice ends under the marker, the slice-building loop, the large-arc
  flag, the palette and the slice fill. Angles are exact `real`s.
- **Wheel animation state** (`wheel_view.dfy`, class `WheelView.Wheel`).
  These are the `rotation` and `transition` values that the wheel's two
  effects overwrite.
- **Whole-application runs** (`scenarios.dfy`). These are client methods
  that hold for every random number. After a spin, both wheels stop on the
  drawn slices: the student wheel on the student drawn among those enabled
  after the saved presence set is pruned, and that student is shown in
  colour.

Some inputs become parameters:

- `Math.random()` becomes a `real` in [0, 1) given to `StartSpin`.
- The value read from browser storage becomes the `saved` set given to the
  constructor.
- The fetched term and student lists become constructor arguments.
- The timer becomes a `pendingTimer` flag. `Fire()` is the timeout running
  out.

Two behaviours of the code that are easy to get wrong:

- `resetSpin` does not cancel the pending completion timer
  (src/App.jsx:85-91). Only `startSpin` clears it (src/App.jsx:78), and so
  does the unmount cleanup (src/App.jsx:107). The reset button is disabled
  while a spin runs (src/App.jsx:187), so under that guard no timer is
  pending at a reset. `Scenarios.UnguardedResetLeavesStaleTimer` shows what
  the guard prevents: the stale timer fires and reports a finished spin with
  nothing drawn.
- The wheel's rotation is set outright to the target
  (src/components/Wheel.jsx:50); it does not accumulate across spins. A
  second spin started without a reset therefore turns the disc by less than
  one turn (`WheelGeometry.RespinWithoutResetMovesLessThanATurn`). It does
  not add eight more turns.

## Model

| member | source | states |
|---|---|---|
| `Selection.Prune` | src/App.jsx:20-26 | the result is a subset of the current ids, non-empty when there are ids; every previously enabled id that still exists stays enabled; if any survives, no id is newly enabled; if none survives, every current id is enabled |
| `Selection.PruneLoop` | src/App.jsx:20-26 | the `forEach` loop that fills a fresh set computes exactly the prune rule |
| `Selection.OnIdsChanged` | src/App.jsx:17-27 | an empty id list leaves the enabled set unchanged; otherwise the new set is a non-empty subset of the ids |
| `Selection.LoadedListHasEnabled` | src/App.jsx:17-27 | once a non-empty student list is loaded, whatever was saved, some student is enabled |
| `Selection.PruneEmptyPrevIsFallback` | src/App.jsx:21 | an empty previous set yields exactly the set of current ids |
| `Selection.PruneIdempotent` | src/App.jsx:17-27 | pruning again with the same ids changes nothing, so re-running the effect is harmless |
| `Selection.Toggle` | src/App.jsx:93-100 | the toggled id flips membership; every other id keeps its membership |
| `Selection.ToggleTwice` | src/App.jsx:93-100 | toggling the same id twice restores the original set |
| `Selection.Ids` | src/App.jsx:37 | one id per student, the id of the student at the same index |
| `Selection.SetAll` | src/App.jsx:102-104 | on gives exactly the student ids, off gives the empty set, whatever came before |
| `Selection.Eligible` | src/App.jsx:54 | the eligible list is at most as long as the student list and holds exactly the students whose id is enabled |
| `Selection.EligiblePositions` | src/App.jsx:54 | the filter keeps every enabled entry, duplicates included, in list order: eligible student k sits at strictly increasing position k of the full list, and those positions are exactly the indices whose id is enabled |
| `Selection.EligibleNonEmptyIff` | src/App.jsx:54 | the eligible list is non-empty iff some student of the full list is enabled |
| `Selection.CanSpin` | src/App.jsx:56 | `canSpin` holds iff there is a term, some student is enabled and no spin is running |
| `Selection.RandomIndex` | src/App.jsx:58-60 | for a random number in [0, 1) the index lies in [0, n) when n > 0 |
| `Selection.RandomIndexPreimage` | src/App.jsx:58-60 | index k is drawn exactly for random numbers in [k/n, (k+1)/n), so every index has the same chance |
| `Selection.RandomIndexAtFraction` | src/App.jsx:58-60 | the random number k/n is in [0, 1) and draws index k |
| `Selection.FindIndex` | src/App.jsx:70 | gives -1 iff no student has the id; otherwise the first index whose student has it |
| `Selection.FindIndexFirst` | src/App.jsx:70 | the first index carrying an id is the one `findIndex` returns |
| `Selection.EligibleIndices` | src/App.jsx:70 | one entry per eligible student; entry k is a valid index of the full list carrying the id of eligible student k, that id is enabled, and it is the first index with that id |
| `Selection.StudentPick` | src/App.jsx:70-72 | for every random number the drawn index is valid in the full list and its student's id is enabled |
| `Selection.StudentPickSingle` | src/App.jsx:70-72 | with exactly one enabled index, every random number draws that index |
| `Selection.StudentPickReachable` | src/App.jsx:70-72 | every enabled student (its first index) is drawn by some random number in [0, 1) |
| `Selection.DisabledIndices` | src/App.jsx:135 | an index is greyed out iff it is in the list and its student's id is not enabled |
| `Controller.SpinController.constructor` | src/App.jsx:35-44 | starts idle, with nothing drawn, no timer and the dialog closed; the enabled set is the saved set after the prune effect |
| `Controller.SpinController.StartSpin` | src/App.jsx:62-83 | without `canSpin` nothing changes and no timer is scheduled; otherwise spinning, not finished, dialog closed, exactly one timer pending, and the term index in range; the student index is valid and enabled; invariant and timer/spin agreement kept |
| `Controller.SpinController.Fire` | src/App.jsx:79-82 | the timer firing stops the spin and marks it finished; the draw is kept and no timer is left |
| `Controller.SpinController.ResetSpin` | src/App.jsx:85-91 | all three flags false and both indices null; a pending timer is left pending; under the reset button's guard a timer is pending iff spinning |
| `Controller.SpinController.OpenReveal` | src/App.jsx:156 | sets `reveal`; when the button is enabled (finished with a term drawn) the dialog shows |
| `Controller.SpinController.CloseReveal` | src/App.jsx:202-213 | clears `reveal`; the dialog is not shown |
| `Controller.SpinController.ToggleStudent` | src/App.jsx:93-100 | the enabled set becomes its toggle at the id |
| `Controller.SpinController.SetAllStudents` | src/App.jsx:102-104 | the enabled set becomes all student ids or none |
| `Controller.SpinController.Unmount` | src/App.jsx:106-107 | the cleanup leaves no timer pending |
| `Controller.SpinController.SelectedTerm` | src/App.jsx:109 | a term iff an index is drawn and lies in the list, namely the term at that index |
| `Controller.SpinController.SelectedStudent` | src/App.jsx:110 | a student iff an index is drawn and lies in the list, namely the student at that index |
| `Controller.SpinController.ResetEnabled` | src/App.jsx:187 | the reset button can be pressed iff no spin is running or the spin is finished |
| `Controller.SpinController.RevealButtonEnabled` | src/App.jsx:145-156 | the definition button can be pressed iff the spin is finished and the drawn term index lies in the term list |
| `Controller.SpinController.ModalShown` | src/App.jsx:201 | the definition dialog shows iff it is open and the drawn term index lies in the term list |
| `Scenarios.FreshStartCanSpin` | src/App.jsx:20-21 | with nothing saved, every loaded student is enabled and a spin can start |
| `Scenarios.OnlyEnabledStudentIsDrawn` | src/App.jsx:62-75 | one term and students "1", "2" with only "2" enabled: every draw gives term 0 and student 1 |
| `Scenarios.StaleSavedIdFallsBack` | src/App.jsx:20-26 | a saved id "9" that no longer exists, with students "1" and "2", gives the enabled set {"1", "2"} |
| `Scenarios.SecondStartIsIgnored` | src/App.jsx:62-82 | a second start during a spin keeps the first draw and one pending timer; the timer firing finishes the spin and leaves no timer |
| `Scenarios.UnguardedResetLeavesStaleTimer` | src/App.jsx:85-91 | the reset button is disabled mid-spin; a reset there would leave the timer to report a finished spin with nothing drawn |
| `Scenarios.SpinShowsTheDraw` | src/components/Wheel.jsx:36-61 | for any saved presence set, after a spin the term wheel stops on the drawn term and the student wheel on `StudentPick` over the students enabled after the prune; that student is enabled, not greyed out, and drawn in its palette colour; both wheels stay there when the timer fires; a reset returns the rotation to 0 |
| `WheelGeometry.SliceCount` | src/components/Wheel.jsx:14 | the slice count is at least 1, so the `n === 0` guard at line 37 never holds; it equals the item count when there are items |
| `WheelGeometry.SliceAngle` | src/components/Wheel.jsx:15 | the slice angle is positive and `angle * n == 360` |
| `WheelGeometry.SliceCenter` | src/components/Wheel.jsx:44 | the centre of slice i lies strictly between `i*angle` and `(i+1)*angle` |
| `WheelGeometry.CenterBelowTurn` | src/components/Wheel.jsx:44 | the centre of a slice on the wheel lies strictly inside (0, 360) |
| `WheelGeometry.TargetDeg` | src/components/Wheel.jsx:40-45 | target plus slice centre is exactly 9*360; for an index on the wheel the target lies strictly between 8*360 and 9*360 |
| `WheelGeometry.SliceUnderMarker` | src/components/Wheel.jsx:42-45 | the slice index under the top marker for a rotation is on the wheel, and its span holds the disc angle under the marker |
| `WheelGeometry.TargetLandsOnSelected` | src/components/Wheel.jsx:42-45 | the target rotation for slice i puts the centre of slice i under the marker, and slice i is the slice found there |
| `WheelGeometry.RespinWithoutResetMovesLessThanATurn` | src/components/Wheel.jsx:45-50 | two targets differ by less than one turn, so a rotation that is replaced (not accumulated) moves less than a turn on a second spin |
| `WheelGeometry.LargeArc` | src/components/Wheel.jsx:75 | the large-arc flag is 0 or 1, and 1 iff there is a single slice |
| `WheelGeometry.AngleAtMostHalfTurn` | src/components/Wheel.jsx:75 | with two or more slices the slice angle is at most 180 |
| `WheelGeometry.BuildSlices` | src/components/Wheel.jsx:64-85 | the loop builds one wedge per slice in index order, wedge k spanning `SliceAt(k, n)`: from `k*angle - 90` to `(k+1)*angle - 90` degrees with the large-arc flag of `LargeArc(n)` |
| `WheelGeometry.SlicesTileCircle` | src/components/Wheel.jsx:68-75 | the wedges tile the circle from the top: the first starts at -90, each ends where the next starts, the last ends at 270, each is `angle` wide, and large-arc is set iff there is one slice |
| `WheelGeometry.BaseHue` | src/components/Wheel.jsx:24 | the base hue is a hue on the colour wheel: blue (180-240) for terms, pink (300-360) for students |
| `WheelGeometry.AltHue` | src/components/Wheel.jsx:25 | the alternate hue is a distinct shade of the same family, at most 30 degrees below the base hue |
| `WheelGeometry.Palette` | src/components/Wheel.jsx:23-33 | one colour per slice, all with saturation 85 and lightness 55 |
| `WheelGeometry.PaletteAlternates` | src/components/Wheel.jsx:24-27 | even slices get the base hue and odd slices the alternate hue; neighbours differ; slices two apart match; the last and first slices match iff the count is odd |
| `WheelGeometry.SliceFill` | src/components/Wheel.jsx:101 | a disabled slice is grey (`#ccc`); an enabled slice on the wheel gets its own palette colour |
| `WheelView.Wheel.constructor` | src/components/Wheel.jsx:18-19 | rotation starts at 0 with no transition |
| `WheelView.Wheel.SpinEffect` | src/components/Wheel.jsx:36-53 | spinning with a selected index sets the rotation to the target for that index, whatever it was, with the eased transition; otherwise nothing changes |
| `WheelView.Wheel.ResetEffect` | src/components/Wheel.jsx:56-61 | not spinning with nothing selected snaps the rotation to 0 with no transition; otherwise nothing changes |
| `WheelView.Wheel.Render` | src/components/Wheel.jsx:36-61 | the two effects together: spin to the target, snap to 0, or keep the rotation where it is |

## Left out

- Fetching `terms.json` and `students.json` (src/App.jsx:50-51) is network I/O. The decoded lists are constructor arguments, including the empty list that a failed fetch substitutes. The interval before the lists arrive is not modelled. A spin cannot start then anyway, because `canSpin` needs a term and an enabled student.
- Browser storage (src/App.jsx:9-15, 29) is not modelled: the read, the `JSON.parse`, and the write-back of every change. What was read arrives as `saved`. An empty `saved` stands for nothing stored or unreadable data.
- The prune effect is keyed on `ids.join('|')` (src/App.jsx:27). The model runs it once, when the constructor receives the student list. Re-running it on the same ids changes nothing (`Selection.PruneIdempotent`).
- `setTimeout`/`clearTimeout` timing (src/App.jsx:78-82, 107) is replaced by the `pendingTimer` flag and `Fire()`. The 10100 ms delay appears only as the constant `TimerDelayMs`.
- `requestAnimationFrame`, `Date.now` and `lastSpinRef` (src/components/Wheel.jsx:20, 48-52) are left out. The spin effect applies the target immediately, not one frame later.
- React batching and closures are not modelled. Every handler runs against the state left by the previous handler, as it does for separate clicks.
- Both effects run on every `Render` call rather than only when their dependency lists change. For unchanged props each effect writes the value it already wrote.
- Trigonometry, SVG coordinates, path strings and label placement (src/components/Wheel.jsx:69-81, 103-115) are floating-point drawing, so they are left out. The slices keep their start and end angles in degrees.
- CSS class names, the transition and cubic-bezier strings, and HSL string formatting are cosmetic. Colours are `Hsl` values. A transition is `Instant` or `Eased(durationMs)`. `colorScheme` is the datatype `Terms | Students`, the two values the application passes.
- WheelGeometry.SliceAngle, WheelGeometry.SliceCenter and WheelGeometry.TargetDeg: angles are exact reals. The floating-point rounding of `360 / n` and `i * angle + angle / 2` (for example n = 7) is not modelled, so the exact identities such as `angle * n == 360` hold only up to that rounding in the browser.
- Selection.RandomIndex: computes `Math.floor(Math.random() * n)` on exact reals. The IEEE rounding of the product is not modelled.
- JSX markup, the header, the confetti and the dialog chrome are presentation.
