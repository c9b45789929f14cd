/**
  The pure part of the selection controller (src/App.jsx): the set of
  enabled ("present") student ids, the prune rule applied when the student
  list changes, the eligible sub-list, the `canSpin` guard and the random
  draw that maps a pick among eligible students back to an index in the
  full student list.
 */
module Selection {
  import opened Arith

  type Id = string

  datatype Term = Term(term: string, definition: string)

  datatype Student = Student(id: Id, name: string)

  /** `students.map(s => s.id)` */
  function Ids(students: seq<Student>): (ids: seq<Id>)
    ensures |ids| == |students|
    ensures forall i :: 0 <= i < |students| ==> ids[i] == students[i].id
  {
    seq(|students|, i requires 0 <= i < |students| => students[i].id)
  }

  /** `new Set(ids)` */
  function IdSet(ids: seq<Id>): set<Id>
  {
    set id | id in ids
  }

  lemma IdSetNonEmpty(ids: seq<Id>)
    ensures |ids| > 0 ==> IdSet(ids) != {}
  {
    if |ids| > 0 {
      assert ids[0] in IdSet(ids);
    }
  }

  // ---------------------------------------------------------------------------
  // Prune rule applied when the student list changes
  // ---------------------------------------------------------------------------

  /**
    The updater handed to `setEnabled` when the id list changes. An empty
    previous set enables every current id; otherwise the ids that are still
    present survive, and if none does, every current id is enabled again.
   */
  function Prune(prev: set<Id>, ids: seq<Id>): (r: set<Id>)
    ensures r <= IdSet(ids)
    ensures |ids| > 0 ==> r != {}
    ensures prev * IdSet(ids) <= r
    ensures prev * IdSet(ids) != {} ==> r <= prev
    ensures prev * IdSet(ids) == {} ==> r == IdSet(ids)
  {
    IdSetNonEmpty(ids);
    if |prev| == 0 then IdSet(ids)
    else
      var next := prev * IdSet(ids);
      if |next| != 0 then next else IdSet(ids)
  }

  /**
    The prune updater as the source runs it: `ids.forEach` adds to a fresh
    set every id the previous set holds.
   */
  method PruneLoop(prev: set<Id>, ids: seq<Id>) returns (r: set<Id>)
    ensures r == Prune(prev, ids)
  {
    if |prev| == 0 {
      return IdSet(ids);
    }
    var next: set<Id> := {};
    var i := 0;
    while i < |ids|
      invariant 0 <= i <= |ids|
      invariant next == prev * IdSet(ids[..i])
    {
      assert ids[..i + 1] == ids[..i] + [ids[i]];
      if ids[i] in prev {
        next := next + {ids[i]};
      }
      i := i + 1;
    }
    assert ids[..i] == ids;
    r := if |next| != 0 then next else IdSet(ids);
  }

  /**
    The effect run when the student list changes: nothing happens while the
    list is empty, otherwise the prune rule replaces the enabled set.
   */
  function OnIdsChanged(prev: set<Id>, ids: seq<Id>): (r: set<Id>)
    ensures |ids| == 0 ==> r == prev
    ensures |ids| > 0 ==> r != {} && r <= IdSet(ids)
  {
    if |ids| == 0 then prev else Prune(prev, ids)
  }

  /** An empty previous set, as on a first visit, enables every current id. */
  lemma PruneEmptyPrevIsFallback(ids: seq<Id>)
    ensures Prune({}, ids) == IdSet(ids)
  {
  }

  /**
    Running the prune rule again on the same ids changes nothing, so the
    effect re-running on an id list it has already seen is harmless.
   */
  lemma PruneIdempotent(prev: set<Id>, ids: seq<Id>)
    requires |ids| > 0
    ensures Prune(Prune(prev, ids), ids) == Prune(prev, ids)
  {
    var once := Prune(prev, ids);
    assert once * IdSet(ids) == once;
  }

  // ---------------------------------------------------------------------------
  // Checkbox updates
  // ---------------------------------------------------------------------------

  /** `toggleStudent(id)`: flips the membership of `id` and of nothing else. */
  function Toggle(enabled: set<Id>, id: Id): (r: set<Id>)
    ensures id in r <==> id !in enabled
    ensures forall other :: other != id ==> (other in r <==> other in enabled)
  {
    if id in enabled then enabled - {id} else enabled + {id}
  }

  lemma ToggleTwice(enabled: set<Id>, id: Id)
    ensures Toggle(Toggle(enabled, id), id) == enabled
  {
  }

  /** `setAllStudents(on)`: every student id when on, none when off. */
  function SetAll(on: bool, ids: seq<Id>): (r: set<Id>)
    ensures forall id :: id in r <==> on && id in ids
  {
    if on then IdSet(ids) else {}
  }

  // ---------------------------------------------------------------------------
  // Eligible students and the spin guard
  // ---------------------------------------------------------------------------

  /** `students.filter(s => enabledSet.has(s.id))` */
  function Eligible(students: seq<Student>, enabled: set<Id>): (r: seq<Student>)
    ensures |r| <= |students|
    ensures forall s :: s in r <==> s in students && s.id in enabled
  {
    if |students| == 0 then []
    else
      var rest := Eligible(students[1..], enabled);
      assert forall s :: s in students <==> s == students[0] || s in students[1..];
      if students[0].id in enabled then [students[0]] + rest else rest
  }

  /**
    `idx` lists where each entry of `e` sits in `students`: the positions
    are strictly increasing, entry k sits at position k, and they are
    exactly the indices whose id is enabled.
   */
  predicate PositionsOf(students: seq<Student>, enabled: set<Id>, e: seq<Student>, idx: seq<nat>)
  {
    && |idx| == |e|
    && (forall k :: 0 <= k < |idx| ==> idx[k] < |students| && e[k] == students[idx[k]])
    && (forall k, l :: 0 <= k < l < |idx| ==> idx[k] < idx[l])
    && (forall i :: 0 <= i < |students| ==> (i in idx <==> students[i].id in enabled))
  }

  /**
    Where each eligible student sits in the full list: the positions are
    strictly increasing, eligible student k sits at position k, and they
    are exactly the indices whose id is enabled. So the filter keeps every
    enabled entry, duplicates included, in list order.
   */
  lemma {:induction false} EligiblePositions(students: seq<Student>, enabled: set<Id>) returns (idx: seq<nat>)
    ensures |idx| == |Eligible(students, enabled)|
    ensures forall k :: 0 <= k < |idx| ==>
              idx[k] < |students| && Eligible(students, enabled)[k] == students[idx[k]]
    ensures forall k, l :: 0 <= k < l < |idx| ==> idx[k] < idx[l]
    ensures forall i :: 0 <= i < |students| ==> (i in idx <==> students[i].id in enabled)
  {
    idx := Positions(students, enabled);
  }

  lemma {:induction false} Positions(students: seq<Student>, enabled: set<Id>) returns (idx: seq<nat>)
    ensures PositionsOf(students, enabled, Eligible(students, enabled), idx)
  {
    if |students| == 0 {
      return [];
    }
    var rest := Positions(students[1..], enabled);
    var er := Eligible(students[1..], enabled);
    idx := ConsPositions(students, enabled, er, rest);
    assert Eligible(students, enabled) == if students[0].id in enabled then [students[0]] + er else er;
  }

  /** Positions in the tail of a list extend to positions in the whole list. */
  lemma ConsPositions(students: seq<Student>, enabled: set<Id>, er: seq<Student>, rest: seq<nat>)
    returns (idx: seq<nat>)
    requires |students| > 0
    requires PositionsOf(students[1..], enabled, er, rest)
    ensures PositionsOf(students, enabled, if students[0].id in enabled then [students[0]] + er else er, idx)
  {
    var tail := students[1..];
    var shifted := Shift(rest, |tail|);
    forall i | 1 <= i < |students|
      ensures i in shifted <==> students[i].id in enabled
    {
      assert students[i] == tail[i - 1];
    }
    forall k | 0 <= k < |shifted|
      ensures shifted[k] < |students| && er[k] == students[shifted[k]]
    {
      assert students[shifted[k]] == tail[rest[k]];
    }
    if students[0].id in enabled {
      idx := ConsFront(students, enabled, er, shifted);
    } else {
      idx := shifted;
      assert 0 !in idx;
    }
  }

  /** An enabled first student goes in front of the shifted tail positions. */
  lemma ConsFront(students: seq<Student>, enabled: set<Id>, er: seq<Student>, shifted: seq<nat>)
    returns (idx: seq<nat>)
    requires |students| > 0 && students[0].id in enabled
    requires |shifted| == |er|
    requires forall k :: 0 <= k < |shifted| ==>
               1 <= shifted[k] < |students| && er[k] == students[shifted[k]]
    requires forall k, l :: 0 <= k < l < |shifted| ==> shifted[k] < shifted[l]
    requires forall i :: 1 <= i < |students| ==> (i in shifted <==> students[i].id in enabled)
    ensures PositionsOf(students, enabled, [students[0]] + er, idx)
  {
    idx := [0] + shifted;
    forall i | 0 <= i < |students|
      ensures i in idx <==> students[i].id in enabled
    {
      if i == 0 {
        assert idx[0] == 0;
      } else {
        assert i in idx <==> i in shifted;
      }
    }
  }

  /**
    The positions of a list's tail, as positions in the whole list: each
    moves up by one, order is kept and `i` is present iff `i - 1` was.
   */
  lemma Shift(rest: seq<nat>, bound: nat) returns (shifted: seq<nat>)
    requires forall k :: 0 <= k < |rest| ==> rest[k] < bound
    requires forall k, l :: 0 <= k < l < |rest| ==> rest[k] < rest[l]
    ensures |shifted| == |rest|
    ensures forall k :: 0 <= k < |rest| ==> shifted[k] == rest[k] + 1 && 1 <= shifted[k] <= bound
    ensures forall k, l :: 0 <= k < l < |shifted| ==> shifted[k] < shifted[l]
    ensures forall i :: 1 <= i ==> (i in shifted <==> i - 1 in rest)
  {
    shifted := seq(|rest|, k requires 0 <= k < |rest| => rest[k] + 1);
    forall i | 1 <= i
      ensures i in shifted <==> i - 1 in rest
    {
      if i - 1 in rest {
        var k :| 0 <= k < |rest| && rest[k] == i - 1;
        assert shifted[k] == i;
      }
    }
  }

  /** Some index of the student list carries an enabled id. */
  predicate SomeEnabled(students: seq<Student>, enabled: set<Id>)
  {
    exists i :: 0 <= i < |students| && students[i].id in enabled
  }

  lemma EligibleNonEmptyIff(students: seq<Student>, enabled: set<Id>)
    ensures |Eligible(students, enabled)| > 0 <==> SomeEnabled(students, enabled)
  {
    var e := Eligible(students, enabled);
    if SomeEnabled(students, enabled) {
      var i :| 0 <= i < |students| && students[i].id in enabled;
      assert students[i] in e;
    }
    if |e| > 0 {
      assert e[0] in e;
      var i :| 0 <= i < |students| && students[i] == e[0];
    }
  }

  /**
    Once a non-empty student list is loaded, whatever was saved, some
    student is enabled: the prune never leaves the wheel without a
    candidate.
   */
  lemma LoadedListHasEnabled(saved: set<Id>, students: seq<Student>)
    requires |students| > 0
    ensures SomeEnabled(students, OnIdsChanged(saved, Ids(students)))
  {
    var ids := Ids(students);
    var r := OnIdsChanged(saved, ids);
    var id :| id in r;
    assert id in ids;
    var i :| 0 <= i < |ids| && ids[i] == id;
    assert students[i].id in r;
  }

  /**
    `canSpin`: there is a term, the eligible list is not empty and no spin
    is running; equivalently some student of the full list is enabled.
   */
  predicate CanSpin(terms: seq<Term>, students: seq<Student>, enabled: set<Id>, spinning: bool): (b: bool)
    ensures b <==> |terms| > 0 && SomeEnabled(students, enabled) && !spinning
  {
    EligibleNonEmptyIff(students, enabled);
    |terms| > 0 && |Eligible(students, enabled)| > 0 && !spinning
  }

  // ---------------------------------------------------------------------------
  // The random draw
  // ---------------------------------------------------------------------------

  /**
    `randomIndex(n)`, that is `Math.floor(Math.random() * n)`, with the
    random number in [0, 1) passed in as `rand`.
   */
  function RandomIndex(rand: real, n: nat): (k: nat)
    requires 0.0 <= rand < 1.0
    ensures n > 0 ==> k < n
    ensures n == 0 ==> k == 0
  {
    ScaleBelow(rand, n as real);
    (rand * n as real).Floor
  }

  /** A number in [0, 1) scales [0, n] into [0, n], and below n when n is positive. */
  lemma ScaleBelow(rand: real, nr: real)
    requires 0.0 <= rand < 1.0
    requires 0.0 <= nr
    ensures 0.0 <= rand * nr <= nr
    ensures 0.0 < nr ==> rand * nr < nr
  {
    if nr > 0.0 {
      MulMono(0.0, rand, nr);
      MulStrict(rand, 1.0, nr);
    }
  }

  /**
    Index `k` is drawn for exactly the random numbers in [k/n, (k+1)/n): a
    uniform `rand` gives every index the same chance.
   */
  lemma RandomIndexPreimage(rand: real, n: nat, k: nat)
    requires 0.0 <= rand < 1.0
    requires k < n
    ensures RandomIndex(rand, n) == k
        <==> (k as real) / (n as real) <= rand < ((k + 1) as real) / (n as real)
  {
    var nr := n as real;
    var lo := (k as real) / nr;
    var hi := ((k + 1) as real) / nr;
    DivMul(k as real, nr);
    DivMul((k + 1) as real, nr);
    if lo <= rand {
      MulMono(lo, rand, nr);
    } else {
      MulStrict(rand, lo, nr);
    }
    if rand < hi {
      MulStrict(rand, hi, nr);
    } else {
      MulMono(hi, rand, nr);
    }
  }

  /** `students.findIndex(x => x.id === id)`: the first index holding `id`, or -1. */
  function FindIndex(students: seq<Student>, id: Id): (r: int)
    ensures -1 <= r < |students|
    ensures r == -1 <==> forall j :: 0 <= j < |students| ==> students[j].id != id
    ensures r >= 0 ==> students[r].id == id
    ensures r >= 0 ==> forall j :: 0 <= j < r ==> students[j].id != id
  {
    if |students| == 0 then -1
    else if students[0].id == id then 0
    else
      var k := FindIndex(students[1..], id);
      if k == -1 then -1 else k + 1
  }

  /**
    `eligibleStudents.map(s => students.findIndex(x => x.id === s.id))`:
    entry k is a valid index of the full list that carries the id of
    eligible student k, that id is enabled, and it is the first index
    carrying it.
   */
  function EligibleIndices(students: seq<Student>, enabled: set<Id>): (r: seq<int>)
    ensures |r| == |Eligible(students, enabled)|
    ensures forall k :: 0 <= k < |r| ==>
              0 <= r[k] < |students| && students[r[k]].id in enabled
    ensures forall k :: 0 <= k < |r| ==> students[r[k]].id == Eligible(students, enabled)[k].id
    ensures forall k, j :: 0 <= k < |r| && 0 <= j < r[k] ==> students[j].id != students[r[k]].id
  {
    var e := Eligible(students, enabled);
    assert forall k :: 0 <= k < |e| ==> e[k] in students && e[k].id in enabled;
    seq(|e|, k requires 0 <= k < |e| => FindIndex(students, e[k].id))
  }

  /**
    The student index `startSpin` records: a random pick among the eligible
    students, mapped back to its index in the full list.
   */
  function StudentPick(students: seq<Student>, enabled: set<Id>, rand: real): (i: nat)
    requires 0.0 <= rand < 1.0
    requires SomeEnabled(students, enabled)
    ensures i < |students| && students[i].id in enabled
  {
    EligibleNonEmptyIff(students, enabled);
    var indices := EligibleIndices(students, enabled);
    indices[RandomIndex(rand, |indices|)]
  }

  /**
    With a single enabled index `j`, every random number picks `j` (even
    when other students share an id, since they would be enabled too).
   */
  lemma StudentPickSingle(students: seq<Student>, enabled: set<Id>, j: nat, rand: real)
    requires 0.0 <= rand < 1.0
    requires j < |students| && students[j].id in enabled
    requires forall i :: 0 <= i < |students| && students[i].id in enabled ==> i == j
    ensures StudentPick(students, enabled, rand) == j
  {
  }

  /**
    Every enabled student can be drawn: the returned random number picks the
    first index of an enabled id.
   */
  lemma StudentPickReachable(students: seq<Student>, enabled: set<Id>, j: nat) returns (rand: real)
    requires j < |students| && students[j].id in enabled
    requires forall i :: 0 <= i < j ==> students[i].id != students[j].id
    ensures 0.0 <= rand < 1.0 && StudentPick(students, enabled, rand) == j
  {
    var e := Eligible(students, enabled);
    assert students[j] in e;
    var k :| 0 <= k < |e| && e[k] == students[j];
    rand := (k as real) / (|e| as real);
    RandomIndexAtFraction(k, |e|);
    StudentPickAt(students, enabled, rand, k);
    FindIndexFirst(students, j);
  }

  /** The draw that picks the `k`-th eligible student records that student's first index. */
  lemma StudentPickAt(students: seq<Student>, enabled: set<Id>, rand: real, k: nat)
    requires 0.0 <= rand < 1.0
    requires SomeEnabled(students, enabled)
    requires k < |Eligible(students, enabled)|
    requires RandomIndex(rand, |Eligible(students, enabled)|) == k
    ensures StudentPick(students, enabled, rand) == FindIndex(students, Eligible(students, enabled)[k].id)
  {
  }

  /** The random number k/n draws index k. */
  lemma RandomIndexAtFraction(k: nat, n: nat)
    requires k < n
    ensures 0.0 <= (k as real) / (n as real) < 1.0
    ensures RandomIndex((k as real) / (n as real), n) == k
  {
    QuotientBounds(k as real, n as real, 1.0);
    DivMul(k as real, n as real);
  }

  /** The first index carrying an id is what `findIndex` returns for it. */
  lemma FindIndexFirst(students: seq<Student>, j: nat)
    requires j < |students|
    requires forall i :: 0 <= i < j ==> students[i].id != students[j].id
    ensures FindIndex(students, students[j].id) == j
  {
  }

  /**
    The student indices the wheel greys out: the index list built at
    src/App.jsx:135, as the set the wheel turns it into.
   */
  function DisabledIndices(students: seq<Student>, enabled: set<Id>): (r: set<nat>)
    ensures forall i: nat :: i in r <==> i < |students| && students[i].id !in enabled
  {
    set i: nat | i < |students| && students[i].id !in enabled
  }
}
