/** The active-workout session: at most one in-progress workout, its set
    completion, its timer, the one-slot local store that mirrors it, and the
    step that turns it into a history record. */
module ActiveWorkoutContext {
  import opened WorkoutTypes
  import opened SetTracking

  /** An in-progress workout: a snapshot of the plan, the start instant in
      milliseconds, and the completed set indices per exercise id. */
  datatype Session = Session(plan: WorkoutPlan, startTime: int, completedSets: map<int, seq<int>>)

  /** What the storage slot holds when the provider mounts. */
  datatype StoredSlot = Empty | Unparsable | Holds(session: Session)

  /** The body of the history request. */
  datatype HistoryPayload = HistoryPayload(
    workoutPlanId: int,
    exercisesData: seq<Exercise>,
    completedAt: string,
    durationSeconds: int)

  /** How `finishWorkout` ended. */
  datatype FinishOutcome =
    | NoSession
    | NothingCompleted                 // the warning toast; no request sent
    | Saved(payload: HistoryPayload)
    | SaveFailed(payload: HistoryPayload)

  // ---- Timer ----

  /** `Math.floor((now - startTime) / 1000)`, whole seconds since the start. */
  function ElapsedSeconds(now: int, startTime: int): (r: int)
    ensures r * 1000 <= now - startTime < (r + 1) * 1000
    ensures now >= startTime ==> r >= 0
  {
    (now - startTime) / 1000
  }

  /** Recomputing from the fixed start, the elapsed seconds never go back. */
  lemma ElapsedMonotone(t1: int, t2: int, startTime: int)
    requires t1 <= t2
    ensures ElapsedSeconds(t1, startTime) <= ElapsedSeconds(t2, startTime)
  {
  }

  /** The elapsed time depends only on how long ago the session started. */
  lemma ElapsedShift(now: int, startTime: int, d: int)
    ensures ElapsedSeconds(now + d, startTime + d) == ElapsedSeconds(now, startTime)
  {
  }

  // ---- The finish payload ----

  /** An exercise as recorded in history: `sets` replaced by its completed count. */
  function Recorded(ex: Exercise, m: map<int, seq<int>>): (r: Exercise)
    ensures r.sets == Some(|Lookup(m, ex.id)|)
    ensures r.(sets := ex.sets) == ex
  {
    ex.(sets := Some(|Lookup(m, ex.id)|))
  }

  /** The plan's exercises that have a completed set, in plan order, each
      with its completed count as `sets`. */
  function ExercisesWithProgress(exercises: seq<Exercise>, m: map<int, seq<int>>): (r: seq<Exercise>)
    ensures |r| <= |exercises|
    ensures forall k :: 0 <= k < |r| ==> r[k].sets.Some? && r[k].sets.value > 0
  {
    if exercises == [] then []
    else
      var x := Recorded(exercises[0], m);
      if x.sets.value > 0 then [x] + ExercisesWithProgress(exercises[1..], m)
      else ExercisesWithProgress(exercises[1..], m)
  }

  /** Every recorded entry comes from a plan exercise, and a plan exercise is
      recorded exactly when it has a completed set. */
  lemma {:induction false} ExercisesWithProgressMembers(exercises: seq<Exercise>, m: map<int, seq<int>>)
    ensures forall x :: x in ExercisesWithProgress(exercises, m) ==>
              exists ex :: ex in exercises && x == Recorded(ex, m)
    ensures forall ex :: ex in exercises ==>
              (Recorded(ex, m) in ExercisesWithProgress(exercises, m) <==> Lookup(m, ex.id) != [])
  {
    if exercises != [] {
      ExercisesWithProgressMembers(exercises[1..], m);
      var r := ExercisesWithProgress(exercises, m);
      forall ex | ex in exercises
        ensures Recorded(ex, m) in r <==> Lookup(m, ex.id) != []
      {
        if Recorded(ex, m) in r {
          assert Recorded(ex, m).sets.value > 0 by {
            var k :| 0 <= k < |r| && r[k] == Recorded(ex, m);
          }
        }
        if ex != exercises[0] {
          assert ex in exercises[1..];
        }
      }
      forall x | x in r ensures exists ex :: ex in exercises && x == Recorded(ex, m) {
        if x != Recorded(exercises[0], m) {
          assert x in ExercisesWithProgress(exercises[1..], m);
          var ex :| ex in exercises[1..] && x == Recorded(ex, m);
          assert ex in exercises;
        }
      }
    }
  }

  /** Nothing is recorded exactly when no plan exercise has a completed set. */
  lemma {:induction false} ExercisesWithProgressEmpty(exercises: seq<Exercise>, m: map<int, seq<int>>)
    ensures ExercisesWithProgress(exercises, m) == [] <==>
              forall ex :: ex in exercises ==> Lookup(m, ex.id) == []
  {
    if exercises != [] {
      ExercisesWithProgressEmpty(exercises[1..], m);
      assert forall ex :: ex in exercises ==> ex == exercises[0] || ex in exercises[1..];
    }
  }

  /** The filter works piece by piece, so it keeps the plan's order. */
  lemma {:induction false} ExercisesWithProgressAppend(a: seq<Exercise>, b: seq<Exercise>, m: map<int, seq<int>>)
    ensures ExercisesWithProgress(a + b, m) == ExercisesWithProgress(a, m) + ExercisesWithProgress(b, m)
  {
    if a != [] {
      var ab := a + b;
      assert ab != [] && ab[0] == a[0] && ab[1..] == a[1..] + b;
      ExercisesWithProgressAppend(a[1..], b, m);
      var x := Recorded(a[0], m);
      if x.sets.value > 0 {
        assert ExercisesWithProgress(ab, m) == [x] + ExercisesWithProgress(a[1..] + b, m);
        assert ExercisesWithProgress(a, m) == [x] + ExercisesWithProgress(a[1..], m);
        assert [x] + (ExercisesWithProgress(a[1..], m) + ExercisesWithProgress(b, m))
            == ([x] + ExercisesWithProgress(a[1..], m)) + ExercisesWithProgress(b, m);
      } else {
        assert ExercisesWithProgress(ab, m) == ExercisesWithProgress(a[1..] + b, m);
        assert ExercisesWithProgress(a, m) == ExercisesWithProgress(a[1..], m);
      }
    } else {
      assert a + b == b;
    }
  }

  /** The request `finishWorkout` sends for a session, or None when no set
      of any plan exercise is completed (including a plan without exercises). */
  function FinishRequest(s: Session, completedAt: string, durationSeconds: int): (r: Option<HistoryPayload>)
    ensures r.None? <==> forall ex :: ex in PlanExercises(s.plan) ==> Lookup(s.completedSets, ex.id) == []
    ensures r.Some? ==>
              && r.value.workoutPlanId == s.plan.id
              && r.value.exercisesData == ExercisesWithProgress(PlanExercises(s.plan), s.completedSets)
              && r.value.completedAt == completedAt
              && r.value.durationSeconds == durationSeconds
  {
    ExercisesWithProgressEmpty(PlanExercises(s.plan), s.completedSets);
    var data := ExercisesWithProgress(PlanExercises(s.plan), s.completedSets);
    if data == [] then None
    else Some(HistoryPayload(s.plan.id, data, completedAt, durationSeconds))
  }

  // ---- The controller ----

  /** The provider's state cells and the storage slot it writes after every
      change of the session. `lastTick` is the instant of the last timer update. */
  class SessionController {
    var active: Option<Session>
    var modalOpen: bool
    var elapsed: int
    var stored: Option<Session>
    ghost var lastTick: int

    /** The store mirrors the session, and the timer shows 0 without a
        session and otherwise the seconds since its start at the last update. */
    ghost predicate Valid()
      reads this
    {
      && stored == active
      && (active.None? ==> elapsed == 0)
      && (active.Some? ==> elapsed == ElapsedSeconds(lastTick, active.value.startTime))
    }

    /** Mounting: a stored session is resumed verbatim with the modal closed;
        an unreadable slot is cleared. */
    constructor Mount(slot: StoredSlot, now: int)
      ensures Valid()
      ensures slot.Holds? ==> active == Some(slot.session)
      ensures !slot.Holds? ==> active == None
      ensures !modalOpen
      ensures lastTick == now
    {
      active := if slot.Holds? then Some(slot.session) else None;
      stored := active;
      modalOpen := false;
      elapsed := if slot.Holds? then ElapsedSeconds(now, slot.session.startTime) else 0;
      lastTick := now;
    }

    /** `startWorkout`: a fresh session replaces whatever was there. */
    method StartWorkout(plan: WorkoutPlan, now: int)
      modifies this
      ensures Valid()
      ensures active == Some(Session(plan, now, map[]))
      ensures modalOpen
      ensures elapsed == 0
    {
      active := Some(Session(plan, now, map[]));
      modalOpen := true;
      stored := active;
      elapsed := ElapsedSeconds(now, now);
      lastTick := now;
    }

    /** `cancelWorkout`: discards the session only when the user confirms. */
    method CancelWorkout(confirmed: bool)
      requires Valid()
      modifies this
      ensures Valid()
      ensures confirmed ==> active == None && !modalOpen && stored == None && elapsed == 0
      ensures !confirmed ==> active == old(active) && modalOpen == old(modalOpen) && elapsed == old(elapsed)
    {
      if confirmed {
        active := None;
        modalOpen := false;
        stored := None;
        elapsed := 0;
      }
    }

    /** `toggleSet`: toggles one index of one exercise's entry; plan, start
        time, other entries and the modal flag are kept. The timer effect
        re-runs at `now` because the session object changed. */
    method ToggleSet(exerciseId: int, setIndex: int, now: int)
      requires Valid()
      modifies this
      ensures Valid()
      ensures modalOpen == old(modalOpen)
      ensures old(active).None? ==> active == None && elapsed == old(elapsed)
      ensures old(active).Some? ==>
                active.Some?
                && active.value.plan == old(active).value.plan
                && active.value.startTime == old(active).value.startTime
                && active.value.completedSets == ToggleEntry(old(active).value.completedSets, exerciseId, setIndex)
                && elapsed == ElapsedSeconds(now, active.value.startTime)
    {
      if active.Some? {
        var s := active.value;
        active := Some(s.(completedSets := ToggleEntry(s.completedSets, exerciseId, setIndex)));
        stored := active;
        elapsed := ElapsedSeconds(now, s.startTime);
        lastTick := now;
      }
    }

    /** One timer tick at `now` (the interval only runs while a session exists). */
    method Tick(now: int)
      requires Valid()
      modifies this
      ensures Valid()
      ensures active == old(active) && modalOpen == old(modalOpen)
      ensures active.Some? ==> elapsed == ElapsedSeconds(now, active.value.startTime) && lastTick == now
      ensures active.None? ==> elapsed == 0
    {
      if active.Some? {
        elapsed := ElapsedSeconds(now, active.value.startTime);
        lastTick := now;
      }
    }

    /** `toggleModal(isOpen?)`: sets the flag, or flips it when no value is given. */
    method ToggleModal(isOpen: Option<bool>)
      modifies this`modalOpen
      ensures isOpen.Some? ==> modalOpen == isOpen.value
      ensures isOpen.None? ==> modalOpen == !old(modalOpen)
    {
      modalOpen := if isOpen.Some? then isOpen.value else !modalOpen;
    }

    /** `finishWorkout`: builds the payload from the session and the timer's
        current value; only a successful save ends the session. */
    method FinishWorkout(completedAt: string, serverOk: bool) returns (outcome: FinishOutcome)
      requires Valid()
      modifies this
      ensures Valid()
      ensures old(active).None? ==> outcome == NoSession
      ensures old(active).Some? ==>
                var req := FinishRequest(old(active).value, completedAt, old(elapsed));
                && (req.None? ==> outcome == NothingCompleted)
                && (req.Some? && serverOk ==> outcome == Saved(req.value))
                && (req.Some? && !serverOk ==> outcome == SaveFailed(req.value))
      ensures outcome.Saved? ==> active == None && !modalOpen && stored == None && elapsed == 0
      ensures !outcome.Saved? ==> active == old(active) && modalOpen == old(modalOpen) && elapsed == old(elapsed)
    {
      if active.None? {
        return NoSession;
      }
      var req := FinishRequest(active.value, completedAt, elapsed);
      if req.None? {
        return NothingCompleted;
      }
      if serverOk {
        active := None;
        modalOpen := false;
        stored := None;
        elapsed := 0;
        outcome := Saved(req.value);
      } else {
        outcome := SaveFailed(req.value);
      }
    }
  }
}
