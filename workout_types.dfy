/** Values shared by the workout components: plans, exercises and the
    per-exercise target set count that every component derives the same way. */
module WorkoutTypes {

  datatype Option<+T> = None | Some(value: T) {
    function GetOr(default: T): T {
      match this
      case Some(v) => v
      case None => default
    }
  }

  /** A plan exercise. `sets`, `reps` and `weight` are nullable in the
      source; `done` is an optional client-side flag. */
  datatype Exercise = Exercise(
    id: int,
    workoutPlanId: int,
    name: string,
    sets: Option<int>,
    reps: Option<int>,
    weight: Option<real>,
    orderIndex: int,
    done: Option<bool>)

  /** A weekly plan; `exercises` may be missing altogether. */
  datatype WorkoutPlan = WorkoutPlan(
    id: int,
    dayOfWeek: int,
    name: string,
    createdAt: string,
    exercises: Option<seq<Exercise>>)

  /** The exercises of a plan, a missing list read as empty. */
  function PlanExercises(plan: WorkoutPlan): (r: seq<Exercise>)
    ensures plan.exercises.None? ==> r == []
    ensures plan.exercises.Some? ==> r == plan.exercises.value
  {
    plan.exercises.GetOr([])
  }

  /** The target set count `sets || 1`: a null or zero target counts as one
      set; any other value, negative ones included, is kept. */
  function TargetSets(sets: Option<int>): (n: int)
    ensures sets.None? ==> n == 1
    ensures sets.Some? && sets.value == 0 ==> n == 1
    ensures sets.Some? && sets.value != 0 ==> n == sets.value
    ensures n != 0
  {
    if sets.Some? && sets.value != 0 then sets.value else 1
  }

  /** True when the target is a non-negative integer or absent, the only
      targets the plan editor is meant to produce. */
  predicate NonNegativeTarget(sets: Option<int>)
  {
    sets.None? || sets.value >= 0
  }

  /** The set indices a component renders a button for: those of
      `Array.from({ length: n })`, which is empty for a non-positive n. */
  function SetIndices(n: int): (r: seq<int>)
    ensures |r| == if n <= 0 then 0 else n
    ensures forall k :: 0 <= k < |r| ==> r[k] == k
    ensures forall i :: i in r <==> 0 <= i < n
  {
    if n <= 0 then []
    else
      var r := seq(n, k => k);
      forall i ensures i in r <==> 0 <= i < n {
        if i in r {
          var k :| 0 <= k < |r| && r[k] == i;
        }
        if 0 <= i < n {
          assert r[i] == i;
        }
      }
      r
  }

  /** A rendered set button: which index it toggles and whether it shows done. */
  datatype SetButton = SetButton(index: int, done: bool)

  /** The set buttons of an exercise with target `n` and completed list `completed`. */
  function SetButtons(n: int, completed: seq<int>): (r: seq<SetButton>)
    ensures |r| == |SetIndices(n)|
    ensures forall k :: 0 <= k < |r| ==> r[k].index == k && (r[k].done <==> k in completed)
  {
    var idx := SetIndices(n);
    seq(|idx|, k requires 0 <= k < |idx| => SetButton(idx[k], idx[k] in completed))
  }
}
