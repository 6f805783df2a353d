/** The plan editor's exercise card: its derived target, the completed flag,
    one button per set, the progress line, and the edit form's save. */
module ExerciseItem {
  import opened WorkoutTypes
  import opened SetTracking
  import opened Progress

  /** What the card shows for an exercise and its completed indices. */
  datatype ItemView = ItemView(
    totalSets: int,
    allSetsCompleted: bool,
    buttons: seq<SetButton>,
    showProgressLine: bool)

  function View(exercise: Exercise, completedSets: seq<int>): (v: ItemView)
    ensures v.totalSets == TargetSets(exercise.sets)
    ensures v.allSetsCompleted <==> |completedSets| == v.totalSets
    ensures |v.buttons| == if v.totalSets < 0 then 0 else v.totalSets
    ensures forall k :: 0 <= k < |v.buttons| ==>
              v.buttons[k].index == k && (v.buttons[k].done <==> k in completedSets)
    ensures v.showProgressLine <==> v.totalSets > 1
  {
    var total := TargetSets(exercise.sets);
    ItemView(total, |completedSets| == total, SetButtons(total, completedSets), total > 1)
  }

  /** With distinct indices inside the target, the card is marked complete
      exactly when every one of its set buttons shows done. */
  lemma CompletedIffEveryButtonDone(exercise: Exercise, completedSets: seq<int>)
    requires NonNegativeTarget(exercise.sets)
    requires NoDup(completedSets) && InRange(completedSets, TargetSets(exercise.sets))
    ensures View(exercise, completedSets).allSetsCompleted
        <==> forall b :: b in View(exercise, completedSets).buttons ==> b.done
  {
    var v := View(exercise, completedSets);
    CompletedBound(completedSets, v.totalSets);
    if forall b :: b in v.buttons ==> b.done {
      forall i | 0 <= i < v.totalSets ensures i in completedSets {
        assert v.buttons[i] in v.buttons;
      }
    }
  }

  /** The values the edit form starts from: a missing number is an empty field. */
  datatype EditForm = EditForm(name: string, sets: Option<int>, reps: Option<int>, weight: Option<real>)

  function InitialForm(exercise: Exercise): (f: EditForm)
    ensures f.name == exercise.name && f.sets == exercise.sets
    ensures f.reps == exercise.reps && f.weight == exercise.weight
  {
    EditForm(exercise.name, exercise.sets, exercise.reps, exercise.weight)
  }

  /** `handleSave`: the exercise with name, sets, reps and weight taken from
      the form (an empty field becomes null) and every other field kept. */
  function HandleSave(exercise: Exercise, form: EditForm): (r: Exercise)
    ensures r.name == form.name && r.sets == form.sets && r.reps == form.reps && r.weight == form.weight
    ensures r.id == exercise.id && r.workoutPlanId == exercise.workoutPlanId
    ensures r.orderIndex == exercise.orderIndex && r.done == exercise.done
  {
    exercise.(name := form.name, sets := form.sets, reps := form.reps, weight := form.weight)
  }

  /** Saving the form as it was opened gives back the same exercise. */
  lemma SaveUntouchedForm(exercise: Exercise)
    ensures HandleSave(exercise, InitialForm(exercise)) == exercise
  {
  }
}
