/** The in-progress workout view: what it derives from the session it is
    given, and which toggle each of its set buttons performs. */
module ActiveWorkoutModal {
  import opened WorkoutTypes
  import opened SetTracking
  import opened Progress
  import opened ActiveWorkoutContext

  /** One exercise of the view. */
  datatype ExerciseCard = ExerciseCard(
    exercise: Exercise,
    completed: seq<int>,
    isFullyComplete: bool,
    buttons: seq<SetButton>)

  /** The whole view: header figures and one card per plan exercise. */
  datatype ModalView = ModalView(
    planName: string,
    totalSets: int,
    completedSetsCount: nat,
    progress: real,
    cards: seq<ExerciseCard>)

  function Card(exercise: Exercise, completedSets: map<int, seq<int>>): (c: ExerciseCard)
    ensures c.exercise == exercise && c.completed == Lookup(completedSets, exercise.id)
    ensures c.isFullyComplete <==> |Lookup(completedSets, exercise.id)| == TargetSets(exercise.sets)
    ensures |c.buttons| == |SetIndices(TargetSets(exercise.sets))|
    ensures forall k :: 0 <= k < |c.buttons| ==>
              c.buttons[k].index == k && (c.buttons[k].done <==> k in Lookup(completedSets, exercise.id))
  {
    var done := Lookup(completedSets, exercise.id);
    var target := TargetSets(exercise.sets);
    ExerciseCard(exercise, done, |done| == target, SetButtons(target, done))
  }

  /** The view, or None (nothing rendered) unless the modal is open and a
      session exists. */
  function Render(active: Option<Session>, isModalOpen: bool): (v: Option<ModalView>)
    ensures v.Some? <==> isModalOpen && active.Some?
    ensures v.Some? ==>
              var s := active.value;
              var exercises := PlanExercises(s.plan);
              && v.value.planName == s.plan.name
              && v.value.totalSets == TotalSets(exercises)
              && v.value.completedSetsCount == CompletedCount(s.completedSets)
              && v.value.progress == Percentage(CompletedCount(s.completedSets), TotalSets(exercises))
              && |v.value.cards| == |exercises|
              && forall k :: 0 <= k < |exercises| ==> v.value.cards[k] == Card(exercises[k], s.completedSets)
  {
    if !isModalOpen || active.None? then None
    else
      var s := active.value;
      var exercises := PlanExercises(s.plan);
      var total := TotalSets(exercises);
      var completed := CompletedCount(s.completedSets);
      Some(ModalView(s.plan.name, total, completed, Percentage(completed, total),
                     seq(|exercises|, k requires 0 <= k < |exercises| => Card(exercises[k], s.completedSets))))
  }

  /** A card with distinct indices inside its target is marked fully
      complete exactly when all of its buttons show done. */
  lemma CardCompleteIffButtonsDone(exercise: Exercise, completedSets: map<int, seq<int>>)
    requires NonNegativeTarget(exercise.sets)
    requires NoDup(Lookup(completedSets, exercise.id))
    requires InRange(Lookup(completedSets, exercise.id), TargetSets(exercise.sets))
    ensures Card(exercise, completedSets).isFullyComplete
        <==> forall b :: b in Card(exercise, completedSets).buttons ==> b.done
  {
    var c := Card(exercise, completedSets);
    var done := Lookup(completedSets, exercise.id);
    var target := TargetSets(exercise.sets);
    CompletedBound(done, target);
    if forall b :: b in c.buttons ==> b.done {
      forall i | 0 <= i < target ensures i in done {
        assert c.buttons[i] in c.buttons;
      }
    }
  }

  /** With the completion map matching the plan, the progress bar stays
      within 0..100 and every card's buttons are all done exactly when the
      card is marked fully complete. */
  lemma RenderedProgressBounded(s: Session)
    requires WellFormed(PlanExercises(s.plan), s.completedSets)
    ensures var v := Render(Some(s), true).value;
            && 0.0 <= v.progress <= 100.0
            && forall k :: 0 <= k < |v.cards| ==>
                 (v.cards[k].isFullyComplete <==> forall b :: b in v.cards[k].buttons ==> b.done)
  {
    var exercises := PlanExercises(s.plan);
    var v := Render(Some(s), true).value;
    CompletedWithinTotal(exercises, s.completedSets);
    forall k | 0 <= k < |v.cards|
      ensures v.cards[k].isFullyComplete <==> forall b :: b in v.cards[k].buttons ==> b.done
    {
      assert v.cards[k] == Card(exercises[k], s.completedSets);
      CardCompleteIffButtonsDone(exercises[k], s.completedSets);
    }
  }

  /** Clicking set button `i` of card `k` is `toggleSet(exercise.id, i)`. */
  method ClickSetButton(c: SessionController, k: int, i: int, now: int)
    requires c.Valid()
    requires c.active.Some? && c.modalOpen
    requires 0 <= k < |Render(c.active, c.modalOpen).value.cards|
    requires 0 <= i < |Render(c.active, c.modalOpen).value.cards[k].buttons|
    modifies c
    ensures c.Valid()
    ensures c.active.Some? && c.modalOpen && c.stored == c.active
    ensures c.active.value.plan == old(c.active).value.plan
    ensures c.active.value.startTime == old(c.active).value.startTime
    ensures c.elapsed == ElapsedSeconds(now, c.active.value.startTime)
    ensures c.active.value.completedSets
         == ToggleEntry(old(c.active).value.completedSets, PlanExercises(old(c.active).value.plan)[k].id, i)
  {
    var card := Render(c.active, c.modalOpen).value.cards[k];
    var button := card.buttons[i];
    c.ToggleSet(card.exercise.id, button.index, now);
  }
}
