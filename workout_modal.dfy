/** The plan editor for one day: its local exercise list, its own set
    completion map, the progress it shows, and the guards of its handlers. */
module WorkoutModal {
  import opened WorkoutTypes
  import opened SetTracking
  import opened Progress

  // ---- String.prototype.trim ----

  /** The characters `trim` strips: ECMAScript white space and line terminators. */
  predicate IsWhitespace(c: char)
  {
    || c == '\t' || c == '\n' || c == '\U{000B}' || c == '\U{000C}' || c == '\r' || c == ' '
    || c == '\U{00A0}' || c == '\U{1680}' || ('\U{2000}' <= c <= '\U{200A}')
    || c == '\U{2028}' || c == '\U{2029}' || c == '\U{202F}' || c == '\U{205F}'
    || c == '\U{3000}' || c == '\U{FEFF}'
  }

  predicate AllWhitespace(s: string)
  {
    forall k :: 0 <= k < |s| ==> IsWhitespace(s[k])
  }

  function TrimStart(s: string): (r: string)
    ensures r != [] ==> !IsWhitespace(r[0])
    ensures |r| <= |s| && r == s[|s| - |r|..]
    ensures AllWhitespace(s[..|s| - |r|])
  {
    if s != [] && IsWhitespace(s[0]) then TrimStart(s[1..]) else s
  }

  function TrimEnd(s: string): (r: string)
    ensures r != [] ==> !IsWhitespace(r[|r| - 1])
    ensures |r| <= |s| && r == s[..|r|]
    ensures AllWhitespace(s[|r|..])
  {
    if s != [] && IsWhitespace(s[|s| - 1]) then
      var r := TrimEnd(s[..|s| - 1]);
      assert s[|r|..] == s[..|s| - 1][|r|..] + [s[|s| - 1]];
      r
    else s
  }

  function Trim(s: string): (r: string)
    ensures r != [] ==> !IsWhitespace(r[0]) && !IsWhitespace(r[|r| - 1])
    ensures exists i, j :: 0 <= i <= j <= |s| && r == s[i..j] && AllWhitespace(s[..i]) && AllWhitespace(s[j..])
  {
    var t := TrimStart(s);
    var r := TrimEnd(t);
    assert r != [] ==> r[0] == t[0];
    var i := |s| - |t|;
    var j := i + |r|;
    assert r == s[i..j];
    assert AllWhitespace(s[j..]) by {
      assert s[j..] == t[|r|..];
    }
    r
  }

  lemma {:induction false} TrimStartEmpty(s: string)
    ensures TrimStart(s) == [] <==> AllWhitespace(s)
  {
    if s != [] && IsWhitespace(s[0]) {
      TrimStartEmpty(s[1..]);
      AllWhitespaceTail(s);
    }
  }

  lemma AllWhitespaceTail(s: string)
    requires s != [] && IsWhitespace(s[0])
    ensures AllWhitespace(s) <==> AllWhitespace(s[1..])
  {
    if AllWhitespace(s[1..]) {
      forall k | 0 < k < |s| ensures IsWhitespace(s[k]) {
        assert s[k] == s[1..][k - 1];
      }
    }
  }

  /** `!name.trim()`: the name is blank exactly when it is all white space. */
  lemma TrimEmptyIffBlank(s: string)
    ensures Trim(s) == [] <==> AllWhitespace(s)
  {
    TrimStartEmpty(s);
    var t := TrimStart(s);
    if t != [] {
      assert TrimEnd(t) != [] by {
        if TrimEnd(t) == [] {
          assert !IsWhitespace(t[0]);
          TrimEndKeepsHead(t);
        }
      }
    }
  }

  /** Trimming the end never removes a first character that is not white space. */
  lemma {:induction false} TrimEndKeepsHead(t: string)
    requires t != [] && !IsWhitespace(t[0])
    ensures TrimEnd(t) != []
  {
    if IsWhitespace(t[|t| - 1]) {
      assert |t| > 1;
      TrimEndKeepsHead(t[..|t| - 1]);
    }
  }

  // ---- List edits ----

  /** `exercises.filter(ex => ex.id !== id)`. */
  function WithoutExercise(exercises: seq<Exercise>, id: int): (r: seq<Exercise>)
    ensures forall x :: multiset(r)[x] == if x.id == id then 0 else multiset(exercises)[x]
  {
    if exercises == [] then []
    else
      var rest := WithoutExercise(exercises[1..], id);
      assert exercises == [exercises[0]] + exercises[1..];
      if exercises[0].id == id then rest else [exercises[0]] + rest
  }

  /** Deleting keeps the order of what remains. */
  lemma {:induction false} WithoutExerciseAppend(a: seq<Exercise>, b: seq<Exercise>, id: int)
    ensures WithoutExercise(a + b, id) == WithoutExercise(a, id) + WithoutExercise(b, id)
  {
    if a == [] {
      assert a + b == b;
    } else {
      var ab := a + b;
      assert ab[0] == a[0] && ab[1..] == a[1..] + b;
      WithoutExerciseAppend(a[1..], b, id);
      if a[0].id == id {
        assert WithoutExercise(ab, id) == WithoutExercise(a[1..] + b, id);
      } else {
        assert WithoutExercise(ab, id) == [a[0]] + WithoutExercise(a[1..] + b, id);
        assert [a[0]] + (WithoutExercise(a[1..], id) + WithoutExercise(b, id))
            == ([a[0]] + WithoutExercise(a[1..], id)) + WithoutExercise(b, id);
      }
    }
  }

  /** `exercises.map(ex => ex.id === updated.id ? updated : ex)`. */
  function ReplaceExercise(exercises: seq<Exercise>, updated: Exercise): (r: seq<Exercise>)
    ensures |r| == |exercises|
    ensures forall k :: 0 <= k < |r| ==> r[k].id == exercises[k].id
    ensures forall k :: 0 <= k < |r| && exercises[k].id != updated.id ==> r[k] == exercises[k]
    ensures forall k :: 0 <= k < |r| && exercises[k].id == updated.id ==> r[k] == updated
  {
    seq(|exercises|, k requires 0 <= k < |exercises| =>
      if exercises[k].id == updated.id then updated else exercises[k])
  }

  /** Saving the same edit twice changes nothing more, and an edit whose id
      is not listed changes nothing. */
  lemma ReplaceExerciseProperties(exercises: seq<Exercise>, updated: Exercise)
    ensures ReplaceExercise(ReplaceExercise(exercises, updated), updated) == ReplaceExercise(exercises, updated)
    ensures (forall k :: 0 <= k < |exercises| ==> exercises[k].id != updated.id)
            ==> ReplaceExercise(exercises, updated) == exercises
  {
  }

  /** The body of the new-exercise request. */
  datatype ExerciseRequest = ExerciseRequest(
    workoutPlanId: int,
    name: string,
    sets: Option<int>,
    reps: Option<int>,
    weight: Option<real>,
    orderIndex: int)

  /** The body of the plan-creation request sent before the first exercise. */
  datatype PlanRequest = PlanRequest(dayOfWeek: int, name: string)

  /** The add-exercise form; an empty number field is None. */
  datatype NewExerciseForm = NewExerciseForm(name: string, sets: Option<int>, reps: Option<int>, weight: Option<real>)

  /** The requests `handleAddExercise` issued. */
  datatype AddOutcome = AddOutcome(planRequest: Option<PlanRequest>, exerciseRequest: Option<ExerciseRequest>)

  /** The request `handleCompleteWorkout` sends, if it gets that far. */
  datatype CompleteOutcome =
    | NoPlan          // "Please create a workout plan first"
    | NoExercises     // "Add some exercises before completing the workout"
    | Sent(workoutPlanId: int, exercises: seq<Exercise>, ok: bool)

  /** A plan id counts as present only when it is set and not 0 (`!currentPlanId`). */
  predicate HasPlanId(id: Option<int>): (r: bool)
    ensures !r <==> id == None || id == Some(0)
  {
    id.Some? && id.value != 0
  }

  function NewExerciseRequest(planId: int, form: NewExerciseForm, exercises: seq<Exercise>): (r: ExerciseRequest)
    ensures r.workoutPlanId == planId && r.orderIndex == |exercises|
    ensures r.name == form.name && r.sets == form.sets && r.reps == form.reps && r.weight == form.weight
  {
    ExerciseRequest(planId, form.name, form.sets, form.reps, form.weight, |exercises|)
  }

  /** The name a plan created on the fly gets: `workoutName || \`${dayName} Workout\``. */
  function NewPlanName(workoutName: string, dayName: string): (r: string)
    ensures workoutName != [] ==> r == workoutName
    ensures workoutName == [] ==> r == dayName + " Workout"
  {
    if workoutName != [] then workoutName else dayName + " Workout"
  }

  /** Completing a day: refused without a saved plan or with no exercise. */
  function CompleteWorkout(existingPlan: Option<WorkoutPlan>, exercises: seq<Exercise>, serverOk: bool): (r: CompleteOutcome)
    ensures r == NoPlan <==> existingPlan.None?
    ensures r == NoExercises <==> existingPlan.Some? && exercises == []
    ensures r.Sent? ==> r.workoutPlanId == existingPlan.value.id && r.exercises == exercises && r.ok == serverOk
  {
    if existingPlan.None? then NoPlan
    else if exercises == [] then NoExercises
    else Sent(existingPlan.value.id, exercises, serverOk)
  }

  /** The editor's completed count includes entries of exercises that were
      deleted, so its percentage can pass 100: two one-set exercises, both
      done, then the first deleted, shows 2 of 1 sets, 200%. */
  lemma StaleEntriesCounted(a: Exercise, b: Exercise)
    requires a.id != b.id && a.sets == Some(1) && b.sets == Some(1)
    ensures var m := ToggleEntry(ToggleEntry(map[], a.id, 0), b.id, 0);
            var rest := WithoutExercise([a, b], a.id);
            && rest == [b]
            && CompletedCount(m) == 2
            && TotalSets(rest) == 1
            && Percentage(CompletedCount(m), TotalSets(rest)) == 200.0
  {
    var m1 := ToggleEntry(map[], a.id, 0);
    CompletedCountUpdate(map[], a.id, [0]);
    CompletedCountUpdate(m1, b.id, [0]);
    assert [a, b][1..] == [b];
    assert WithoutExercise([b], a.id) == [b];
  }

  // ---- The editor state ----

  class PlanEditor {
    const existingPlan: Option<WorkoutPlan>
    const dayIndex: int
    const dayName: string
    var exercises: seq<Exercise>
    var completedSets: map<int, seq<int>>
    var currentPlanId: Option<int>

    /** Opening the editor: the plan's exercises (or none) and no completed set. */
    constructor (existingPlan: Option<WorkoutPlan>, dayIndex: int, dayName: string)
      ensures this.existingPlan == existingPlan && this.dayIndex == dayIndex && this.dayName == dayName
      ensures exercises == if existingPlan.Some? then PlanExercises(existingPlan.value) else []
      ensures completedSets == map[]
      ensures currentPlanId == if existingPlan.Some? then Some(existingPlan.value.id) else None
    {
      this.existingPlan := existingPlan;
      this.dayIndex := dayIndex;
      this.dayName := dayName;
      exercises := if existingPlan.Some? then PlanExercises(existingPlan.value) else [];
      completedSets := map[];
      currentPlanId := if existingPlan.Some? then Some(existingPlan.value.id) else None;
    }

    /** `completionPercentage` over the editor's current state. */
    function CompletionPercentage(): (p: real)
      reads this
      ensures TotalSets(exercises) <= 0 ==> p == 0.0
      ensures TotalSets(exercises) > 0 ==>
                p * (TotalSets(exercises) as real) == 100.0 * (CompletedCount(completedSets) as real)
    {
      var total := TotalSets(exercises);
      var done := CompletedCount(completedSets);
      Percentage(done, total)
    }

    /** `handleToggleSet`: the toggle on a copy of the map; other keys untouched. */
    method HandleToggleSet(exerciseId: int, setIndex: int)
      modifies this`completedSets
      ensures completedSets == ToggleEntry(old(completedSets), exerciseId, setIndex)
    {
      completedSets := ToggleEntry(completedSets, exerciseId, setIndex);
    }

    /** `handleDeleteExercise`: after a successful delete, exactly the
        exercises with that id leave the list; the completion map is kept. */
    method HandleDeleteExercise(exerciseId: int, serverOk: bool)
      modifies this`exercises
      ensures exercises == if serverOk then WithoutExercise(old(exercises), exerciseId) else old(exercises)
    {
      if serverOk {
        exercises := WithoutExercise(exercises, exerciseId);
      }
    }

    /** `handleUpdateExercise`: after a successful save the exercise with the
        same id is replaced in place. */
    method HandleUpdateExercise(updated: Exercise, serverOk: bool)
      modifies this`exercises
      ensures exercises == if serverOk then ReplaceExercise(old(exercises), updated) else old(exercises)
    {
      if serverOk {
        exercises := ReplaceExercise(exercises, updated);
      }
    }

    /** `handleAddExercise`: nothing for a blank name; otherwise a plan is
        created first when there is none, and the exercise is requested with
        the next order index and appended when the server returns it.
        `createdPlanId` and `created` are the two servers' answers. */
    method HandleAddExercise(form: NewExerciseForm, workoutName: string,
                             createdPlanId: Option<int>, created: Option<Exercise>)
      returns (outcome: AddOutcome)
      modifies this`exercises, this`currentPlanId
      ensures AllWhitespace(form.name) ==>
                outcome == AddOutcome(None, None)
                && exercises == old(exercises) && currentPlanId == old(currentPlanId)
      ensures !AllWhitespace(form.name) && !HasPlanId(old(currentPlanId)) ==>
                outcome.planRequest == Some(PlanRequest(dayIndex, NewPlanName(workoutName, dayName)))
      ensures !AllWhitespace(form.name) && !HasPlanId(old(currentPlanId)) && createdPlanId.None? ==>
                outcome.exerciseRequest.None?
                && exercises == old(exercises) && currentPlanId == old(currentPlanId)
      ensures !AllWhitespace(form.name) && HasPlanId(old(currentPlanId)) ==>
                outcome.planRequest.None?
                && currentPlanId == old(currentPlanId)
                && outcome.exerciseRequest == Some(NewExerciseRequest(old(currentPlanId).value, form, old(exercises)))
      ensures !AllWhitespace(form.name) && !HasPlanId(old(currentPlanId)) && createdPlanId.Some? ==>
                currentPlanId == createdPlanId
                && outcome.exerciseRequest == Some(NewExerciseRequest(createdPlanId.value, form, old(exercises)))
      ensures outcome.exerciseRequest.Some? ==>
                exercises == if created.Some? then old(exercises) + [created.value] else old(exercises)
    {
      TrimEmptyIffBlank(form.name);
      if Trim(form.name) == [] {
        return AddOutcome(None, None);
      }
      var planRequest: Option<PlanRequest> := None;
      var planId: int;
      if !HasPlanId(currentPlanId) {
        planRequest := Some(PlanRequest(dayIndex, NewPlanName(workoutName, dayName)));
        if createdPlanId.None? {
          return AddOutcome(planRequest, None);
        }
        currentPlanId := createdPlanId;
        planId := createdPlanId.value;
      } else {
        planId := currentPlanId.value;
      }
      var request := NewExerciseRequest(planId, form, exercises);
      if created.Some? {
        exercises := exercises + [created.value];
      }
      outcome := AddOutcome(planRequest, Some(request));
    }
  }
}
