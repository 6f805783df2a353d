/** Whole sessions driven through the controller, from mount to finish. */
module Scenarios {
  import opened WorkoutTypes
  import opened SetTracking
  import opened ActiveWorkoutContext
  import opened Migrations
  import opened IntSets

  function Bench(): Exercise
  {
    Exercise(1, 7, "Bench", Some(3), Some(8), Some(60.0), 0, None)
  }

  function Fly(): Exercise
  {
    Exercise(2, 7, "Fly", Some(2), Some(12), Some(10.0), 1, None)
  }

  function PushDay(): WorkoutPlan
  {
    WorkoutPlan(7, 1, "Push Day", "2024-01-01", Some([Bench(), Fly()]))
  }

  /** With Bench sets 0 and 1 and Fly set 0 done, the history request lists
      Bench with 2 sets and Fly with 1. */
  lemma PushDayRequest(t0: int, completedAt: string)
    ensures FinishRequest(Session(PushDay(), t0, map[1 := [0, 1], 2 := [0]]), completedAt, 600)
         == Some(HistoryPayload(7, [Bench().(sets := Some(2)), Fly().(sets := Some(1))], completedAt, 600))
  {
    var m := map[1 := [0, 1], 2 := [0]];
    var plan := [Bench(), Fly()];
    assert PlanExercises(PushDay()) == plan;
    assert plan[1..] == [Fly()] && [Fly()][1..] == [];
    assert Recorded(Bench(), m) == Bench().(sets := Some(2));
    assert Recorded(Fly(), m) == Fly().(sets := Some(1));
    assert ExercisesWithProgress([Fly()], m) == [Fly().(sets := Some(1))];
    assert ExercisesWithProgress(plan, m) == [Bench().(sets := Some(2))] + [Fly().(sets := Some(1))];
    assert Bench() in plan && Lookup(m, Bench().id) != [];
    var r := FinishRequest(Session(PushDay(), t0, m), completedAt, 600);
    assert r.Some?;
    assert r.value.exercisesData == [Bench().(sets := Some(2)), Fly().(sets := Some(1))];
  }

  /** "Push Day" started at `t0`; sets (1,0), (1,1) and (2,0) done; finished
      600 s later: the history request lists Bench with 2 sets and Fly with
      1 set, other fields as planned, and a duration of 600 s, and the
      session ends. */
  method PushDaySession(t0: int, completedAt: string) returns (outcome: FinishOutcome, ended: bool)
    ensures outcome == Saved(HistoryPayload(7, [Bench().(sets := Some(2)), Fly().(sets := Some(1))],
                                           completedAt, 600))
    ensures ended
  {
    var c := new SessionController.Mount(Empty, t0);
    c.StartWorkout(PushDay(), t0);
    c.ToggleSet(1, 0, t0 + 20000);
    assert Toggle([], 0) == [0];
    assert c.active.value.completedSets == map[1 := [0]];
    c.ToggleSet(1, 1, t0 + 140000);
    assert [0] + [1] == [0, 1];
    assert c.active.value.completedSets == map[1 := [0, 1]];
    c.ToggleSet(2, 0, t0 + 400000);
    assert c.active.value.completedSets == map[1 := [0, 1], 2 := [0]];
    c.Tick(t0 + 600000);
    assert c.elapsed == 600;
    PushDayRequest(t0, completedAt);
    outcome := c.FinishWorkout(completedAt, true);
    ended := c.active.None? && c.stored.None? && !c.modalOpen;
  }

  /** A session whose save fails keeps its completed sets, and finishing
      again once the server answers sends the same request. */
  method RetryAfterFailedSave(t0: int, completedAt: string) returns (first: FinishOutcome, second: FinishOutcome)
    ensures first.SaveFailed? && second.Saved? && first.payload == second.payload
    ensures second.payload.exercisesData == [Bench().(sets := Some(1))]
  {
    var c := new SessionController.Mount(Empty, t0);
    c.StartWorkout(PushDay(), t0);
    c.ToggleSet(1, 2, t0 + 5000);
    assert Toggle([], 2) == [2];
    assert c.active.value.completedSets == map[1 := [2]];
    c.Tick(t0 + 60000);
    assert ExercisesWithProgress([Fly()], c.active.value.completedSets) == [];
    first := c.FinishWorkout(completedAt, false);
    second := c.FinishWorkout(completedAt, true);
  }

  /** A session restored after a restart keeps its start instant, so the
      timer continues from the original start rather than from 0. */
  method RestartKeepsStart(s: Session, now: int) returns (elapsed: int)
    requires now >= s.startTime
    ensures elapsed == (now - s.startTime) / 1000 && elapsed >= 0
  {
    var c := new SessionController.Mount(Holds(s), now);
    elapsed := c.elapsed;
  }

  function Initial(): Migration { Migration(1, "initial", true, Some(true)) }
  function AddWeight(): Migration { Migration(3, "add_weight", true, Some(true)) }
  function AddIndex(upOk: bool): Migration { Migration(2, "add_index", upOk, None) }

  lemma SortExample(upOk: bool)
    ensures SortByVersion([AddWeight(), Initial(), AddIndex(upOk)]) == [Initial(), AddIndex(upOk), AddWeight()]
  {
    var w, i, m2 := AddWeight(), Initial(), AddIndex(upOk);
    assert Insert(m2, []) == [m2];
    assert [m2][1..] == [];
    assert SortByVersion([m2]) == Insert(m2, SortByVersion([]));
    assert SortByVersion([m2]) == [m2];
    assert Insert(i, [m2]) == [i, m2];
    assert [i, m2][1..] == [m2];
    assert SortByVersion([i, m2]) == Insert(i, SortByVersion([m2]));
    assert SortByVersion([i, m2]) == [i, m2];
    assert Insert(w, [m2]) == [m2] + Insert(w, [m2][1..]);
    assert Insert(w, [m2]) == [m2, w];
    assert Insert(w, [i, m2]) == [i] + Insert(w, [m2]);
    assert Insert(w, [i, m2]) == [i, m2, w];
    assert [w, i, m2][1..] == [i, m2];
    assert SortByVersion([w, i, m2]) == Insert(w, SortByVersion([i, m2]));
  }

  /** The run over the list as given, with migration 2 succeeding or not. */
  lemma RunExample(upOk: bool)
    ensures Run([Initial(), AddIndex(upOk), AddWeight()], {1}, RunState({1}, 0, []))
         == if upOk then (RunState({1, 2, 3}, 2, [2, 3]), None) else (RunState({1}, 0, [2]), Some(2))
  {
    var ms := [Initial(), AddIndex(upOk), AddWeight()];
    var st := RunState({1}, 0, []);
    assert ms[1..] == [AddIndex(upOk), AddWeight()];
    assert Run(ms, {1}, st) == Run(ms[1..], {1}, st);
    if upOk {
      var st2 := RunState({1, 2}, 1, [2]);
      assert [AddIndex(upOk), AddWeight()][1..] == [AddWeight()];
      assert {1} + {2} == {1, 2} && [] + [2] == [2];
      assert Run(ms[1..], {1}, st) == Run([AddWeight()], {1}, st2);
      assert [2] + [3] == [2, 3] && {1, 2} + {3} == {1, 2, 3} && [AddWeight()][1..] == [];
      assert Run([AddWeight()], {1}, st2) == Run([], {1}, RunState({1, 2, 3}, 2, [2, 3]));
    } else {
      assert [] + [2] == [2];
    }
  }

  lemma RollbackExample()
    ensures Max({1, 2, 3}) == 3
    ensures FindMigration([Initial(), AddIndex(true), AddWeight()], 3) == Some(AddWeight())
  {
    var ms := [Initial(), AddIndex(true), AddWeight()];
    assert ms[1..] == [AddIndex(true), AddWeight()] && ms[1..][1..] == [AddWeight()];
  }

  /** Migrations 3, 1 and 2 listed out of order against a table holding 1,
      with 2 failing: 2 is attempted first and fails, so 3 is never
      attempted and the table is unchanged. */
  method FailingMigrationRun() returns (outcome: RunOutcome, table: set<int>)
    ensures outcome == Failed(2) && table == {1}
  {
    var t := new SchemaMigrations({1});
    SortExample(false);
    RunExample(false);
    outcome := t.RunMigrations([AddWeight(), Initial(), AddIndex(false)]);
    table := t.applied;
  }

  /** Once 2 is fixed, 2 and 3 are applied and counted. */
  method FixedMigrationRun() returns (outcome: RunOutcome, table: set<int>)
    ensures outcome == Completed(2) && table == {1, 2, 3}
  {
    var t := new SchemaMigrations({1});
    SortExample(true);
    RunExample(true);
    outcome := t.RunMigrations([AddWeight(), Initial(), AddIndex(true)]);
    table := t.applied;
  }

  /** Rolling back then undoes 3, the highest version, and only 3. */
  method RollbackAfterFix() returns (rollback: RollbackOutcome, table: set<int>)
    ensures rollback == RolledBack(3) && table == {1, 2}
  {
    var t := new SchemaMigrations({1, 2, 3});
    RollbackExample();
    rollback := t.RollbackLastMigration([Initial(), AddIndex(true), AddWeight()]);
    assert {1, 2, 3} - {3} == {1, 2};
    table := t.applied;
  }
}
