# glog workout tracker — verified model of the session core

This project models the core of the glog workout tracker in Dafny:

- **The active-workout session** (`ActiveWorkoutContext`). There is at most one in-progress workout: a plan snapshot, a start instant, and the completed set indices per exercise id. The session covers:
  - the timer, which recomputes whole seconds from the fixed start;
  - the one-slot local store that mirrors the session;
  - `startWorkout`, `toggleSet`, `toggleModal`, `cancelWorkout` (with the user's confirmation) and `finishWorkout`. Finishing builds the history request from the exercises that have a completed set, and ends the session only when the save succeeds.
- **The in-progress view** (`ActiveWorkoutModal`): total target sets, the completed count, the progress percentage, the per-exercise "fully complete" flag, the set buttons and the render guard.
- **The plan editor** (`WorkoutModal`): its own completion map and toggle, the progress figures, and the local exercise list edits (append, delete by id, replace by id). It also covers the guards of adding an exercise and of completing a workout.
- **The exercise card** (`ExerciseItem`): the target `sets || 1`, the completed flag, the set buttons, the progress line, and the edit form's save.
- **The schema-migration runner** (`Migrations`). It applies the versions missing from `schema_migrations` in ascending order, records each version only after its `up` succeeded, stops at the first failure, and rolls back the highest applied version.

The shared modules are these:

- `WorkoutTypes` holds exercises, plans, the target rule `sets || 1` and the rendered set indices.
- `SetTracking` holds the remove-if-present / append-if-absent toggle on one list and on the completion map.
- `Progress` holds the sums and the percentage.
- `IntSets` holds the least and greatest element of a finite set, plus a cardinality lemma.

`Scenarios` drives whole sessions and migration runs through the stateful classes.

Modelling choices:

- Stateful code is modelled as classes whose fields are the source's state cells:
  - `SessionController`: session, modal flag, elapsed seconds, stored slot;
  - `PlanEditor`: exercise list, completion map, current plan id;
  - `SchemaMigrations`: the recorded version set.
  Their methods state the whole new state. Each method is one atomic step; requests that interleave are not modelled (see "Left out").
- Pure derivations are modelled as functions with named results, and lemmas relate them.
- Time, the confirmation answer, the server's answers and the stored slot's content are parameters.
- Percentages are exact reals.

Behaviour the model follows as the code has it:

- Toggling a set twice is not the identity in general.
  - It restores the exact list when the index was absent (`SetTracking.ToggleTwiceAbsent`), and when it was present once and last (`SetTracking.ToggleTwiceLast`).
  - A present index that is not last moves to the end (`SetTracking.ToggleTwiceSameIndices`).
  - Toggling twice on an exercise with no entry leaves an empty entry behind (`SetTracking.ToggleEntryTwiceAbsent`).
- `toggleModal` changes the flag even when there is no session.
- `cancelWorkout` does not look at whether a session exists.
- `startWorkout` silently replaces an existing session.
- The plan editor's completed count sums every entry of its map, including entries of exercises deleted since. Its percentage can therefore pass 100 (`WorkoutModal.StaleEntriesCounted`: 200%).
- With `sets || 1`, a negative target is kept. Such a card then shows no set buttons, and the total can fall below the number of exercises. The bounds lemmas assume targets that are absent or non-negative.

## Model

| member | source | states |
|---|---|---|
| WorkoutTypes.PlanExercises | components/ActiveWorkoutModal.tsx:33 | a missing exercise list reads as empty, otherwise the list itself |
| WorkoutTypes.TargetSets | components/ExerciseItem.tsx:21 | `sets \|\| 1`: null or 0 gives 1, any other value (negative included) is kept; never 0 |
| WorkoutTypes.SetIndices | components/ActiveWorkoutModal.tsx:125 | `Array.from({length: n})` indices: exactly 0..n-1 in order, none when n <= 0 |
| WorkoutTypes.SetButtons | components/ExerciseItem.tsx:132-145 | one button per index 0..n-1; button k toggles index k and shows done exactly when k is in the completed list |
| SetTracking.Lookup | components/ActiveWorkoutContext.tsx:136 | `completedSets[id] \|\| []`: the entry, or empty when there is none |
| SetTracking.Without | components/ActiveWorkoutContext.tsx:140 | the filter drops every occurrence of the index and keeps every other value with its multiplicity |
| SetTracking.WithoutAppend | components/ActiveWorkoutContext.tsx:140 | the filter distributes over concatenation, so the kept values stay in their order |
| SetTracking.Toggle | components/ActiveWorkoutContext.tsx:139-143 | membership of the index flips and other members are kept; a present index is filtered out, an absent one is appended at the end |
| SetTracking.ToggleEntry | components/ActiveWorkoutContext.tsx:145-151 | only the toggled exercise's entry changes (created when missing); every other entry reads the same |
| SetTracking.WithoutAbsent | components/ActiveWorkoutContext.tsx:140 | filtering out an absent index returns the same list |
| SetTracking.WithoutAppended | components/ActiveWorkoutContext.tsx:140-142 | removing an index that was just appended to a list without it restores that list |
| SetTracking.ToggleTwiceAbsent | components/ActiveWorkoutContext.tsx:136-143 | toggling an absent index twice restores the exact list |
| SetTracking.ToggleTwiceSameIndices | components/ActiveWorkoutContext.tsx:136-143 | toggling any index twice restores the set of indices; a present index moves to the end |
| SetTracking.ToggleTwiceLast | components/ActiveWorkoutContext.tsx:136-143 | an index present once and last is restored in place by two toggles |
| SetTracking.WithoutNoDup | components/ActiveWorkoutContext.tsx:140 | the filter keeps a duplicate-free list duplicate-free and removes one element when present |
| SetTracking.ToggleNoDup | components/ActiveWorkoutContext.tsx:139-143 | toggling keeps a list duplicate-free and moves its length by exactly one |
| SetTracking.ToggleInRange | components/ActiveWorkoutContext.tsx:139-143 | toggling an index within the target keeps every listed index within the target |
| SetTracking.ToggleEntryTwiceAbsent | components/ActiveWorkoutContext.tsx:133-151 | toggling an absent index twice leaves every exercise's list as it was; the whole map is restored when the entry existed, and otherwise an empty entry is left behind |
| Progress.TotalSets | components/WorkoutModal.tsx:257 | the sum of `sets \|\| 1`; at least the number of exercises when no target is negative |
| Progress.CompletedCount | components/WorkoutModal.tsx:258-261 | the sum of all entry lengths; 0 for an empty map or all-empty entries |
| Progress.CompletedCountRemove | components/ActiveWorkoutModal.tsx:36-39 | the sum is independent of the order of the entries: any entry can be taken first |
| Progress.CompletedCountUpdate | components/WorkoutModal.tsx:258-261 | replacing or adding one entry changes the sum by the difference of lengths |
| Progress.ToggleEntryCount | components/WorkoutModal.tsx:118-133 | one toggle on a duplicate-free entry changes the completed count by exactly -1 or +1 |
| Progress.Percentage | components/WorkoutModal.tsx:283-284 | 0 when the total is not positive, else p·total = 100·completed; within 0..100 when completed <= total, and 100 exactly when they are equal |
| Progress.CompletedBound | components/ActiveWorkoutModal.tsx:96-98 | a duplicate-free list of indices in [0, n) has at most n entries, and exactly n iff it lists every index |
| Progress.CompletedWithinTotal | components/ActiveWorkoutModal.tsx:35-40 | with the map matching the plan, completed <= total and the progress is at most 100 |
| ActiveWorkoutContext.ElapsedSeconds | components/ActiveWorkoutContext.tsx:80-84 | whole seconds: r·1000 <= now - start < (r+1)·1000, non-negative from the start on |
| ActiveWorkoutContext.ElapsedMonotone | components/ActiveWorkoutContext.tsx:80-84 | recomputed from the fixed start, the elapsed seconds never decrease |
| ActiveWorkoutContext.ElapsedShift | components/ActiveWorkoutContext.tsx:80-84 | the elapsed seconds depend only on now - start |
| ActiveWorkoutContext.Recorded | components/ActiveWorkoutContext.tsx:161-166 | the exercise with `sets` replaced by its completed count and every other field kept |
| ActiveWorkoutContext.ExercisesWithProgress | components/ActiveWorkoutContext.tsx:159-168 | no more entries than plan exercises, each with a positive `sets` |
| ActiveWorkoutContext.ExercisesWithProgressMembers | components/ActiveWorkoutContext.tsx:159-168 | every entry is a recorded plan exercise, and a plan exercise is recorded iff it has a completed set |
| ActiveWorkoutContext.ExercisesWithProgressEmpty | components/ActiveWorkoutContext.tsx:159-173 | the list is empty iff no plan exercise has a completed set |
| ActiveWorkoutContext.ExercisesWithProgressAppend | components/ActiveWorkoutContext.tsx:159-168 | the filter distributes over concatenation, so plan order is kept |
| ActiveWorkoutContext.FinishRequest | components/ActiveWorkoutContext.tsx:155-184 | no request iff nothing is completed (a plan without exercises included); otherwise plan id, the filtered list, the timestamp and the duration |
| ActiveWorkoutContext.SessionController.Mount | components/ActiveWorkoutContext.tsx:58-71 | a stored session is resumed verbatim with the modal closed and the timer from its original start; an empty or unreadable slot gives no session |
| ActiveWorkoutContext.SessionController.StartWorkout | components/ActiveWorkoutContext.tsx:101-113 | a fresh session (this plan, start = now, no completed set) replaces any existing one, opens the modal and is stored |
| ActiveWorkoutContext.SessionController.CancelWorkout | components/ActiveWorkoutContext.tsx:115-130 | confirmed: no session, modal closed, store cleared, timer 0; declined: nothing changes |
| ActiveWorkoutContext.SessionController.ToggleSet | components/ActiveWorkoutContext.tsx:132-153 | with a session only the toggled entry changes (plan, start, modal kept, store updated); without one nothing changes |
| ActiveWorkoutContext.SessionController.Tick | components/ActiveWorkoutContext.tsx:74-90 | the timer shows the seconds since the session's start, or 0 without a session; nothing else changes |
| ActiveWorkoutContext.SessionController.ToggleModal | components/ActiveWorkoutContext.tsx:198-200 | an explicit value sets the flag, no value flips it |
| ActiveWorkoutContext.SessionController.FinishWorkout | components/ActiveWorkoutContext.tsx:155-196 | no session: no-op; nothing completed: warning, no request, no change; else the request with the current elapsed value, and only a successful save clears session, modal and store |
| ActiveWorkoutModal.Card | components/ActiveWorkoutModal.tsx:95-130 | an exercise is fully complete iff its completed count equals `sets \|\| 1`; button k toggles k and shows done iff k is completed |
| ActiveWorkoutModal.Render | components/ActiveWorkoutModal.tsx:30-40 | rendered iff the modal is open and a session exists; header figures are the total, completed count and percentage, one card per plan exercise |
| ActiveWorkoutModal.CardCompleteIffButtonsDone | components/ActiveWorkoutModal.tsx:96-130 | with distinct in-range indices, a card is fully complete iff every one of its buttons shows done |
| ActiveWorkoutModal.RenderedProgressBounded | components/ActiveWorkoutModal.tsx:35-40 | with the map matching the plan the progress is within 0..100, and a card is fully complete iff all its buttons show done |
| ActiveWorkoutModal.ClickSetButton | components/ActiveWorkoutModal.tsx:125-130 | clicking button i of card k is `toggleSet(exercise k's id, i)` on the session; plan, start and the open modal are kept, and the timer is recomputed |
| ExerciseItem.View | components/ExerciseItem.tsx:21-22 | target `sets \|\| 1`; complete iff the completed count equals it; buttons for 0..target-1 done iff listed; the progress line iff target > 1 |
| ExerciseItem.CompletedIffEveryButtonDone | components/ExerciseItem.tsx:132-145 | with distinct in-range indices, the card is complete iff every set button shows done |
| ExerciseItem.InitialForm | components/ExerciseItem.tsx:25-30 | the edit form starts from the exercise's name, sets, reps and weight |
| ExerciseItem.HandleSave | components/ExerciseItem.tsx:32-39 | name, sets, reps and weight come from the form; id, plan id, order and done flag are kept |
| ExerciseItem.SaveUntouchedForm | components/ExerciseItem.tsx:25-39 | saving the form as opened returns the same exercise |
| WorkoutModal.Trim | components/WorkoutModal.tsx:42 | the trimmed name is a slice of the name with only white space cut before and after it, and it neither starts nor ends with white space |
| WorkoutModal.HasPlanId | components/WorkoutModal.tsx:44 | `!currentPlanId` holds exactly for a missing id and for id 0 |
| WorkoutModal.TrimEmptyIffBlank | components/WorkoutModal.tsx:42 | the trimmed name is empty iff the name is all white space |
| WorkoutModal.WithoutExercise | components/WorkoutModal.tsx:111 | exactly the exercises with that id leave; every other one keeps its multiplicity |
| WorkoutModal.WithoutExerciseAppend | components/WorkoutModal.tsx:111 | deleting distributes over concatenation, so the order of the rest is kept |
| WorkoutModal.ReplaceExercise | components/WorkoutModal.tsx:272-276 | same length and ids; positions with the updated id hold the update, all others are unchanged |
| WorkoutModal.ReplaceExerciseProperties | components/WorkoutModal.tsx:272-276 | replacing twice equals replacing once; an unknown id changes nothing |
| WorkoutModal.NewExerciseRequest | components/WorkoutModal.tsx:79-86 | the request carries the plan id, the form's fields and order index = current list length |
| WorkoutModal.NewPlanName | components/WorkoutModal.tsx:52 | the workout name, or "<day> Workout" when it is empty |
| WorkoutModal.CompleteWorkout | components/WorkoutModal.tsx:136-158 | refused without a saved plan, then refused with no exercise; otherwise the plan id and the whole list are sent |
| WorkoutModal.StaleEntriesCounted | components/WorkoutModal.tsx:256-284 | two one-set exercises both done, then one deleted: 2 of 1 sets, 200% |
| WorkoutModal.PlanEditor.constructor | components/WorkoutModal.tsx:20-32 | the plan's exercises (or none), an empty completion map, the plan's id as current id |
| WorkoutModal.PlanEditor.CompletionPercentage | components/WorkoutModal.tsx:283-284 | 0 without a positive total, else percentage·total = 100·completed over the editor's state |
| WorkoutModal.PlanEditor.HandleToggleSet | components/WorkoutModal.tsx:118-134 | the toggle on a copy of the map; other exercises' entries are untouched |
| WorkoutModal.PlanEditor.HandleDeleteExercise | components/WorkoutModal.tsx:104-116 | after a successful delete exactly that id leaves the list; after a failure nothing changes |
| WorkoutModal.PlanEditor.HandleUpdateExercise | components/WorkoutModal.tsx:262-281 | after a successful save the matching exercise is replaced in place; after a failure nothing changes |
| WorkoutModal.PlanEditor.HandleAddExercise | components/WorkoutModal.tsx:41-102 | a blank name does nothing; without a plan id (or id 0) a plan is created first and a failure stops there; the exercise is requested with the next order index and appended when returned |
| IntSets.Max | lib/migrations.ts:101-107 | the last version of the ascending applied list is the greatest applied version |
| Migrations.Insert | lib/migrations.ts:60-62 | inserting keeps every element (multiset) |
| Migrations.InsertSorted | lib/migrations.ts:60-62 | inserting into a version-ordered list keeps it ordered |
| Migrations.SortByVersion | lib/migrations.ts:60-62 | the sorted copy is ordered by version and a permutation of the list |
| Migrations.SortStable | lib/migrations.ts:60-62 | migrations sharing a version keep their list order |
| Migrations.Run | lib/migrations.ts:66-84 | the loop over the sorted list as a recursive function; its contract says the table and counter only grow and a failing version was pending. What it records and why it fails are stated by `RunRecordsOnlyUp`, `RunFailureCause` and `RunSucceeds` |
| Migrations.PendingVersions | lib/migrations.ts:56-67 | a version is pending iff some migration has it and it was not applied when the run started |
| Migrations.PendingAscending | lib/migrations.ts:60-67 | over the sorted copy, the pending versions come in ascending order |
| Migrations.RunExtends | lib/migrations.ts:66-73 | a run only appends to the attempts made so far |
| Migrations.RunAttempts | lib/migrations.ts:66-82 | the versions a run attempts are, in order, a prefix of the pending versions |
| Migrations.RunAttemptsAll | lib/migrations.ts:66-84 | a run that does not fail attempts every pending version, in list order |
| Migrations.RunFailsLast | lib/migrations.ts:76-82 | a failing run stops at the failing version: it is the last attempt |
| Migrations.RunRecords | lib/migrations.ts:71-82 | the table gains exactly the attempts other than a failing last one, and the counter counts them |
| Migrations.RunRecordsOnlyUp | lib/migrations.ts:67-74 | a version is recorded only if it was pending and a migration with that version has a succeeding `up` |
| Migrations.RunFailureCause | lib/migrations.ts:71-82 | a run fails only on a version whose migration's `up` fails, or whose insert fails because the version is already recorded |
| Migrations.RunSucceeds | lib/migrations.ts:66-84 | when every pending `up` succeeds, no pending version is listed twice and none is recorded yet, the run does not fail |
| Migrations.RunCount | lib/migrations.ts:65-90 | the table only grows, the counter equals the number of newly recorded versions, and it is unchanged iff nothing was recorded |
| Migrations.RunOrdered | lib/migrations.ts:56-67 | over a version-ordered list, the attempts are pending versions of the list, in ascending order |
| Migrations.RunMigrationsOrder | lib/migrations.ts:56-67 | a run attempts only versions not applied at its start and named by some migration, in ascending order |
| Migrations.RunMigrationsStop | lib/migrations.ts:66-84 | a run attempts every pending version unless one fails, and then stops at the failing one; `RunMigrationsCauses` and `RunMigrationsSucceeds` state when a failure can happen |
| Migrations.RunMigrationsRecords | lib/migrations.ts:65-90 | earlier successes stay recorded; `appliedCount` equals the number of newly recorded versions and is 0 ("up to date") iff nothing was recorded |
| Migrations.RunMigrationsCauses | lib/migrations.ts:56-84 | from the start state over the sorted copy: each newly recorded version belongs to a migration whose `up` succeeded; a failing version belongs to a migration whose `up` fails or was already recorded in this run |
| Migrations.RunMigrationsSucceeds | lib/migrations.ts:56-90 | when every migration not yet applied has a succeeding `up` and no pending version is listed twice, the run completes |
| Migrations.FindMigration | lib/migrations.ts:108 | found iff some migration has the version, and what is found has it |
| Migrations.FindMigrationFirst | lib/migrations.ts:108 | what is found is the first migration with that version |
| Migrations.SchemaMigrations.constructor | lib/migrations.ts:13-31 | the table holds the given versions |
| Migrations.SchemaMigrations.RunMigrations | lib/migrations.ts:49-91 | the loop over the sorted copy leaves the table and outcome of the recursive run specification |
| Migrations.SchemaMigrations.RollbackLastMigration | lib/migrations.ts:96-127 | nothing applied: no-op; otherwise targets the greatest version; not found, no `down` or a failing `down` change nothing; success removes only that version |
| Scenarios.PushDayRequest | components/ActiveWorkoutContext.tsx:159-184 | for Push Day with Bench sets 0, 1 and Fly set 0 done, the request lists Bench with 2 sets and Fly with 1 |
| Scenarios.PushDaySession | components/ActiveWorkoutContext.tsx:101-196 | Push Day, sets (1,0), (1,1), (2,0), finished 600 s later: Bench with 2 sets, Fly with 1, duration 600, session ended |
| Scenarios.RetryAfterFailedSave | components/ActiveWorkoutContext.tsx:155-196 | a failed save keeps the session, and the retry sends the same request |
| Scenarios.RestartKeepsStart | components/ActiveWorkoutContext.tsx:58-84 | after a reload the timer counts from the original start, not from 0 |
| Scenarios.SortExample | lib/migrations.ts:60-62 | versions 3, 1, 2 are sorted to 1, 2, 3 |
| Scenarios.RunExample | lib/migrations.ts:66-82 | over 1, 2, 3 with 1 applied: 2 and 3 recorded, or 2 failing stops the run |
| Scenarios.RollbackExample | lib/migrations.ts:107-108 | the greatest of {1, 2, 3} is 3, and the list's migration for 3 is found |
| Scenarios.FailingMigrationRun | lib/migrations.ts:49-91 | a failing migration 2 stops the run before 3 and records nothing |
| Scenarios.FixedMigrationRun | lib/migrations.ts:49-91 | with 2 fixed, 2 and 3 are applied and counted |
| Scenarios.RollbackAfterFix | lib/migrations.ts:96-127 | rolling back undoes 3 only |

## Left out

- Rendering, CSS, the body-overflow effect, `formatDuration` and `Math.round` of the shown percentage: presentation only.
- Network calls (`fetch`, `fetchWithAuth`, response JSON, error messages): each server answer is a parameter (`serverOk`, the created plan id, the created exercise).
- `localStorage` and `JSON.parse`: the slot is the value `StoredSlot` (empty, unreadable, or holding a session). Stored JSON that parses into something that is not a session is not modelled.
- `Date.now`, `setInterval` and `new Date().toISOString()`: instants and the completion timestamp are parameters. Timer ticks happen only where `Tick`, `ToggleSet`, `StartWorkout` or a mount is called.
- `SessionController.FinishWorkout`: toggles that arrive while the save is in flight are not modelled; the method is atomic.
- `PlanEditor.HandleAddExercise`, `PlanEditor.HandleDeleteExercise`, `PlanEditor.HandleUpdateExercise`: each is one atomic step. In the code each awaits the server and then writes a list built from the `exercises` it read before the await, and `order_index` comes from that same list. Interleaved handlers are not modelled. Two adds in flight at once send the same `order_index`, and the second write drops the first exercise. A delete made while an add is in flight comes back in the local list.
- Toasts, alerts, the confirmation dialog's promise plumbing and console logging: the confirmation is a boolean.
- `parseInt` and `parseFloat` of form fields, NaN, and floating point: form values arrive already parsed as optional numbers. The weight and the percentage are exact reals.
- JavaScript numbers: ids, versions and instants are unbounded integers.
- The plan editor's form-field resets, its `isEditing`, `isSaving` and `showAddForm` flags, and `onClose`: UI state only.
- `handleCreateOrUpdateWorkout`, `handleUpdateWorkoutName` and `handleDeleteWorkout` in components/WorkoutModal.tsx: plan CRUD outside the session core.
- The wiring from the exercise card's `onToggleSet(i)` to the editor's toggle: `ExerciseItem.View` gives the index each button passes, and `PlanEditor.HandleToggleSet` is the toggle.
- The history route and every other API route are not part of this model. The history route does not persist `completedAt` or `durationSeconds`. It also reads `workoutPlanId`/`exercisesData`, while the editor's complete request sends `workout_plan_id`/`exercises`. The model only records what is sent.
- The SQL of the migration table (`CREATE TABLE`, `applied_at`, the `name` column), and what `up` and `down` do to the schema. The table is its set of versions, and `up`/`down` are success or failure.
- lib/db.ts, the migration files under lib/migrations/ and scripts/migrate.ts are not part of this model.
- `Migrations.SortByVersion`: modelled as a stable insertion sort. Any stable sort by version yields the same order, which is what `Array.prototype.sort` guarantees for this comparator on finite versions.
- `Migrations.SchemaMigrations.RunMigrations`: a failure is returned as `Failed(version)` instead of being rethrown.
- `Progress.CompletedWithinTotal` and `ActiveWorkoutModal.RenderedProgressBounded` hold only under `Progress.WellFormed` (distinct ids, non-negative targets, keys that are plan ids, distinct in-range indices). The code does not enforce this, so it is a precondition rather than a guarantee.
