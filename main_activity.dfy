/**
 * The callbacks `AppNavigation` passes to the two screens: both the card's
 * complete button and the video auto-complete call `onMarkComplete`, which is
 * wired to `toggleExerciseCompletion`; the edit dialog saves through
 * `updateExercise` and the add screen through `addExercise`.
 */
module Wiring {
  import opened Wrappers
  import opened Entities
  import opened Dao
  import opened Repository
  import opened ViewModel
  import opened ListScreen
  import opened AddScreen

  /** `onMarkComplete`: toggles the exercise, whatever its current state. */
  method OnMarkComplete(viewModel: ExerciseViewModel, exercise: Exercise, now: int)
    requires viewModel.repository.dao.Valid()
    modifies viewModel.repository.dao
    ensures viewModel.repository.dao.Valid()
    ensures TablesOf(viewModel.repository.dao)
            == AfterUpdate(old(TablesOf(viewModel.repository.dao)), Toggled(exercise, now), now)
  {
    viewModel.ToggleExerciseCompletion(exercise, now);
  }

  /** One poll of the card's player: when the latch fires, the exercise is toggled. */
  method OnVideoPoll(viewModel: ExerciseViewModel, latch: CompletionLatch, exercise: Exercise,
                     sample: PlayerSample, now: int) returns (fired: bool)
    requires viewModel.repository.dao.Valid()
    modifies latch, viewModel.repository.dao
    ensures viewModel.repository.dao.Valid()
    ensures fired == Fires(old(latch.isCompleted), sample)
    ensures latch.isCompleted == (old(latch.isCompleted) || fired)
    ensures fired ==> TablesOf(viewModel.repository.dao)
                      == AfterUpdate(old(TablesOf(viewModel.repository.dao)), Toggled(exercise, now), now)
    ensures !fired ==> TablesOf(viewModel.repository.dao) == old(TablesOf(viewModel.repository.dao))
  {
    fired := latch.Poll(sample);
    if fired {
      OnMarkComplete(viewModel, exercise, now);
    }
  }

  /**
   * Watching a video to its end on an exercise that is already completed marks
   * it not completed, keeps its count and date, and logs nothing.
   */
  lemma AutoCompleteOnCompletedUncompletes(t: Tables, e: Exercise, now: int)
    requires LogInvariant(t.progress, t.progressSeq)
    requires e.isCompleted
    ensures var r := AfterUpdate(t, Toggled(e, now), now);
      && r.progress == t.progress
      && r.exercises == Replace(t.exercises, e.(isCompleted := false))
  {
    AfterUpdateCorrect(t, Toggled(e, now), now);
    assert Toggled(e, now) == e.(isCompleted := false);
  }

  /** Watching it on an exercise not yet completed completes it and logs one entry stamped `now`. */
  lemma AutoCompleteOnIncompleteLogs(t: Tables, e: Exercise, now: int)
    requires LogInvariant(t.progress, t.progressSeq)
    requires !e.isCompleted
    ensures var r := AfterUpdate(t, Toggled(e, now), now);
      && |r.progress| == |t.progress| + 1
      && r.progress[|t.progress|].exerciseId == e.id
      && r.progress[|t.progress|].dateCompleted == now
      && r.exercises == Replace(t.exercises, MarkedCompleted(e, now))
  {
    AfterUpdateCorrect(t, Toggled(e, now), now);
    MarkEqualsToggleOn(e, now);
  }

  /** `onUpdateExercise` from the edit dialog's confirm button. */
  method OnEditConfirm(viewModel: ExerciseViewModel, exercise: Exercise, name: string, reps: string,
                       sets: string, duration: string, now: int)
    requires viewModel.repository.dao.Valid()
    modifies viewModel.repository.dao
    ensures viewModel.repository.dao.Valid()
    ensures TablesOf(viewModel.repository.dao)
            == AfterUpdate(old(TablesOf(viewModel.repository.dao)), ConfirmEdit(exercise, name, reps, sets, duration), now)
  {
    viewModel.UpdateExercise(ConfirmEdit(exercise, name, reps, sets, duration), now);
  }

  /**
   * The edit goes through the repository's update, so editing a completed
   * exercise logs one more progress entry, as if it had been completed again;
   * editing an incomplete one logs nothing.
   */
  lemma EditLogsWhenCompleted(t: Tables, e: Exercise, name: string, reps: string, sets: string,
                              duration: string, now: int)
    requires LogInvariant(t.progress, t.progressSeq)
    ensures var r := AfterUpdate(t, ConfirmEdit(e, name, reps, sets, duration), now);
      && |r.progress| == |t.progress| + (if e.isCompleted then 1 else 0)
      && r.progress[..|t.progress|] == t.progress
  {
    AfterUpdateCorrect(t, ConfirmEdit(e, name, reps, sets, duration), now);
  }

  /** `onSaveExercise`: the built record is added under the next key, after every existing row. */
  method OnSaveExercise(viewModel: ExerciseViewModel, form: AddForm)
    requires viewModel.repository.dao.Valid()
    modifies viewModel.repository.dao
    ensures viewModel.repository.dao.Valid()
    ensures viewModel.repository.dao.exercises
            == old(viewModel.repository.dao.exercises) + [BuildExercise(form).(id := old(viewModel.repository.dao.exerciseSeq) + 1)]
    ensures viewModel.repository.dao.exerciseSeq == old(viewModel.repository.dao.exerciseSeq) + 1
    ensures viewModel.repository.dao.progress == old(viewModel.repository.dao.progress)
    ensures viewModel.repository.dao.progressSeq == old(viewModel.repository.dao.progressSeq)
  {
    viewModel.AddExercise(BuildExercise(form));
  }

  /** A saved exercise gets a key no row had. */
  lemma SavedExerciseHasNewKey(rows: seq<Exercise>, last: int, form: AddForm)
    requires TableInvariant(rows, last)
    ensures !HasId(rows, last + 1)
    ensures Upsert(rows, last, BuildExercise(form)).0 == rows + [BuildExercise(form).(id := last + 1)]
  {
    UpsertCorrect(rows, last, BuildExercise(form));
  }
}
