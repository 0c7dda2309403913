/**
 * `ExerciseViewModel`: the completion state machine and first-run seeding.
 * The `_exercises` state flow is the field `exercises`, a snapshot of the table
 * as last loaded; every coroutine is run to completion on the spot and the
 * clock is the parameter `now`.
 */
module ViewModel {
  import opened Wrappers
  import opened KotlinText
  import opened Entities
  import opened Sequences
  import opened Dao
  import opened Repository

  /**
   * The record `toggleExerciseCompletion` writes: the completed flag flips;
   * turning it on stamps `now` and counts one more completion, turning it off
   * keeps the last completion date and the count.
   */
  function Toggled(e: Exercise, now: int): (r: Exercise)
    ensures r.isCompleted == !e.isCompleted
    ensures !e.isCompleted ==> r.lastCompletedDate == Some(now) && r.completionCount == e.completionCount + 1
    ensures e.isCompleted ==> r.lastCompletedDate == e.lastCompletedDate && r.completionCount == e.completionCount
    ensures r.(isCompleted := e.isCompleted, lastCompletedDate := e.lastCompletedDate,
               completionCount := e.completionCount) == e
  {
    e.(isCompleted := !e.isCompleted,
       lastCompletedDate := if !e.isCompleted then Some(now) else e.lastCompletedDate,
       completionCount := if !e.isCompleted then e.completionCount + 1 else e.completionCount)
  }

  /** The record `markExerciseCompleted` writes for an exercise not yet completed. */
  function MarkedCompleted(e: Exercise, now: int): Exercise
  {
    e.(isCompleted := true, lastCompletedDate := Some(now), completionCount := e.completionCount + 1)
  }

  /** Marking an incomplete exercise completed writes what toggling it would. */
  lemma MarkEqualsToggleOn(e: Exercise, now: int)
    requires !e.isCompleted
    ensures MarkedCompleted(e, now) == Toggled(e, now)
  {
  }

  /**
   * Toggling on and then off counts exactly one completion, leaves the date at
   * the time it was turned on and restores every other field.
   */
  lemma ToggleOnThenOff(e: Exercise, on: int, off: int)
    requires !e.isCompleted
    ensures var r := Toggled(Toggled(e, on), off);
      && !r.isCompleted
      && r.completionCount == e.completionCount + 1
      && r.lastCompletedDate == Some(on)
      && r.(lastCompletedDate := e.lastCompletedDate, completionCount := e.completionCount) == e
  {
  }

  /** The record after toggling once at each of `times`, in order. */
  function ToggledAt(e: Exercise, times: seq<int>): Exercise
    decreases |times|
  {
    if times == [] then e else Toggled(ToggledAt(e, times[..|times| - 1]), times[|times| - 1])
  }

  /**
   * Over any run of toggles the count only grows, by one for every toggle that
   * turns the exercise on; the flag is the starting one flipped once per toggle.
   */
  lemma {:induction false} ToggleRun(e: Exercise, times: seq<int>)
    ensures var r := ToggledAt(e, times);
      && r.isCompleted == (e.isCompleted != (|times| % 2 == 1))
      && r.completionCount == e.completionCount + (|times| + (if e.isCompleted then 0 else 1)) / 2
      && r.completionCount >= e.completionCount
      && r.(isCompleted := e.isCompleted, lastCompletedDate := e.lastCompletedDate,
            completionCount := e.completionCount) == e
    decreases |times|
  {
    if times != [] {
      ToggleRun(e, times[..|times| - 1]);
    }
  }

  /** Toggling on logs exactly one progress entry; toggling off logs none. */
  lemma ToggleLogsOnlyTurningOn(t: Tables, e: Exercise, now: int)
    requires LogInvariant(t.progress, t.progressSeq)
    ensures var r := AfterUpdate(t, Toggled(e, now), now);
      && |r.progress| == |t.progress| + (if e.isCompleted then 0 else 1)
      && r.progress[..|t.progress|] == t.progress
      && r.exercises == Replace(t.exercises, Toggled(e, now))
  {
    AfterUpdateCorrect(t, Toggled(e, now), now);
  }

  /** The fixed text of every sample record. */
  const SampleDescription: string := "Реабилитационное упражнение"
  const SampleInstructions: string := "Выполняйте медленно и плавно, следуя видео инструкции"

  /** Sample record `n` as `createSampleExercises` builds it. */
  function SampleExercise(n: nat): (e: Exercise)
    ensures e.titleKey == "Упражнение " + NatToString(n)
    ensures e.descriptionKey == SampleDescription && e.instructionsKey == SampleInstructions
    ensures e.videoFileName == "exercise_" + NatToString(n)
    ensures e.thumbnailFileName == Some("thumb_exercise_" + NatToString(n))
    ensures e.category == KneeRehabilitation && e.difficultyLevel == Easy
    ensures e.durationSeconds == 30 && e.repetitions == 10 && e.sets == 3
    ensures e.orderIndex == n
    ensures e.id == 0 && !e.isCompleted && e.lastCompletedDate == None && e.completionCount == 0
    ensures !e.isFavorite && e.equipmentNeeded == None && e.precautions == None
  {
    NewExercise("Упражнение " + NatToString(n), SampleDescription, SampleInstructions,
                "exercise_" + NatToString(n), Some("thumb_exercise_" + NatToString(n)),
                KneeRehabilitation, Easy, 30, 10, 3).(orderIndex := n)
  }

  const SampleCount: nat := 13

  /** Two different sample numbers never share a video (nor a title). */
  lemma SampleVideosDistinct(m: nat, n: nat)
    requires m != n
    ensures SampleExercise(m).videoFileName != SampleExercise(n).videoFileName
    ensures SampleExercise(m).titleKey != SampleExercise(n).titleKey
  {
    DigitsValueOfNatToString(m);
    DigitsValueOfNatToString(n);
    var p := "exercise_";
    assert (p + NatToString(m))[|p|..] == NatToString(m);
    assert (p + NatToString(n))[|p|..] == NatToString(n);
    var q := "Упражнение ";
    assert (q + NatToString(m))[|q|..] == NatToString(m);
    assert (q + NatToString(n))[|q|..] == NatToString(n);
  }

  /** `createSampleExercises`: fills a list with samples 1 to 13. */
  method CreateSampleExercises() returns (samples: seq<Exercise>)
    ensures |samples| == SampleCount
    ensures forall i :: 0 <= i < |samples| ==> samples[i] == SampleExercise(i + 1)
  {
    samples := [];
    for i := 1 to SampleCount + 1
      invariant |samples| == i - 1
      invariant forall k :: 0 <= k < |samples| ==> samples[k] == SampleExercise(k + 1)
    {
      samples := samples + [SampleExercise(i)];
    }
  }

  class ExerciseViewModel {
    const repository: ExerciseRepository
    /** The last list the table emitted (`_exercises`). */
    var exercises: seq<Exercise>

    /**
     * The view model starts with an empty list, seeds an empty table and loads
     * it; the seeding is run before the load so that the one snapshot taken
     * is the seeded table.
     */
    constructor (repository: ExerciseRepository)
      requires repository.dao.Valid()
      modifies repository.dao
      ensures this.repository == repository
      ensures repository.dao.Valid()
      ensures old(|repository.dao.exercises|) != 0 ==> TablesOf(repository.dao) == old(TablesOf(repository.dao))
      ensures old(|repository.dao.exercises|) == 0 ==>
        && |repository.dao.exercises| == SampleCount
        && repository.dao.exerciseSeq == old(repository.dao.exerciseSeq) + SampleCount
        && (forall i :: 0 <= i < SampleCount ==>
              repository.dao.exercises[i] == SampleExercise(i + 1).(id := old(repository.dao.exerciseSeq) + i + 1))
        && repository.dao.progress == old(repository.dao.progress)
        && repository.dao.progressSeq == old(repository.dao.progressSeq)
      ensures SortedBy(exercises, OrderIndexOf)
      ensures multiset(exercises) == multiset(repository.dao.exercises)
    {
      this.repository := repository;
      exercises := [];
      new;
      InitializeSampleData();
      LoadExercises();
    }

    /** `loadExercises`: the list becomes the table ordered by `orderIndex`. */
    method LoadExercises()
      requires repository.dao.Valid()
      modifies this
      ensures SortedBy(exercises, OrderIndexOf)
      ensures multiset(exercises) == multiset(repository.dao.exercises)
    {
      exercises := repository.dao.GetAllExercises();
    }

    /** `toggleExerciseCompletion`: writes `Toggled(exercise, now)` through the repository. */
    method ToggleExerciseCompletion(exercise: Exercise, now: int)
      requires repository.dao.Valid()
      modifies repository.dao
      ensures repository.dao.Valid()
      ensures TablesOf(repository.dao) == AfterUpdate(old(TablesOf(repository.dao)), Toggled(exercise, now), now)
    {
      repository.UpdateExercise(Toggled(exercise, now), now);
    }

    /** `markExerciseCompleted`: does nothing for a completed exercise. */
    method MarkExerciseCompleted(exercise: Exercise, now: int)
      requires repository.dao.Valid()
      modifies repository.dao
      ensures repository.dao.Valid()
      ensures exercise.isCompleted ==> TablesOf(repository.dao) == old(TablesOf(repository.dao))
      ensures !exercise.isCompleted ==>
        TablesOf(repository.dao) == AfterUpdate(old(TablesOf(repository.dao)), MarkedCompleted(exercise, now), now)
    {
      if !exercise.isCompleted {
        repository.UpdateExercise(MarkedCompleted(exercise, now), now);
      }
    }

    /** `deleteExercise`: deletes the row with the record's key. */
    method DeleteExercise(exercise: Exercise)
      requires repository.dao.Valid()
      modifies repository.dao
      ensures repository.dao.Valid()
      ensures TablesOf(repository.dao) == old(TablesOf(repository.dao)).(exercises := RemoveId(old(repository.dao.exercises), exercise.id))
    {
      repository.dao.DeleteExercise(exercise);
    }

    /** `addExercise`: inserts or replaces the record. */
    method AddExercise(exercise: Exercise)
      requires repository.dao.Valid()
      modifies repository.dao
      ensures repository.dao.Valid()
      ensures (repository.dao.exercises, repository.dao.exerciseSeq)
              == Upsert(old(repository.dao.exercises), old(repository.dao.exerciseSeq), exercise)
      ensures repository.dao.progress == old(repository.dao.progress)
      ensures repository.dao.progressSeq == old(repository.dao.progressSeq)
    {
      repository.dao.InsertExercise(exercise);
    }

    /** `updateExercise`: the repository update, logging when the record is completed. */
    method UpdateExercise(exercise: Exercise, now: int)
      requires repository.dao.Valid()
      modifies repository.dao
      ensures repository.dao.Valid()
      ensures TablesOf(repository.dao) == AfterUpdate(old(TablesOf(repository.dao)), exercise, now)
    {
      repository.UpdateExercise(exercise, now);
    }

    /** `resetDailyProgress`: the repository's time-gated reset. */
    method ResetDailyProgress(todayStart: int)
      requires repository.dao.Valid()
      modifies repository.dao
      ensures repository.dao.Valid()
      ensures TablesOf(repository.dao) == old(TablesOf(repository.dao))
        .(exercises := ClearWhere(old(repository.dao.exercises), CompletedBefore(todayStart)))
    {
      repository.ResetDailyProgress(todayStart);
    }

    /**
     * `startNewDay`: walks the last loaded list and writes back every completed
     * record with its flag cleared. The list may be older than the table, so the
     * rows written are the list's copies; when the list is the current table
     * this is the bulk reset, and either way nothing is logged.
     */
    method StartNewDay(now: int)
      requires repository.dao.Valid()
      modifies repository.dao
      ensures repository.dao.Valid()
      ensures repository.dao.exercises
              == ReplaceAll(old(repository.dao.exercises), ClearedCopies(exercises, AnyCompleted))
      ensures multiset(exercises) == multiset(old(repository.dao.exercises)) ==>
                repository.dao.exercises == ResetAll(old(repository.dao.exercises))
      ensures repository.dao.exerciseSeq == old(repository.dao.exerciseSeq)
      ensures repository.dao.progress == old(repository.dao.progress)
      ensures repository.dao.progressSeq == old(repository.dao.progressSeq)
    {
      var dao := repository.dao;
      ghost var rows := dao.exercises;
      var i := 0;
      while i < |exercises|
        invariant 0 <= i <= |exercises|
        invariant dao.Valid()
        invariant dao.exercises == ReplaceAll(rows, ClearedCopies(exercises[..i], AnyCompleted))
        invariant dao.exerciseSeq == old(dao.exerciseSeq)
        invariant dao.progress == old(dao.progress) && dao.progressSeq == old(dao.progressSeq)
      {
        var exercise := exercises[i];
        ResetStep(rows, exercises, i, AnyCompleted);
        if exercise.isCompleted {
          repository.UpdateExercise(exercise.(isCompleted := false), now);
        }
        i := i + 1;
      }
      assert exercises[..i] == exercises;
      if multiset(exercises) == multiset(rows) {
        ResetLoopMeetsClearWhere(rows, exercises, AnyCompleted);
        ClearAnyCompletedIsResetAll(rows);
      }
    }

    /**
     * `initializeSampleData`: on an empty table inserts the 13 samples in order,
     * each under the next key; on a non-empty table does nothing.
     */
    method InitializeSampleData()
      requires repository.dao.Valid()
      modifies repository.dao
      ensures repository.dao.Valid()
      ensures old(|repository.dao.exercises|) != 0 ==> TablesOf(repository.dao) == old(TablesOf(repository.dao))
      ensures old(|repository.dao.exercises|) == 0 ==>
        && |repository.dao.exercises| == SampleCount
        && repository.dao.exerciseSeq == old(repository.dao.exerciseSeq) + SampleCount
        && (forall i :: 0 <= i < SampleCount ==>
              repository.dao.exercises[i] == SampleExercise(i + 1).(id := old(repository.dao.exerciseSeq) + i + 1))
        && repository.dao.progress == old(repository.dao.progress)
        && repository.dao.progressSeq == old(repository.dao.progressSeq)
    {
      var dao := repository.dao;
      var count := dao.GetExerciseCount();
      if count == 0 {
        var samples := CreateSampleExercises();
        ghost var start := TablesOf(dao);
        var i := 0;
        while i < |samples|
          invariant 0 <= i <= |samples|
          invariant dao.Valid()
          invariant (dao.exercises, dao.exerciseSeq) == UpsertAll(start.exercises, start.exerciseSeq, samples[..i])
          invariant dao.progress == start.progress && dao.progressSeq == start.progressSeq
        {
          assert samples[..i + 1][..i] == samples[..i];
          dao.InsertExercise(samples[i]);
          i := i + 1;
        }
        assert samples[..i] == samples;
        UpsertAllFresh(start.exercises, start.exerciseSeq, samples);
        assert start.exercises == [];
      }
    }
  }
}
