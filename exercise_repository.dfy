/**
 * `ExerciseRepository`: the DAO plus the cross-table rules. Clock readings and
 * the local-midnight boundary are parameters (`now`, `todayStart`).
 */
module Repository {
  import opened Wrappers
  import opened Entities
  import opened Sequences
  import opened Dao

  const MillisPerDay: int := 24 * 60 * 60 * 1000
  /** `30 * 24 * 60 * 60 * 1000L`: the streak look-back window. */
  const StreakWindowMillis: int := 30 * MillisPerDay
  /** The default of `deleteOldProgress(daysToKeep)`. */
  const DefaultDaysToKeep: int := 30

  /**
   * Which completed rows a reset clears: `resetDailyProgress` clears those last
   * completed before local midnight, the view model's `startNewDay` every one.
   */
  datatype ResetRule = CompletedBefore(todayStart: int) | AnyCompleted

  predicate Selects(rule: ResetRule, e: Exercise) {
    match rule
    case CompletedBefore(todayStart) =>
      e.isCompleted && e.lastCompletedDate.Some? && e.lastCompletedDate.value < todayStart
    case AnyCompleted => e.isCompleted
  }

  /** The table after a reset: selected rows become incomplete, nothing else changes. */
  function ClearWhere(rows: seq<Exercise>, rule: ResetRule): (r: seq<Exercise>)
    ensures |r| == |rows|
    ensures forall i :: 0 <= i < |rows| ==>
      r[i].isCompleted == (rows[i].isCompleted && !Selects(rule, rows[i]))
      && r[i].(isCompleted := rows[i].isCompleted) == rows[i]
  {
    seq(|rows|, i requires 0 <= i < |rows| =>
      if Selects(rule, rows[i]) then rows[i].(isCompleted := false) else rows[i])
  }

  /** The updates a reset loop issues while walking a snapshot, in order. */
  function ClearedCopies(snapshot: seq<Exercise>, rule: ResetRule): (r: seq<Exercise>)
    decreases |snapshot|
  {
    if snapshot == [] then []
    else
      var last := snapshot[|snapshot| - 1];
      ClearedCopies(snapshot[..|snapshot| - 1], rule)
        + (if Selects(rule, last) then [last.(isCompleted := false)] else [])
  }

  /** Rows of a snapshot that share a key are the same row (true of any table). */
  ghost predicate KeyFunctional(s: seq<Exercise>) {
    forall i, j :: 0 <= i < |s| && 0 <= j < |s| && s[i].id == s[j].id ==> s[i] == s[j]
  }

  lemma {:induction false} ClearedCopiesMissing(snapshot: seq<Exercise>, rule: ResetRule, id: int)
    requires forall x :: x in snapshot ==> x.id != id
    ensures LastWithId(ClearedCopies(snapshot, rule), id) == None
    decreases |snapshot|
  {
    if snapshot != [] {
      var init := snapshot[..|snapshot| - 1];
      forall x | x in init ensures x.id != id { assert x in snapshot; }

      ClearedCopiesMissing(init, rule, id);
    }
  }

  /** The last update a reset issues for a row of its snapshot is the row, cleared, if selected. */
  lemma {:induction false} ClearedCopiesFor(snapshot: seq<Exercise>, rule: ResetRule, row: Exercise)
    requires KeyFunctional(snapshot)
    requires row in snapshot
    ensures LastWithId(ClearedCopies(snapshot, rule), row.id)
            == if Selects(rule, row) then Some(row.(isCompleted := false)) else None
    decreases |snapshot|
  {
    var init := snapshot[..|snapshot| - 1];
    var last := snapshot[|snapshot| - 1];
    assert snapshot == init + [last];
    var tail := if Selects(rule, last) then [last.(isCompleted := false)] else [];
    var copies := ClearedCopies(init, rule) + tail;
    assert KeyFunctional(init);
    if last.id == row.id {
      var k :| 0 <= k < |snapshot| && snapshot[k] == row;
      assert last == row;
      if !Selects(rule, row) {
        assert copies[..|copies| - 0] == ClearedCopies(init, rule);
        if row in init {
          ClearedCopiesFor(init, rule, row);
        } else {
          forall x | x in init ensures x.id != row.id {
            var m :| 0 <= m < |init| && init[m] == x;
            assert snapshot[m] == x;
          }
          ClearedCopiesMissing(init, rule, row.id);
        }
      }
    } else {
      assert row in init;
      ClearedCopiesFor(init, rule, row);
      if Selects(rule, last) {
        assert copies[|copies| - 1].id != row.id;
        assert copies[..|copies| - 1] == ClearedCopies(init, rule);
      } else {
        assert copies == ClearedCopies(init, rule);
      }
    }
  }

  /**
   * Walking any snapshot that holds exactly the table's rows and updating each
   * selected row with a cleared copy leaves the table as `ClearWhere` describes.
   */
  lemma ResetLoopMeetsClearWhere(rows: seq<Exercise>, snapshot: seq<Exercise>, rule: ResetRule)
    requires DistinctIds(rows)
    requires multiset(snapshot) == multiset(rows)
    ensures ReplaceAll(rows, ClearedCopies(snapshot, rule)) == ClearWhere(rows, rule)
  {
    assert forall x :: x in snapshot <==> x in rows by {
      forall x ensures x in snapshot <==> x in rows {
        assert x in snapshot <==> x in multiset(snapshot);
        assert x in rows <==> x in multiset(rows);
      }
    }
    assert KeyFunctional(snapshot) by {
      forall i, j | 0 <= i < |snapshot| && 0 <= j < |snapshot| && snapshot[i].id == snapshot[j].id
        ensures snapshot[i] == snapshot[j]
      {
        assert snapshot[i] in rows && snapshot[j] in rows;
        var a :| 0 <= a < |rows| && rows[a] == snapshot[i];
        var b :| 0 <= b < |rows| && rows[b] == snapshot[j];
      }
    }
    var updates := ClearedCopies(snapshot, rule);
    ReplaceAllAt(rows, updates);
    var r := ReplaceAll(rows, updates);
    var c := ClearWhere(rows, rule);
    forall j | 0 <= j < |rows| ensures r[j] == c[j] {
      ClearedCopiesFor(snapshot, rule, rows[j]);
    }
  }

  /** One more row of the snapshot walked: one more update if that row is selected. */
  lemma ResetStep(rows: seq<Exercise>, snapshot: seq<Exercise>, i: int, rule: ResetRule)
    requires 0 <= i < |snapshot|
    ensures ReplaceAll(rows, ClearedCopies(snapshot[..i + 1], rule))
      == if Selects(rule, snapshot[i])
         then Replace(ReplaceAll(rows, ClearedCopies(snapshot[..i], rule)), snapshot[i].(isCompleted := false))
         else ReplaceAll(rows, ClearedCopies(snapshot[..i], rule))
  {
    var done := ClearedCopies(snapshot[..i], rule);
    assert snapshot[..i + 1][..i] == snapshot[..i];
    if Selects(rule, snapshot[i]) {
      var next := done + [snapshot[i].(isCompleted := false)];
      assert ClearedCopies(snapshot[..i + 1], rule) == next;
      assert next[..|next| - 1] == done;
    } else {
      assert ClearedCopies(snapshot[..i + 1], rule) == done + [];
      assert done + [] == done;
    }
  }

  /** A second reset with the same rule changes nothing. */
  lemma ClearWhereIdempotent(rows: seq<Exercise>, rule: ResetRule)
    ensures ClearWhere(ClearWhere(rows, rule), rule) == ClearWhere(rows, rule)
  {
    var once := ClearWhere(rows, rule);
    var twice := ClearWhere(once, rule);
    forall i | 0 <= i < |rows| ensures twice[i] == once[i] {
      assert !Selects(rule, once[i]) || once[i].isCompleted;
    }
  }

  /** Clearing every completed row is the bulk `UPDATE exercises SET isCompleted = 0`. */
  lemma ClearAnyCompletedIsResetAll(rows: seq<Exercise>)
    ensures ClearWhere(rows, AnyCompleted) == ResetAll(rows)
  {
    var c := ClearWhere(rows, AnyCompleted);
    forall i | 0 <= i < |rows| ensures c[i] == ResetAll(rows)[i] {
      if !rows[i].isCompleted {
        assert rows[i].(isCompleted := false) == rows[i];
      }
    }
  }

  /**
   * `getCompletionPercentage`: 0 for an empty table, otherwise the floor of
   * completed * 100 / total, which lies in 0..100.
   */
  function CompletionPercentage(total: int, completed: int): (p: int)
    requires 0 <= completed <= total
    ensures total == 0 ==> p == 0
    ensures 0 <= p <= 100
    ensures total > 0 ==> p * total <= completed * 100 < (p + 1) * total
  {
    if total == 0 then 0 else (completed * 100) / total
  }

  lemma ThreeOfFourIsSeventyFive()
    ensures CompletionPercentage(4, 3) == 75
  {
  }

  /** `deleteOldProgress`'s cutoff: `daysToKeep` whole days before `now`. */
  function RetentionCutoff(now: int, daysToKeep: int): (cutoff: int)
    ensures cutoff + daysToKeep * MillisPerDay == now
  {
    now - daysToKeep * MillisPerDay
  }

  /** With the default of 30 days, an entry a second before the cutoff goes and one a second after stays. */
  lemma RetentionBoundary(log: seq<DailyProgress>, now: int, older: DailyProgress, newer: DailyProgress)
    requires older in log && newer in log
    requires older.dateCompleted == RetentionCutoff(now, DefaultDaysToKeep) - 1000
    requires newer.dateCompleted == RetentionCutoff(now, DefaultDaysToKeep) + 1000
    ensures older !in ProgressSince(log, RetentionCutoff(now, DefaultDaysToKeep))
    ensures newer in ProgressSince(log, RetentionCutoff(now, DefaultDaysToKeep))
  {
  }

  /** The contents of both tables and their key counters at one moment. */
  datatype Tables = Tables(exercises: seq<Exercise>, exerciseSeq: int,
                           progress: seq<DailyProgress>, progressSeq: int)

  function TablesOf(dao: ExerciseDao): Tables
    reads dao
  {
    Tables(dao.exercises, dao.exerciseSeq, dao.progress, dao.progressSeq)
  }

  /** The tables after the repository's `updateExercise(e)` at time `now`. */
  function AfterUpdate(t: Tables, e: Exercise, now: int): Tables {
    var t' := t.(exercises := Replace(t.exercises, e));
    if e.isCompleted then
      var (log, last) := LogInsert(t.progress, t.progressSeq, NewDailyProgress(e.id, now, e.sets, e.repetitions));
      t'.(progress := log, progressSeq := last)
    else t'
  }

  /**
   * A completed record is written and logged by exactly one new entry that
   * carries its key, `now`, its sets and its repetitions; an incomplete one is
   * written and nothing is logged.
   */
  lemma AfterUpdateCorrect(t: Tables, e: Exercise, now: int)
    requires LogInvariant(t.progress, t.progressSeq)
    ensures var r := AfterUpdate(t, e, now);
      && LogInvariant(r.progress, r.progressSeq)
      && r.exercises == Replace(t.exercises, e)
      && r.exerciseSeq == t.exerciseSeq
      && (!e.isCompleted ==> r.progress == t.progress && r.progressSeq == t.progressSeq)
      && (e.isCompleted ==>
            && |r.progress| == |t.progress| + 1
            && r.progress[..|t.progress|] == t.progress
            && r.progressSeq == t.progressSeq + 1
            && var entry := r.progress[|t.progress|];
               && entry.id == r.progressSeq
               && entry.exerciseId == e.id
               && entry.dateCompleted == now
               && entry.setsCompleted == e.sets
               && entry.repetitionsCompleted == e.repetitions
               && entry.notes == None)
  {
    if e.isCompleted {
      LogInsertAppends(t.progress, t.progressSeq, NewDailyProgress(e.id, now, e.sets, e.repetitions));
    }
  }

  /** `n` successive `updateExercise(e)` calls at the same moment. */
  function AfterUpdates(t: Tables, e: Exercise, now: int, n: nat): Tables {
    if n == 0 then t else AfterUpdate(AfterUpdates(t, e, now, n - 1), e, now)
  }

  /**
   * Updating is idempotent on the exercise table but not on the log: `n`
   * updates with the same completed record leave the row as one update does
   * and append `n` entries.
   */
  lemma {:induction false} RepeatedUpdates(t: Tables, e: Exercise, now: int, n: nat)
    requires LogInvariant(t.progress, t.progressSeq)
    ensures var r := AfterUpdates(t, e, now, n);
      && LogInvariant(r.progress, r.progressSeq)
      && (n > 0 ==> r.exercises == Replace(t.exercises, e))
      && |r.progress| == |t.progress| + (if e.isCompleted then n else 0)
      && r.progress[..|t.progress|] == t.progress
  {
    if n > 0 {
      RepeatedUpdates(t, e, now, n - 1);
      var prev := AfterUpdates(t, e, now, n - 1);
      AfterUpdateCorrect(prev, e, now);
      if n > 1 {
        ReplaceIdempotent(t.exercises, e);
      }
      var r := AfterUpdate(prev, e, now);
      assert r.progress[..|t.progress|] == prev.progress[..|t.progress|];
    }
  }

  class ExerciseRepository {
    const dao: ExerciseDao

    constructor (dao: ExerciseDao)
      ensures this.dao == dao
    {
      this.dao := dao;
    }

    /**
     * `updateExercise`: writes the record and, whenever it is marked completed,
     * appends one progress entry for it stamped `now` with its sets and repetitions.
     */
    method UpdateExercise(exercise: Exercise, now: int)
      requires dao.Valid()
      modifies dao
      ensures dao.Valid()
      ensures TablesOf(dao) == AfterUpdate(old(TablesOf(dao)), exercise, now)
    {
      dao.UpdateExercise(exercise);
      if exercise.isCompleted {
        var entry := NewDailyProgress(exercise.id, now, exercise.sets, exercise.repetitions);
        dao.InsertDailyProgress(entry);
      }
    }

    /**
     * `resetDailyProgress`: takes the table as the query emits it and runs the
     * collector over that one list; since the list holds exactly the table's
     * rows, the table ends as `ClearWhere` describes and nothing is logged.
     */
    method ResetDailyProgress(todayStart: int)
      requires dao.Valid()
      modifies dao
      ensures dao.Valid()
      ensures dao.exercises == ClearWhere(old(dao.exercises), CompletedBefore(todayStart))
      ensures dao.exerciseSeq == old(dao.exerciseSeq)
      ensures dao.progress == old(dao.progress) && dao.progressSeq == old(dao.progressSeq)
    {
      var exerciseList := dao.GetAllExercises();
      ghost var rows := dao.exercises;
      ResetEmission(exerciseList, todayStart);
      ResetLoopMeetsClearWhere(rows, exerciseList, CompletedBefore(todayStart));
    }

    /**
     * The collector of `resetDailyProgress` applied to one emitted list: every
     * row of the list completed before `todayStart` is written back, through
     * the DAO, with its completed flag cleared.
     */
    method ResetEmission(exerciseList: seq<Exercise>, todayStart: int)
      requires dao.Valid()
      modifies dao
      ensures dao.Valid()
      ensures dao.exercises == ReplaceAll(old(dao.exercises), ClearedCopies(exerciseList, CompletedBefore(todayStart)))
      ensures dao.exerciseSeq == old(dao.exerciseSeq)
      ensures dao.progress == old(dao.progress) && dao.progressSeq == old(dao.progressSeq)
    {
      ghost var rows := dao.exercises;
      var i := 0;
      while i < |exerciseList|
        invariant 0 <= i <= |exerciseList|
        invariant dao.Valid()
        invariant dao.exercises == ReplaceAll(rows, ClearedCopies(exerciseList[..i], CompletedBefore(todayStart)))
        invariant dao.exerciseSeq == old(dao.exerciseSeq)
        invariant dao.progress == old(dao.progress) && dao.progressSeq == old(dao.progressSeq)
      {
        var exercise := exerciseList[i];
        ResetStep(rows, exerciseList, i, CompletedBefore(todayStart));
        if exercise.isCompleted && exercise.lastCompletedDate.Some? {
          if exercise.lastCompletedDate.value < todayStart {
            dao.UpdateExercise(exercise.(isCompleted := false));
          }
        }
        i := i + 1;
      }
      assert exerciseList[..i] == exerciseList;
    }

    /** `getCompletionPercentage` over the current table. */
    function GetCompletionPercentage(): (p: int)
      reads dao
      ensures 0 <= p <= 100
      ensures dao.GetExerciseCount() == 0 ==> p == 0
      ensures dao.GetExerciseCount() > 0 ==>
        p * dao.GetExerciseCount() <= dao.GetCompletedCount() * 100 < (p + 1) * dao.GetExerciseCount()
    {
      var total := dao.GetExerciseCount();
      if total == 0 then 0 else CompletionPercentage(total, dao.GetCompletedCount())
    }

    /** `deleteOldProgress(daysToKeep)`: drops the entries older than the retention cutoff. */
    method DeleteOldProgress(now: int, daysToKeep: int)
      requires dao.Valid()
      modifies dao
      ensures dao.Valid()
      ensures forall p :: p in dao.progress <==> p in old(dao.progress) && p.dateCompleted + daysToKeep * MillisPerDay >= now
      ensures dao.progress == ProgressSince(old(dao.progress), RetentionCutoff(now, daysToKeep))
      ensures dao.exercises == old(dao.exercises) && dao.exerciseSeq == old(dao.exerciseSeq)
      ensures dao.progressSeq == old(dao.progressSeq)
    {
      dao.DeleteOldProgress(RetentionCutoff(now, daysToKeep));
    }

    /** `getStreakDays`: distinct UTC days with progress in the last 30 days. */
    function GetStreakDays(now: int): (n: nat)
      reads dao
      ensures n == 0 <==> forall p :: p in dao.progress ==> p.dateCompleted < now - StreakWindowMillis
      ensures n <= |ProgressSince(dao.progress, now - StreakWindowMillis)|
      ensures n == |set p | p in dao.progress && p.dateCompleted >= now - StreakWindowMillis
                          :: UtcDay(p.dateCompleted)|
    {
      dao.GetStreakDays(now - StreakWindowMillis)
    }
  }
}
