/**
 * The Room DAO as an in-memory two-table store. `exercises` and `daily_progress`
 * hold their rows in storage order; each table also keeps the AUTOINCREMENT
 * counter (SQLite's `sqlite_sequence` entry) from which fresh ids are drawn when a
 * row is inserted with id 0. SELECTs are functions of the tables, the other
 * statements are methods that reassign them.
 */
module Dao {
  import opened Wrappers
  import opened Entities
  import opened Sequences

  // ---------------------------------------------------------------- exercises

  ghost predicate DistinctIds(rows: seq<Exercise>) {
    forall i, j :: 0 <= i < j < |rows| ==> rows[i].id != rows[j].id
  }

  ghost predicate HasId(rows: seq<Exercise>, id: int) {
    exists i :: 0 <= i < |rows| && rows[i].id == id
  }

  /** Primary keys are unique, and none exceeds the table's AUTOINCREMENT counter. */
  ghost predicate TableInvariant(rows: seq<Exercise>, last: int) {
    last >= 0 && DistinctIds(rows) && forall i :: 0 <= i < |rows| ==> rows[i].id <= last
  }

  function OrderIndexOf(e: Exercise): int { e.orderIndex }
  predicate IsCompletedRow(e: Exercise) { e.isCompleted }
  predicate IsFavoriteRow(e: Exercise) { e.isFavorite }

  /** `DELETE ... WHERE id = :id`. */
  function RemoveId(rows: seq<Exercise>, id: int): (r: seq<Exercise>)
    ensures forall x :: x in r <==> x in rows && x.id != id
    decreases |rows|
  {
    if rows == [] then []
    else if rows[0].id == id then RemoveId(rows[1..], id)
    else [rows[0]] + RemoveId(rows[1..], id)
  }

  /** `UPDATE ... WHERE id = :e.id` setting every column from `e`. */
  function Replace(rows: seq<Exercise>, e: Exercise): (r: seq<Exercise>) {
    seq(|rows|, i requires 0 <= i < |rows| => if rows[i].id == e.id then e else rows[i])
  }

  /**
   * `INSERT OR REPLACE`, with Room binding an id of 0 as NULL: the row gets the
   * next AUTOINCREMENT id; otherwise any row with the same id is deleted first.
   * Returns the new rows and the new counter.
   */
  function Upsert(rows: seq<Exercise>, last: int, e: Exercise): (seq<Exercise>, int) {
    if e.id == 0 then (rows + [e.(id := last + 1)], last + 1)
    else (RemoveId(rows, e.id) + [e], if e.id > last then e.id else last)
  }

  /** The record an upsert of `e` stores: `e` itself, or `e` under the fresh id. */
  function StoredRecord(last: int, e: Exercise): Exercise {
    if e.id == 0 then e.(id := last + 1) else e
  }

  /** A sequence of upserts, applied in order (`insertExercises`). */
  function UpsertAll(rows: seq<Exercise>, last: int, es: seq<Exercise>): (seq<Exercise>, int)
    decreases |es|
  {
    if es == [] then (rows, last)
    else
      var (rows', last') := UpsertAll(rows, last, es[..|es| - 1]);
      Upsert(rows', last', es[|es| - 1])
  }

  /** `UPDATE exercises SET isCompleted = 0`. */
  function ResetAll(rows: seq<Exercise>): (r: seq<Exercise>)
    ensures |r| == |rows|
    ensures forall i :: 0 <= i < |r| ==> !r[i].isCompleted && r[i] == rows[i].(isCompleted := false)
  {
    seq(|rows|, i requires 0 <= i < |rows| => rows[i].(isCompleted := false))
  }

  /** `SELECT * FROM exercises WHERE id = :id`. */
  function FindById(rows: seq<Exercise>, id: int): (r: Option<Exercise>)
    ensures r.Some? <==> HasId(rows, id)
    ensures r.Some? ==> r.value in rows && r.value.id == id
    decreases |rows|
  {
    if rows == [] then None
    else if rows[0].id == id then Some(rows[0])
    else
      var r := FindById(rows[1..], id);
      assert HasId(rows, id) ==> HasId(rows[1..], id) by {
        if HasId(rows, id) {
          var i :| 0 <= i < |rows| && rows[i].id == id;
          assert rows[1..][i - 1].id == id;
        }
      }
      r
  }

  lemma DistinctCons(a: Exercise, t: seq<Exercise>)
    requires DistinctIds(t)
    requires forall x :: x in t ==> x.id != a.id
    ensures DistinctIds([a] + t)
  {
    var r := [a] + t;
    forall i, j | 0 <= i < j < |r| ensures r[i].id != r[j].id {
      assert r[j] == t[j - 1];
      if i > 0 { assert r[i] == t[i - 1]; }
    }
  }

  lemma HasIdCons(rows: seq<Exercise>, id: int)
    requires rows != []
    ensures HasId(rows, id) <==> rows[0].id == id || HasId(rows[1..], id)
  {
    var t := rows[1..];
    if HasId(rows, id) && rows[0].id != id {
      var i :| 0 <= i < |rows| && rows[i].id == id;
      assert t[i - 1].id == id;
    }
    if HasId(t, id) {
      var i :| 0 <= i < |t| && t[i].id == id;
      assert rows[i + 1].id == id;
    }
  }

  /** Deleting by key keeps keys unique and removes exactly the one row holding it. */
  lemma {:induction false} RemoveIdProperties(rows: seq<Exercise>, id: int)
    requires DistinctIds(rows)
    ensures DistinctIds(RemoveId(rows, id))
    ensures !HasId(RemoveId(rows, id), id)
    ensures |RemoveId(rows, id)| == |rows| - (if HasId(rows, id) then 1 else 0)
    decreases |rows|
  {
    var r := RemoveId(rows, id);
    forall i | 0 <= i < |r| ensures r[i].id != id {
      assert r[i] in r;
    }
    if rows != [] {
      var t := rows[1..];
      assert DistinctIds(t);
      RemoveIdProperties(t, id);
      HasIdCons(rows, id);
      if rows[0].id == id {
        forall i | 0 <= i < |t| ensures t[i].id != id {
          assert t[i] == rows[i + 1];
        }
      } else {
        forall x | x in RemoveId(t, id) ensures x.id != rows[0].id {
          var i :| 0 <= i < |t| && t[i] == x;
          assert rows[i + 1] == x;
        }
        DistinctCons(rows[0], RemoveId(t, id));
      }
    }
  }

  /**
   * INSERT OR REPLACE leaves the stored record in the table under its id, removes
   * whatever row held that id before, keeps every other row, and grows the table
   * by one row exactly when the id was new. An id of 0 is replaced by one no row has.
   */
  lemma UpsertCorrect(rows: seq<Exercise>, last: int, e: Exercise)
    requires TableInvariant(rows, last)
    ensures var (rows', last') := Upsert(rows, last, e);
      var stored := StoredRecord(last, e);
      && TableInvariant(rows', last')
      && stored in rows'
      && (forall x :: x in rows' <==> x == stored || (x in rows && x.id != stored.id))
      && |rows'| == |rows| + (if HasId(rows, stored.id) then 0 else 1)
      && (e.id == 0 ==> stored.id == last + 1 && !HasId(rows, stored.id))
  {
    var (rows', last') := Upsert(rows, last, e);
    var stored := StoredRecord(last, e);
    if e.id == 0 {
      assert !HasId(rows, stored.id);
      forall i, j | 0 <= i < j < |rows'| ensures rows'[i].id != rows'[j].id {
        if j == |rows| { assert rows'[i] == rows[i]; }
      }
    } else {
      RemoveIdProperties(rows, e.id);
      var kept := RemoveId(rows, e.id);
      forall x | x in kept ensures x.id != e.id {}
      forall i, j | 0 <= i < j < |rows'| ensures rows'[i].id != rows'[j].id {
        if j == |kept| {
          assert rows'[i] == kept[i];
          assert rows'[i] in kept;
        } else {
          assert rows'[i] == kept[i] && rows'[j] == kept[j];
        }
      }
      forall i | 0 <= i < |rows'| ensures rows'[i].id <= last' {
        if i < |kept| {
          assert rows'[i] in kept;
          var k :| 0 <= k < |rows| && rows[k] == rows'[i];
        }
      }
    }
  }

  /** Reading a record back by its key after an insert gives the stored record, field for field. */
  lemma InsertThenGet(rows: seq<Exercise>, last: int, e: Exercise)
    requires TableInvariant(rows, last)
    ensures FindById(Upsert(rows, last, e).0, StoredRecord(last, e).id) == Some(StoredRecord(last, e))
  {
    UpsertCorrect(rows, last, e);
    var rows' := Upsert(rows, last, e).0;
    var stored := StoredRecord(last, e);
    var k :| 0 <= k < |rows'| && rows'[k] == stored;
    assert HasId(rows', stored.id);
    var found := FindById(rows', stored.id).value;
    var m :| 0 <= m < |rows'| && rows'[m] == found;
    assert m == k;
  }

  /** The counter never moves backwards and the table invariant survives any batch. */
  lemma {:induction false} UpsertAllCorrect(rows: seq<Exercise>, last: int, es: seq<Exercise>)
    requires TableInvariant(rows, last)
    ensures TableInvariant(UpsertAll(rows, last, es).0, UpsertAll(rows, last, es).1)
    ensures UpsertAll(rows, last, es).1 >= last
    ensures |UpsertAll(rows, last, es).0| <= |rows| + |es|
    decreases |es|
  {
    if es != [] {
      UpsertAllCorrect(rows, last, es[..|es| - 1]);
      var (rows', last') := UpsertAll(rows, last, es[..|es| - 1]);
      UpsertCorrect(rows', last', es[|es| - 1]);
    }
  }

  /**
   * A batch of new records (all with id 0) is appended in order, record `i`
   * under the key `last + i + 1`, and the counter advances by the batch size.
   */
  lemma {:induction false} UpsertAllFresh(rows: seq<Exercise>, last: int, es: seq<Exercise>)
    requires forall i :: 0 <= i < |es| ==> es[i].id == 0
    ensures UpsertAll(rows, last, es).1 == last + |es|
    ensures UpsertAll(rows, last, es).0
            == rows + seq(|es|, i requires 0 <= i < |es| => es[i].(id := last + i + 1))
    decreases |es|
  {
    if es != [] {
      var init := es[..|es| - 1];
      UpsertAllFresh(rows, last, init);
      var appended := seq(|es|, i requires 0 <= i < |es| => es[i].(id := last + i + 1));
      var appendedInit := seq(|init|, i requires 0 <= i < |init| => init[i].(id := last + i + 1));
      assert appended == appendedInit + [es[|es| - 1].(id := last + |es|)];
    }
  }

  /**
   * `@Update` rewrites the row whose key is `e.id` and no other; when no row has
   * that key the table is unchanged.
   */
  lemma ReplaceCorrect(rows: seq<Exercise>, e: Exercise)
    requires DistinctIds(rows)
    ensures DistinctIds(Replace(rows, e))
    ensures |Replace(rows, e)| == |rows|
    ensures HasId(rows, e.id) ==> e in Replace(rows, e)
    ensures !HasId(rows, e.id) ==> Replace(rows, e) == rows
    ensures forall x :: x in rows && x.id != e.id ==> x in Replace(rows, e)
    ensures forall x :: x in Replace(rows, e) ==> x == e || (x in rows && x.id != e.id)
  {
    var r := Replace(rows, e);
    assert forall i :: 0 <= i < |rows| ==> r[i].id == rows[i].id;
    if HasId(rows, e.id) {
      var i :| 0 <= i < |rows| && rows[i].id == e.id;
      assert r[i] == e;
    }
    forall x | x in rows && x.id != e.id ensures x in r {
      var i :| 0 <= i < |rows| && rows[i] == x;
      assert r[i] == x;
    }
  }

  /** Updating twice with the same record is the same as updating once. */
  lemma ReplaceIdempotent(rows: seq<Exercise>, e: Exercise)
    ensures Replace(Replace(rows, e), e) == Replace(rows, e)
  {
  }

  /** Several `@Update` statements issued one after another. */
  function ReplaceAll(rows: seq<Exercise>, updates: seq<Exercise>): (r: seq<Exercise>)
    decreases |updates|
  {
    if updates == [] then rows
    else Replace(ReplaceAll(rows, updates[..|updates| - 1]), updates[|updates| - 1])
  }

  /** The last record in `updates` carrying the key `id`, if any. */
  function LastWithId(updates: seq<Exercise>, id: int): (r: Option<Exercise>)
    ensures r.Some? ==> r.value in updates && r.value.id == id
    ensures r.None? ==> forall u :: u in updates ==> u.id != id
    decreases |updates|
  {
    if updates == [] then None
    else if updates[|updates| - 1].id == id then Some(updates[|updates| - 1])
    else
      var r := LastWithId(updates[..|updates| - 1], id);
      assert updates == updates[..|updates| - 1] + [updates[|updates| - 1]];
      r
  }

  /**
   * After a run of updates every row holds the last update issued for its key,
   * or is untouched when none was: later updates win and rows never change key.
   */
  lemma {:induction false} ReplaceAllAt(rows: seq<Exercise>, updates: seq<Exercise>)
    ensures |ReplaceAll(rows, updates)| == |rows|
    ensures forall j :: 0 <= j < |rows| ==>
      ReplaceAll(rows, updates)[j] == match LastWithId(updates, rows[j].id)
                                      case Some(u) => u
                                      case None => rows[j]
    decreases |updates|
  {
    if updates != [] {
      var init := updates[..|updates| - 1];
      var u := updates[|updates| - 1];
      ReplaceAllAt(rows, init);
      var mid := ReplaceAll(rows, init);
      forall j | 0 <= j < |rows|
        ensures ReplaceAll(rows, updates)[j] == match LastWithId(updates, rows[j].id)
                                               case Some(v) => v
                                               case None => rows[j]
      {
        assert mid[j].id == rows[j].id;
      }
    }
  }

  // ---------------------------------------------------------- daily_progress

  ghost predicate DistinctProgressIds(log: seq<DailyProgress>) {
    forall i, j :: 0 <= i < j < |log| ==> log[i].id != log[j].id
  }

  ghost predicate LogInvariant(log: seq<DailyProgress>, last: int) {
    last >= 0 && DistinctProgressIds(log) && forall i :: 0 <= i < |log| ==> log[i].id <= last
  }

  function RemoveProgressId(log: seq<DailyProgress>, id: int): (r: seq<DailyProgress>)
    ensures forall x :: x in r <==> x in log && x.id != id
    ensures |r| <= |log|
    decreases |log|
  {
    if log == [] then []
    else if log[0].id == id then RemoveProgressId(log[1..], id)
    else [log[0]] + RemoveProgressId(log[1..], id)
  }

  /** `INSERT OR REPLACE INTO daily_progress`, with the same id-0 rule as the exercises. */
  function LogInsert(log: seq<DailyProgress>, last: int, p: DailyProgress): (seq<DailyProgress>, int) {
    if p.id == 0 then (log + [p.(id := last + 1)], last + 1)
    else (RemoveProgressId(log, p.id) + [p], if p.id > last then p.id else last)
  }

  /** An entry inserted with id 0 is appended, under the next id, after every existing entry. */
  lemma LogInsertAppends(log: seq<DailyProgress>, last: int, p: DailyProgress)
    requires LogInvariant(log, last)
    requires p.id == 0
    ensures var (log', last') := LogInsert(log, last, p);
      && LogInvariant(log', last')
      && log' == log + [p.(id := last + 1)]
      && last' == last + 1
      && forall x :: x in log ==> x.id != last'
  {
    var (log', last') := LogInsert(log, last, p);
    forall i, j | 0 <= i < j < |log'| ensures log'[i].id != log'[j].id {
      if j == |log| { assert log'[i] == log[i]; }
    }
  }

  lemma LogInsertCorrect(log: seq<DailyProgress>, last: int, p: DailyProgress)
    requires LogInvariant(log, last)
    ensures LogInvariant(LogInsert(log, last, p).0, LogInsert(log, last, p).1)
    ensures |LogInsert(log, last, p).0| <= |log| + 1
  {
    if p.id == 0 {
      LogInsertAppends(log, last, p);
    } else {
      var (log', last') := LogInsert(log, last, p);
      var kept := RemoveProgressId(log, p.id);
      assert DistinctProgressIds(kept) by {
        RemoveProgressIdDistinct(log, p.id);
      }
      forall i, j | 0 <= i < j < |log'| ensures log'[i].id != log'[j].id {
        if j == |kept| {
          assert log'[i] in kept;
        } else {
          assert log'[i] == kept[i] && log'[j] == kept[j];
        }
      }
      forall i | 0 <= i < |log'| ensures log'[i].id <= last' {
        if i < |kept| {
          assert log'[i] in kept;
          var k :| 0 <= k < |log| && log[k] == log'[i];
        }
      }
    }
  }

  lemma DistinctProgressCons(a: DailyProgress, t: seq<DailyProgress>)
    requires DistinctProgressIds(t)
    requires forall x :: x in t ==> x.id != a.id
    ensures DistinctProgressIds([a] + t)
  {
    var r := [a] + t;
    forall i, j | 0 <= i < j < |r| ensures r[i].id != r[j].id {
      assert r[j] == t[j - 1];
      if i > 0 { assert r[i] == t[i - 1]; }
    }
  }

  /** No later entry of a log with unique keys shares the first entry's key. */
  lemma HeadKeyNotInTail(log: seq<DailyProgress>, sub: seq<DailyProgress>)
    requires log != [] && DistinctProgressIds(log)
    requires forall x :: x in sub ==> x in log[1..]
    ensures forall x :: x in sub ==> x.id != log[0].id
  {
    forall x | x in sub ensures x.id != log[0].id {
      var k :| 0 <= k < |log[1..]| && log[1..][k] == x;
      assert log[k + 1] == x;
    }
  }

  lemma {:induction false} RemoveProgressIdDistinct(log: seq<DailyProgress>, id: int)
    requires DistinctProgressIds(log)
    ensures DistinctProgressIds(RemoveProgressId(log, id))
    decreases |log|
  {
    if log != [] {
      var t := log[1..];
      assert DistinctProgressIds(t);
      RemoveProgressIdDistinct(t, id);
      if log[0].id != id {
        HeadKeyNotInTail(log, RemoveProgressId(t, id));
        DistinctProgressCons(log[0], RemoveProgressId(t, id));
      }
    }
  }

  function DateOf(p: DailyProgress): int { p.dateCompleted }
  function NegatedDateOf(p: DailyProgress): int { -p.dateCompleted }

  /** `daily_progress WHERE dateCompleted >= :start`: the entries a retention sweep keeps. */
  function ProgressSince(log: seq<DailyProgress>, start: int): (r: seq<DailyProgress>)
    ensures forall x :: x in r <==> x in log && x.dateCompleted >= start
    ensures |r| <= |log|
    decreases |log|
  {
    if log == [] then []
    else if log[0].dateCompleted >= start then [log[0]] + ProgressSince(log[1..], start)
    else ProgressSince(log[1..], start)
  }

  /** Division rounding toward zero, as SQLite divides two integers. */
  function TruncDiv(a: int, b: int): (q: int)
    requires b > 0
    ensures a >= 0 ==> q * b <= a < (q + 1) * b
    ensures a < 0 ==> (q - 1) * b < a <= q * b
  {
    if a >= 0 then a / b else -((-a) / b)
  }

  const MillisPerSecond: int := 1000
  const SecondsPerDay: int := 86400

  /**
   * `DATE(ms / 1000, 'unixepoch')` as a day number: the integer division of the
   * milliseconds truncates, and the date of a count of seconds is its UTC day.
   */
  function UtcDay(ms: int): (d: int)
    ensures d * SecondsPerDay <= TruncDiv(ms, MillisPerSecond) < (d + 1) * SecondsPerDay
  {
    TruncDiv(ms, MillisPerSecond) / SecondsPerDay
  }

  /** The distinct UTC days on which the log has an entry. */
  function DaysWithProgress(log: seq<DailyProgress>): set<int> {
    set p | p in log :: UtcDay(p.dateCompleted)
  }

  /** `COUNT(DISTINCT DATE(...)) ... WHERE dateCompleted >= :start`. */
  function StreakDays(log: seq<DailyProgress>, start: int): nat {
    |DaysWithProgress(ProgressSince(log, start))|
  }

  /** There are never more distinct days than entries, and none without an entry. */
  lemma {:induction false} DaysWithProgressBound(log: seq<DailyProgress>)
    ensures |DaysWithProgress(log)| <= |log|
    ensures |DaysWithProgress(log)| == 0 <==> log == []
    decreases |log|
  {
    if log != [] {
      var init := log[..|log| - 1];
      var p := log[|log| - 1];
      DaysWithProgressBound(init);
      assert log == init + [p];
      assert DaysWithProgress(log) == DaysWithProgress(init) + {UtcDay(p.dateCompleted)};
      assert UtcDay(p.dateCompleted) in DaysWithProgress(log);
    }
  }

  /**
   * The streak count is zero exactly when no entry is at or after `start`, and
   * never exceeds the number of such entries.
   */
  lemma StreakDaysBound(log: seq<DailyProgress>, start: int)
    ensures StreakDays(log, start) <= |ProgressSince(log, start)|
    ensures StreakDays(log, start) == 0 <==> forall p :: p in log ==> p.dateCompleted < start
  {
    var kept := ProgressSince(log, start);
    DaysWithProgressBound(kept);
    if kept != [] {
      assert kept[0] in kept;
    }
  }

  /** The streak is the number of distinct UTC days among the entries at or after `start`. */
  lemma StreakDaysAreDistinctDays(log: seq<DailyProgress>, start: int)
    ensures StreakDays(log, start) == |set p | p in log && p.dateCompleted >= start :: UtcDay(p.dateCompleted)|
  {
    assert DaysWithProgress(ProgressSince(log, start))
        == set p | p in log && p.dateCompleted >= start :: UtcDay(p.dateCompleted);
  }

  /** Two entries in the same UTC day count once. */
  lemma SameDayCountsOnce(a: DailyProgress, b: DailyProgress)
    requires UtcDay(a.dateCompleted) == UtcDay(b.dateCompleted)
    ensures |DaysWithProgress([a, b])| == 1
  {
    assert DaysWithProgress([a, b]) == {UtcDay(a.dateCompleted)};
  }

  /** Two entries on different UTC days count apart. */
  lemma DifferentDaysCountApart(a: DailyProgress, b: DailyProgress)
    requires UtcDay(a.dateCompleted) != UtcDay(b.dateCompleted)
    ensures |DaysWithProgress([a, b])| == 2
  {
    assert DaysWithProgress([a, b]) == {UtcDay(a.dateCompleted), UtcDay(b.dateCompleted)};
  }

  // ------------------------------------------------------------------- the DAO

  class ExerciseDao {
    var exercises: seq<Exercise>
    var exerciseSeq: int
    var progress: seq<DailyProgress>
    var progressSeq: int

    ghost predicate Valid()
      reads this
    {
      TableInvariant(exercises, exerciseSeq) && LogInvariant(progress, progressSeq)
    }

    /** A freshly created database: both tables empty. */
    constructor ()
      ensures Valid()
      ensures exercises == [] && progress == []
    {
      exercises, exerciseSeq := [], 0;
      progress, progressSeq := [], 0;
    }

    /** `SELECT * FROM exercises ORDER BY orderIndex ASC`. */
    function GetAllExercises(): (r: seq<Exercise>)
      reads this
      ensures SortedBy(r, OrderIndexOf)
      ensures multiset(r) == multiset(exercises)
    {
      SortByCorrect(exercises, OrderIndexOf);
      SortBy(exercises, OrderIndexOf)
    }

    /** `SELECT * FROM exercises WHERE category = :category ORDER BY orderIndex ASC`. */
    function GetExercisesByCategory(category: ExerciseCategory): (r: seq<Exercise>)
      reads this
      ensures SortedBy(r, OrderIndexOf)
      ensures forall x :: x in r <==> x in exercises && x.category == category
      ensures forall x :: multiset(r)[x] == if x.category == category then multiset(exercises)[x] else 0
    {
      var inCategory := (x: Exercise) => x.category == category;
      var matching := Filter(exercises, inCategory);
      FilterMultiset(exercises, inCategory);
      SortByLength(matching, OrderIndexOf);
      SortByCorrect(matching, OrderIndexOf);
      SortBy(matching, OrderIndexOf)
    }

    /** `SELECT * FROM exercises WHERE id = :exerciseId`: null when absent. */
    function GetExerciseById(exerciseId: int): (r: Option<Exercise>)
      reads this
      ensures r.Some? <==> HasId(exercises, exerciseId)
      ensures r.Some? ==> r.value in exercises && r.value.id == exerciseId
    {
      FindById(exercises, exerciseId)
    }

    /** `SELECT * FROM exercises WHERE isCompleted = 1`, in no particular order. */
    function GetCompletedExercises(): (r: seq<Exercise>)
      reads this
      ensures forall x :: x in r <==> x in exercises && x.isCompleted
      ensures forall x :: multiset(r)[x] == if x.isCompleted then multiset(exercises)[x] else 0
    {
      FilterMultiset(exercises, IsCompletedRow);
      Filter(exercises, IsCompletedRow)
    }

    /** `SELECT * FROM exercises WHERE isFavorite = 1 ORDER BY orderIndex ASC`. */
    function GetFavoriteExercises(): (r: seq<Exercise>)
      reads this
      ensures SortedBy(r, OrderIndexOf)
      ensures forall x :: x in r <==> x in exercises && x.isFavorite
      ensures forall x :: multiset(r)[x] == if x.isFavorite then multiset(exercises)[x] else 0
    {
      var matching := Filter(exercises, IsFavoriteRow);
      FilterMultiset(exercises, IsFavoriteRow);
      SortByLength(matching, OrderIndexOf);
      SortByCorrect(matching, OrderIndexOf);
      SortBy(matching, OrderIndexOf)
    }

    /** `@Insert(onConflict = REPLACE)` of one exercise. */
    method InsertExercise(exercise: Exercise)
      requires Valid()
      modifies this
      ensures Valid()
      ensures (exercises, exerciseSeq) == Upsert(old(exercises), old(exerciseSeq), exercise)
      ensures progress == old(progress) && progressSeq == old(progressSeq)
    {
      UpsertCorrect(exercises, exerciseSeq, exercise);
      exercises, exerciseSeq := Upsert(exercises, exerciseSeq, exercise).0, Upsert(exercises, exerciseSeq, exercise).1;
    }

    /** `@Insert(onConflict = REPLACE)` of a list: each element in turn. */
    method InsertExercises(batch: seq<Exercise>)
      requires Valid()
      modifies this
      ensures Valid()
      ensures (exercises, exerciseSeq) == UpsertAll(old(exercises), old(exerciseSeq), batch)
      ensures progress == old(progress) && progressSeq == old(progressSeq)
    {
      var i := 0;
      while i < |batch|
        invariant 0 <= i <= |batch|
        invariant Valid()
        invariant (exercises, exerciseSeq) == UpsertAll(old(exercises), old(exerciseSeq), batch[..i])
        invariant progress == old(progress) && progressSeq == old(progressSeq)
      {
        assert batch[..i + 1][..i] == batch[..i];
        InsertExercise(batch[i]);
        i := i + 1;
      }
      assert batch[..i] == batch;
    }

    /** `@Update`: rewrites the row with the same primary key, if there is one. */
    method UpdateExercise(exercise: Exercise)
      requires Valid()
      modifies this
      ensures Valid()
      ensures exercises == Replace(old(exercises), exercise)
      ensures exerciseSeq == old(exerciseSeq)
      ensures progress == old(progress) && progressSeq == old(progressSeq)
    {
      ReplaceCorrect(exercises, exercise);
      exercises := Replace(exercises, exercise);
    }

    /** `@Delete`: removes the row with the same primary key, if there is one. */
    method DeleteExercise(exercise: Exercise)
      requires Valid()
      modifies this
      ensures Valid()
      ensures exercises == RemoveId(old(exercises), exercise.id)
      ensures exerciseSeq == old(exerciseSeq)
      ensures progress == old(progress) && progressSeq == old(progressSeq)
    {
      RemoveIdProperties(exercises, exercise.id);
      exercises := RemoveId(exercises, exercise.id);
    }

    /** `UPDATE exercises SET isCompleted = 0`. */
    method ResetAllExercises()
      requires Valid()
      modifies this
      ensures Valid()
      ensures exercises == ResetAll(old(exercises))
      ensures exerciseSeq == old(exerciseSeq)
      ensures progress == old(progress) && progressSeq == old(progressSeq)
    {
      exercises := ResetAll(exercises);
    }

    /** `SELECT COUNT(*) FROM exercises`. */
    function GetExerciseCount(): (n: nat)
      reads this
      ensures n == |exercises|
    {
      |exercises|
    }

    /** `SELECT COUNT(*) FROM exercises WHERE isCompleted = 1`. */
    function GetCompletedCount(): (n: nat)
      reads this
      ensures n <= |exercises|
      ensures n == |Filter(exercises, IsCompletedRow)|
    {
      CountOfMultiset(exercises, IsCompletedRow);
      Count(exercises, IsCompletedRow)
    }

    /** `@Insert(onConflict = REPLACE)` into `daily_progress`. */
    method InsertDailyProgress(entry: DailyProgress)
      requires Valid()
      modifies this
      ensures Valid()
      ensures (progress, progressSeq) == LogInsert(old(progress), old(progressSeq), entry)
      ensures exercises == old(exercises) && exerciseSeq == old(exerciseSeq)
    {
      LogInsertCorrect(progress, progressSeq, entry);
      progress, progressSeq := LogInsert(progress, progressSeq, entry).0, LogInsert(progress, progressSeq, entry).1;
    }

    /** `... WHERE exerciseId = :exerciseId ORDER BY dateCompleted DESC`. */
    function GetProgressForExercise(exerciseId: int): (r: seq<DailyProgress>)
      reads this
      ensures forall i, j :: 0 <= i < j < |r| ==> r[i].dateCompleted >= r[j].dateCompleted
      ensures forall x :: x in r <==> x in progress && x.exerciseId == exerciseId
      ensures forall x :: multiset(r)[x] == if x.exerciseId == exerciseId then multiset(progress)[x] else 0
    {
      var forExercise := (p: DailyProgress) => p.exerciseId == exerciseId;
      var matching := Filter(progress, forExercise);
      FilterMultiset(progress, forExercise);
      SortByLength(matching, NegatedDateOf);
      SortByCorrect(matching, NegatedDateOf);
      var r := SortBy(matching, NegatedDateOf);
      assert forall i, j :: 0 <= i < j < |r| ==> NegatedDateOf(r[i]) <= NegatedDateOf(r[j]);
      r
    }

    /** `... WHERE dateCompleted >= :startDate AND dateCompleted <= :endDate`. */
    function GetProgressForDateRange(startDate: int, endDate: int): (r: seq<DailyProgress>)
      reads this
      ensures forall x :: x in r <==> x in progress && startDate <= x.dateCompleted <= endDate
      ensures forall x :: multiset(r)[x] == if startDate <= x.dateCompleted <= endDate then multiset(progress)[x] else 0
    {
      var inRange := (p: DailyProgress) => startDate <= p.dateCompleted <= endDate;
      FilterMultiset(progress, inRange);
      Filter(progress, inRange)
    }

    /** `DELETE FROM daily_progress WHERE dateCompleted < :date`. */
    method DeleteOldProgress(date: int)
      requires Valid()
      modifies this
      ensures Valid()
      ensures progress == ProgressSince(old(progress), date)
      ensures progressSeq == old(progressSeq)
      ensures exercises == old(exercises) && exerciseSeq == old(exerciseSeq)
    {
      ProgressSinceKeepsIds(progress, progressSeq, date);
      progress := ProgressSince(progress, date);
    }

    /** `SELECT COUNT(DISTINCT DATE(dateCompleted / 1000, 'unixepoch')) ... >= :startDate`. */
    function GetStreakDays(startDate: int): (n: nat)
      reads this
      ensures n <= |ProgressSince(progress, startDate)|
      ensures n == 0 <==> forall p :: p in progress ==> p.dateCompleted < startDate
      ensures n == |set p | p in progress && p.dateCompleted >= startDate :: UtcDay(p.dateCompleted)|
    {
      StreakDaysBound(progress, startDate);
      StreakDaysAreDistinctDays(progress, startDate);
      StreakDays(progress, startDate)
    }
  }

  lemma {:induction false} ProgressSinceKeepsIds(log: seq<DailyProgress>, last: int, date: int)
    requires LogInvariant(log, last)
    ensures LogInvariant(ProgressSince(log, date), last)
    decreases |log|
  {
    var r := ProgressSince(log, date);
    forall i | 0 <= i < |r| ensures r[i].id <= last {
      assert r[i] in log;
    }
    if log != [] {
      var t := log[1..];
      assert LogInvariant(t, last);
      ProgressSinceKeepsIds(t, last, date);
      if log[0].dateCompleted >= date {
        HeadKeyNotInTail(log, ProgressSince(t, date));
        DistinctProgressCons(log[0], ProgressSince(t, date));
      }
    }
  }
}
