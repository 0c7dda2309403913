# Exercise Guide: a verified model of the data layer and completion rules

Exercise Guide is an Android app for knee rehabilitation. It keeps a list of
exercises with videos in a Room database. The user marks exercises as done, and
the app logs each completion in a daily-progress table. It then derives
completion percentages, streaks and retention from that table.

This project models the core of the app in Dafny:

- **Tables.** The two tables `exercises` and `daily_progress`, with Room's
  insert-or-replace, update and delete semantics and SQLite's autoincrement keys.
  Every query of the DAO is a function of the tables (`exercise_dao.dfy`).
- **Repository.** It logs a completion on every update of a completed record. It
  also has the time-gated daily reset, the completion percentage, and the
  retention and streak windows (`exercise_repository.dfy`).
- **View model.** It runs the completion state machine (toggle, mark completed,
  start a new day) and the first-run seeding of 13 sample exercises
  (`exercise_view_model.dfy`).
- **Entities and converters.** The entity records, their defaults, the two enums
  and the enum-to-text converters (`entities.dfy`, `converters.dfy`).
- **Screen rules.** From the list screen: the progress summary, pager arrows,
  video auto-complete latch, edit dialog and thumbnail lookup
  (`exercise_list_screen.dfy`). From the add screen: the form, its digit filter
  and the record its save button builds (`add_exercise_screen.dfy`).
- **Wiring.** The callbacks the activity wires between screens and view model
  (`main_activity.dfy`).
- **Helpers.** Kotlin's text helpers (`isDigit`, `isBlank`, `toString`,
  `toIntOrNull`) in `kotlin_text.dfy`. WHERE, ORDER BY and COUNT over
  sequences in `sequences.dfy`.

How things are represented:

- Each table is a sequence in storage order, together with its autoincrement
  counter.
- An id of 0 is replaced by the counter plus one.
- The clock and local midnight are parameters (`now`, `todayStart`).
- Every coroutine runs to completion at the point it is launched.

## Model

| member | source | states |
|---|---|---|
| Entities.NewExercise | app/src/main/java/com/rehabilitation/exerciseguide/data/local/entities/Exercise.kt:11-41 | a new exercise has id 0, is not completed, has no completion date, a count of 0, is not a favourite, has no equipment or precautions and order index 0; every required field is as given |
| Entities.NewDailyProgress | app/src/main/java/com/rehabilitation/exerciseguide/data/local/entities/Exercise.kt:68-76 | a new progress entry has id 0 and no notes; its exercise, date, sets and repetitions are as given |
| Entities.CategoriesAreSix | app/src/main/java/com/rehabilitation/exerciseguide/data/local/entities/Exercise.kt:46-53 | there are exactly six categories, all distinct, and every category is among them |
| Entities.DifficultyLevelsAreThree | app/src/main/java/com/rehabilitation/exerciseguide/data/local/entities/Exercise.kt:58-62 | there are exactly three difficulty levels, all distinct, and every level is among them |
| Converters.CategoryRoundTrip | app/src/main/java/com/rehabilitation/exerciseguide/data/local/ExerciseDatabase.kt:52-60 | converting a category to its name and back gives the category |
| Converters.CategoryNamesRoundTrip | app/src/main/java/com/rehabilitation/exerciseguide/data/local/ExerciseDatabase.kt:57-60 | reading a text succeeds exactly when it is the name of some category, and the read category's name is that text |
| Converters.CategoryNamesDistinct | app/src/main/java/com/rehabilitation/exerciseguide/data/local/ExerciseDatabase.kt:52-55 | different categories have different stored names |
| Converters.ToExerciseCategory | app/src/main/java/com/rehabilitation/exerciseguide/data/local/ExerciseDatabase.kt:57-60 | any text that is not a category name is rejected with an illegal-argument error |
| Converters.DifficultyRoundTrip | app/src/main/java/com/rehabilitation/exerciseguide/data/local/ExerciseDatabase.kt:62-70 | converting a difficulty level to its name and back gives the level |
| Converters.DifficultyNamesRoundTrip | app/src/main/java/com/rehabilitation/exerciseguide/data/local/ExerciseDatabase.kt:67-70 | reading a text succeeds exactly when it is the name of some level, and the read level's name is that text |
| Converters.DifficultyNamesDistinct | app/src/main/java/com/rehabilitation/exerciseguide/data/local/ExerciseDatabase.kt:62-65 | different levels have different stored names |
| Converters.ToDifficultyLevel | app/src/main/java/com/rehabilitation/exerciseguide/data/local/ExerciseDatabase.kt:67-70 | any text that is not a level name is rejected with an illegal-argument error |
| Dao.ExerciseDao.GetAllExercises | app/src/main/java/com/rehabilitation/exerciseguide/data/local/ExerciseDao.kt:16-17 | the result holds exactly the table's rows (as a multiset) in non-decreasing order index |
| Dao.ExerciseDao.GetExercisesByCategory | app/src/main/java/com/rehabilitation/exerciseguide/data/local/ExerciseDao.kt:19-20 | the result holds exactly the rows of that category, each as often as in the table, in non-decreasing order index |
| Dao.ExerciseDao.GetExerciseById | app/src/main/java/com/rehabilitation/exerciseguide/data/local/ExerciseDao.kt:22-23 | a row is found exactly when some row has the key, and the found row is in the table with that key |
| Dao.ExerciseDao.GetCompletedExercises | app/src/main/java/com/rehabilitation/exerciseguide/data/local/ExerciseDao.kt:25-26 | the result holds exactly the completed rows, each as often as in the table (no order promised) |
| Dao.ExerciseDao.GetFavoriteExercises | app/src/main/java/com/rehabilitation/exerciseguide/data/local/ExerciseDao.kt:28-29 | the result holds exactly the favourite rows, each as often as in the table, in non-decreasing order index |
| Dao.UpsertCorrect | app/src/main/java/com/rehabilitation/exerciseguide/data/local/ExerciseDao.kt:31-32 | insert-or-replace keeps keys unique and the counter above every key; it stores the record, drops the old row with that key, keeps every other row, and grows the table by one exactly when the key was new; a key of 0 becomes a fresh key |
| Dao.InsertThenGet | app/src/main/java/com/rehabilitation/exerciseguide/data/local/ExerciseDao.kt:22-23 | reading an inserted record back by the key it was stored under gives that record, field for field |
| Dao.ExerciseDao.InsertExercise | app/src/main/java/com/rehabilitation/exerciseguide/data/local/ExerciseDao.kt:31-32 | the tables after an insert are the insert-or-replace of the record; the progress log is unchanged |
| Dao.UpsertAllCorrect | app/src/main/java/com/rehabilitation/exerciseguide/data/local/ExerciseDao.kt:34-35 | a batch of inserts keeps the table invariant, never lowers the counter and adds at most one row per record |
| Dao.UpsertAllFresh | app/src/main/java/com/rehabilitation/exerciseguide/data/local/ExerciseDao.kt:34-35 | a batch of new records is appended in order, the i-th under key counter+i+1 |
| Dao.ExerciseDao.InsertExercises | app/src/main/java/com/rehabilitation/exerciseguide/data/local/ExerciseDao.kt:34-35 | the loop over the batch leaves the tables as the batch of inserts in order |
| Dao.ReplaceCorrect | app/src/main/java/com/rehabilitation/exerciseguide/data/local/ExerciseDao.kt:37-38 | an update keeps keys unique and the table size; it stores the record when its key exists, changes nothing when it does not, and touches no row with another key |
| Dao.ReplaceIdempotent | app/src/main/java/com/rehabilitation/exerciseguide/data/local/ExerciseDao.kt:37-38 | repeating the same update changes nothing more |
| Dao.ReplaceAllAt | app/src/main/java/com/rehabilitation/exerciseguide/data/local/ExerciseDao.kt:37-38 | after a run of updates every row holds the last update issued for its key, or is unchanged if none was |
| Dao.ExerciseDao.UpdateExercise | app/src/main/java/com/rehabilitation/exerciseguide/data/local/ExerciseDao.kt:37-38 | the table after an update is the keyed replacement; the log and counters are unchanged |
| Dao.RemoveId | app/src/main/java/com/rehabilitation/exerciseguide/data/local/ExerciseDao.kt:40-41 | deleting keeps exactly the rows with another key |
| Dao.RemoveIdProperties | app/src/main/java/com/rehabilitation/exerciseguide/data/local/ExerciseDao.kt:40-41 | deleting keeps keys unique, leaves no row with the key, and shrinks the table by one exactly when the key was present |
| Dao.ExerciseDao.DeleteExercise | app/src/main/java/com/rehabilitation/exerciseguide/data/local/ExerciseDao.kt:40-41 | the table after a delete is the table without the record's key |
| Dao.ResetAll | app/src/main/java/com/rehabilitation/exerciseguide/data/local/ExerciseDao.kt:43-44 | every row becomes not completed, with every other field unchanged |
| Dao.ExerciseDao.ResetAllExercises | app/src/main/java/com/rehabilitation/exerciseguide/data/local/ExerciseDao.kt:43-44 | the table after the bulk reset is every row with its completed flag cleared |
| Dao.ExerciseDao.GetExerciseCount | app/src/main/java/com/rehabilitation/exerciseguide/data/local/ExerciseDao.kt:46-47 | the count is the number of rows |
| Dao.ExerciseDao.GetCompletedCount | app/src/main/java/com/rehabilitation/exerciseguide/data/local/ExerciseDao.kt:49-50 | the count is the number of completed rows, at most the number of rows |
| Dao.LogInsertAppends | app/src/main/java/com/rehabilitation/exerciseguide/data/local/ExerciseDao.kt:53-54 | a new progress entry is appended under the next key, and the log's keys stay unique and below the counter |
| Dao.LogInsertCorrect | app/src/main/java/com/rehabilitation/exerciseguide/data/local/ExerciseDao.kt:53-54 | any progress insert keeps the log's keys unique and below the counter and adds at most one entry |
| Dao.RemoveProgressIdDistinct | app/src/main/java/com/rehabilitation/exerciseguide/data/local/ExerciseDao.kt:53-54 | replacing a progress entry by key keeps the log's keys unique |
| Dao.ExerciseDao.InsertDailyProgress | app/src/main/java/com/rehabilitation/exerciseguide/data/local/ExerciseDao.kt:53-54 | the log after an insert is the insert-or-replace of the entry; the exercise table is unchanged |
| Dao.ExerciseDao.GetProgressForExercise | app/src/main/java/com/rehabilitation/exerciseguide/data/local/ExerciseDao.kt:56-57 | the result holds exactly that exercise's entries, each as often as in the log, newest first |
| Dao.ExerciseDao.GetProgressForDateRange | app/src/main/java/com/rehabilitation/exerciseguide/data/local/ExerciseDao.kt:59-60 | the result holds exactly the entries dated within the closed range, each as often as in the log |
| Dao.ProgressSince | app/src/main/java/com/rehabilitation/exerciseguide/data/local/ExerciseDao.kt:62-63 | the entries kept by a retention delete are exactly those dated at or after the cutoff |
| Dao.ProgressSinceKeepsIds | app/src/main/java/com/rehabilitation/exerciseguide/data/local/ExerciseDao.kt:62-63 | a retention delete keeps the log's keys unique and below the counter |
| Dao.ExerciseDao.DeleteOldProgress | app/src/main/java/com/rehabilitation/exerciseguide/data/local/ExerciseDao.kt:62-63 | the log after the delete is the entries dated at or after the cutoff; the counters are unchanged |
| Dao.TruncDiv | app/src/main/java/com/rehabilitation/exerciseguide/data/local/ExerciseDao.kt:67 | integer division rounds toward zero, as SQLite divides |
| Dao.UtcDay | app/src/main/java/com/rehabilitation/exerciseguide/data/local/ExerciseDao.kt:67 | an entry's day is the UTC day holding its timestamp truncated to whole seconds |
| Dao.DaysWithProgressBound | app/src/main/java/com/rehabilitation/exerciseguide/data/local/ExerciseDao.kt:66-71 | there are no more distinct days than entries, and no days exactly when there are no entries |
| Dao.StreakDaysBound | app/src/main/java/com/rehabilitation/exerciseguide/data/local/ExerciseDao.kt:66-71 | the streak never exceeds the number of entries since the start, and is 0 exactly when no entry is that recent |
| Dao.StreakDaysAreDistinctDays | app/src/main/java/com/rehabilitation/exerciseguide/data/local/ExerciseDao.kt:66-71 | the streak counts the distinct UTC days among the entries dated at or after the start |
| Dao.SameDayCountsOnce | app/src/main/java/com/rehabilitation/exerciseguide/data/local/ExerciseDao.kt:67 | two entries on the same UTC day count as one streak day |
| Dao.DifferentDaysCountApart | app/src/main/java/com/rehabilitation/exerciseguide/data/local/ExerciseDao.kt:67 | two entries on different UTC days count as two streak days |
| Dao.ExerciseDao.GetStreakDays | app/src/main/java/com/rehabilitation/exerciseguide/data/local/ExerciseDao.kt:66-71 | the streak is the number of distinct UTC days among the entries dated at or after the start; it is 0 exactly when no entry is that recent, and at most the number of such entries |
| Repository.AfterUpdateCorrect | app/src/main/java/com/rehabilitation/exerciseguide/data/repository/ExerciseRepository.kt:32-45 | an update writes the record; for a completed record it appends exactly one entry with the record's key, the time `now`, its sets and repetitions and no notes; for an incomplete one the log is unchanged |
| Repository.RepeatedUpdates | app/src/main/java/com/rehabilitation/exerciseguide/data/repository/ExerciseRepository.kt:32-45 | n updates with the same completed record leave the row as one update does but append n entries |
| Repository.ExerciseRepository.UpdateExercise | app/src/main/java/com/rehabilitation/exerciseguide/data/repository/ExerciseRepository.kt:32-45 | the tables after the repository update are those `AfterUpdate` describes |
| Repository.ClearWhere | app/src/main/java/com/rehabilitation/exerciseguide/data/repository/ExerciseRepository.kt:64-74 | after a reset a row is completed exactly when it was completed and not selected; no other field changes |
| Repository.ClearedCopiesFor | app/src/main/java/com/rehabilitation/exerciseguide/data/repository/ExerciseRepository.kt:64-74 | the last update a reset pass issues for a row is the row with its flag cleared, if the row is selected, and none otherwise |
| Repository.ResetStep | app/src/main/java/com/rehabilitation/exerciseguide/data/repository/ExerciseRepository.kt:65-73 | walking one more row adds exactly one update when that row is selected |
| Repository.ResetLoopMeetsClearWhere | app/src/main/java/com/rehabilitation/exerciseguide/data/repository/ExerciseRepository.kt:64-74 | a pass over any list holding exactly the table's rows leaves the table as `ClearWhere` describes |
| Repository.ExerciseRepository.ResetEmission | app/src/main/java/com/rehabilitation/exerciseguide/data/repository/ExerciseRepository.kt:65-74 | the collector writes back exactly the listed rows completed before midnight, with the flag cleared, and logs nothing |
| Repository.ExerciseRepository.ResetDailyProgress | app/src/main/java/com/rehabilitation/exerciseguide/data/repository/ExerciseRepository.kt:53-75 | the reset clears the flag exactly on rows completed with a date before midnight, changes nothing else and logs nothing |
| Repository.ClearWhereIdempotent | app/src/main/java/com/rehabilitation/exerciseguide/data/repository/ExerciseRepository.kt:66-71 | a second reset with the same midnight changes nothing |
| Repository.ClearAnyCompletedIsResetAll | app/src/main/java/com/rehabilitation/exerciseguide/presentation/viewmodels/ExerciseViewModel.kt:119-124 | clearing every completed row gives the same table as the bulk reset |
| Repository.CompletionPercentage | app/src/main/java/com/rehabilitation/exerciseguide/data/repository/ExerciseRepository.kt:99-104 | the percentage is 0 for an empty table, otherwise the floor of completed*100/total, always between 0 and 100 |
| Repository.ExerciseRepository.GetCompletionPercentage | app/src/main/java/com/rehabilitation/exerciseguide/data/repository/ExerciseRepository.kt:99-104 | on the current table the percentage is between 0 and 100, 0 when there are no rows, and the floor of completed*100/total otherwise |
| Repository.RetentionCutoff | app/src/main/java/com/rehabilitation/exerciseguide/data/repository/ExerciseRepository.kt:85-89 | the cutoff lies exactly the given number of days before `now` |
| Repository.RetentionBoundary | app/src/main/java/com/rehabilitation/exerciseguide/data/repository/ExerciseRepository.kt:85-89 | with the 30-day default, an entry a second older than the cutoff is deleted and one a second newer is kept |
| Repository.ExerciseRepository.DeleteOldProgress | app/src/main/java/com/rehabilitation/exerciseguide/data/repository/ExerciseRepository.kt:85-89 | the log keeps exactly the entries no older than the given number of days |
| Repository.ExerciseRepository.GetStreakDays | app/src/main/java/com/rehabilitation/exerciseguide/data/repository/ExerciseRepository.kt:92-95 | the streak is the number of distinct UTC days among the entries of the last 30 days; it is 0 exactly when there are none, and at most their number |
| ViewModel.Toggled | app/src/main/java/com/rehabilitation/exerciseguide/presentation/viewmodels/ExerciseViewModel.kt:53-57 | toggling flips the completed flag; turning on sets the date to `now` and adds one to the count; turning off keeps both; no other field changes |
| ViewModel.ToggleOnThenOff | app/src/main/java/com/rehabilitation/exerciseguide/presentation/viewmodels/ExerciseViewModel.kt:53-57 | on then off counts exactly one completion, leaves the date at the on-time, and restores everything else |
| ViewModel.ToggleRun | app/src/main/java/com/rehabilitation/exerciseguide/presentation/viewmodels/ExerciseViewModel.kt:53-57 | over any run of toggles the count never decreases and grows by the number of on-toggles; the flag follows the parity |
| ViewModel.ToggleLogsOnlyTurningOn | app/src/main/java/com/rehabilitation/exerciseguide/presentation/viewmodels/ExerciseViewModel.kt:51-60 | toggling on logs exactly one entry; toggling off logs none |
| ViewModel.ExerciseViewModel.ToggleExerciseCompletion | app/src/main/java/com/rehabilitation/exerciseguide/presentation/viewmodels/ExerciseViewModel.kt:51-60 | the tables after a toggle are the repository update of the toggled record |
| ViewModel.MarkEqualsToggleOn | app/src/main/java/com/rehabilitation/exerciseguide/presentation/viewmodels/ExerciseViewModel.kt:65-76 | marking an incomplete exercise completed writes the same record as toggling it |
| ViewModel.ExerciseViewModel.MarkExerciseCompleted | app/src/main/java/com/rehabilitation/exerciseguide/presentation/viewmodels/ExerciseViewModel.kt:65-76 | marking a completed exercise changes nothing; otherwise it is the repository update of the completed record |
| ViewModel.ExerciseViewModel.DeleteExercise | app/src/main/java/com/rehabilitation/exerciseguide/presentation/viewmodels/ExerciseViewModel.kt:81-85 | deleting removes the record's key from the table and nothing else |
| ViewModel.ExerciseViewModel.AddExercise | app/src/main/java/com/rehabilitation/exerciseguide/presentation/viewmodels/ExerciseViewModel.kt:90-94 | adding is the insert-or-replace of the record |
| ViewModel.ExerciseViewModel.UpdateExercise | app/src/main/java/com/rehabilitation/exerciseguide/presentation/viewmodels/ExerciseViewModel.kt:99-103 | editing is the repository update, which logs when the record is completed |
| ViewModel.ExerciseViewModel.ResetDailyProgress | app/src/main/java/com/rehabilitation/exerciseguide/presentation/viewmodels/ExerciseViewModel.kt:108-112 | the view model's reset is the repository's time-gated reset |
| ViewModel.ExerciseViewModel.constructor | app/src/main/java/com/rehabilitation/exerciseguide/presentation/viewmodels/ExerciseViewModel.kt:29-35 | a new view model seeds an empty table with the 13 samples under consecutive new keys and leaves a non-empty table unchanged; its list is then the table ordered by order index |
| ViewModel.ExerciseViewModel.LoadExercises | app/src/main/java/com/rehabilitation/exerciseguide/presentation/viewmodels/ExerciseViewModel.kt:40-46 | the view model's list becomes the table ordered by order index |
| ViewModel.ExerciseViewModel.StartNewDay | app/src/main/java/com/rehabilitation/exerciseguide/presentation/viewmodels/ExerciseViewModel.kt:117-126 | starting a new day writes back the loaded list's completed records with the flag cleared and logs nothing; when the list is current the result is the bulk reset |
| ViewModel.SampleExercise | app/src/main/java/com/rehabilitation/exerciseguide/presentation/viewmodels/ExerciseViewModel.kt:150-165 | sample n has title "Упражнение n", video exercise_n, thumbnail thumb_exercise_n, knee rehabilitation, easy, 30 s, 10 repetitions, 3 sets, order index n, and the record defaults |
| ViewModel.SampleVideosDistinct | app/src/main/java/com/rehabilitation/exerciseguide/presentation/viewmodels/ExerciseViewModel.kt:153-157 | different samples have different videos and titles |
| ViewModel.CreateSampleExercises | app/src/main/java/com/rehabilitation/exerciseguide/presentation/viewmodels/ExerciseViewModel.kt:146-169 | exactly 13 samples, the i-th being sample i+1 |
| ViewModel.ExerciseViewModel.InitializeSampleData | app/src/main/java/com/rehabilitation/exerciseguide/presentation/viewmodels/ExerciseViewModel.kt:131-141 | on an empty table the 13 samples are inserted in order under consecutive new keys; on a non-empty table nothing changes |
| ListScreen.ScreenPercentage | app/src/main/java/com/rehabilitation/exerciseguide/presentation/screens/ExerciseListScreen.kt:90-91 | the on-screen percentage is between 0 and 100, 0 for an empty list, and the floor of completed*100/size otherwise |
| ListScreen.ScreenAgreesWithRepository | app/src/main/java/com/rehabilitation/exerciseguide/presentation/screens/ExerciseListScreen.kt:90-91 | on the list the table emits, the screen shows the repository's percentage |
| ListScreen.ProgressBand | app/src/main/java/com/rehabilitation/exerciseguide/presentation/screens/ExerciseListScreen.kt:154-159 | the box is green from 80, amber from 50 to 79, blue from 1 to 49 and neutral otherwise; exactly one holds |
| ListScreen.BackgroundBand | app/src/main/java/com/rehabilitation/exerciseguide/presentation/screens/ExerciseListScreen.kt:97-101 | the background is never blue and is neutral exactly below 50 |
| ListScreen.BandsMonotone | app/src/main/java/com/rehabilitation/exerciseguide/presentation/screens/ExerciseListScreen.kt:154-159 | a higher percentage never shows a lower band |
| ListScreen.BackgroundFollowsBox | app/src/main/java/com/rehabilitation/exerciseguide/presentation/screens/ExerciseListScreen.kt:97-101 | the background shows the box's band, with blue shown as neutral |
| ListScreen.PreviousArrow | app/src/main/java/com/rehabilitation/exerciseguide/presentation/screens/ExerciseListScreen.kt:333-362 | the previous arrow shows exactly when the page is not the first, labelled with the previous page's number |
| ListScreen.NextArrow | app/src/main/java/com/rehabilitation/exerciseguide/presentation/screens/ExerciseListScreen.kt:365-394 | the next arrow shows exactly when the page is not the last, labelled with the next page's number |
| ListScreen.ArrowsNameExistingPages | app/src/main/java/com/rehabilitation/exerciseguide/presentation/screens/ExerciseListScreen.kt:246-248 | arrow labels are page numbers between 1 and the page count, and some arrow shows exactly when there are at least two pages |
| ListScreen.FiresAsWritten | app/src/main/java/com/rehabilitation/exerciseguide/presentation/screens/ExerciseListScreen.kt:510-513 | as written, a poll fires exactly when not latched and the position is past the duration raised to at least 1, minus 500 ms; the positive-duration guard never decides |
| ListScreen.Fires | app/src/main/java/com/rehabilitation/exerciseguide/presentation/screens/ExerciseListScreen.kt:513-517 | the auto-complete fires only with a known positive duration and no earlier firing |
| ListScreen.FiresAtStartAsWritten | app/src/main/java/com/rehabilitation/exerciseguide/presentation/screens/ExerciseListScreen.kt:510-513 | as written, the first poll with an unknown duration at position 0 fires, while the intended check does not |
| ListScreen.FiresAgreeOnKnownDuration | app/src/main/java/com/rehabilitation/exerciseguide/presentation/screens/ExerciseListScreen.kt:510-513 | once the duration is known, the check as written and as intended agree |
| ListScreen.FiresAtMostOnce | app/src/main/java/com/rehabilitation/exerciseguide/presentation/screens/ExerciseListScreen.kt:504-522 | a run of polls fires at most once, never when latched, and from an unlatched state exactly when some poll meets the condition |
| ListScreen.CompletionLatch.Poll | app/src/main/java/com/rehabilitation/exerciseguide/presentation/screens/ExerciseListScreen.kt:513-517 | a poll fires by the intended condition and latches when it fires |
| ListScreen.CompletionLatch.PollAll | app/src/main/java/com/rehabilitation/exerciseguide/presentation/screens/ExerciseListScreen.kt:504-522 | the polling loop fires as often as `FiringsOver` counts, at most once, and leaves the latch set if it fired |
| ListScreen.CompletionLatch.OnVisibility | app/src/main/java/com/rehabilitation/exerciseguide/presentation/screens/ExerciseListScreen.kt:445-456 | leaving the page clears the latch; staying keeps it |
| ListScreen.AcceptDigitsEdit | app/src/main/java/com/rehabilitation/exerciseguide/presentation/screens/ExerciseListScreen.kt:877-881 | a number field takes the new text when it is all digits, and keeps the old text otherwise |
| ListScreen.IntOrElse | app/src/main/java/com/rehabilitation/exerciseguide/presentation/screens/ExerciseListScreen.kt:944-946 | a field that parses gives its value; one that does not gives the fallback |
| ListScreen.ConfirmEdit | app/src/main/java/com/rehabilitation/exerciseguide/presentation/screens/ExerciseListScreen.kt:942-947 | a blank name keeps the title, unparseable numbers keep theirs, and every other field is kept |
| ListScreen.ConfirmUnchangedIsIdentity | app/src/main/java/com/rehabilitation/exerciseguide/presentation/screens/ExerciseListScreen.kt:427-430 | confirming the dialog as prefilled writes the record back unchanged |
| ListScreen.EmptyFieldKeepsValue | app/src/main/java/com/rehabilitation/exerciseguide/presentation/screens/ExerciseListScreen.kt:944-946 | emptied number fields keep the record's numbers |
| ListScreen.ThumbnailIndex | app/src/main/java/com/rehabilitation/exerciseguide/presentation/screens/ExerciseListScreen.kt:640-655 | a non-zero thumbnail is the one listed for that exact video name |
| ListScreen.ThumbnailIndexCorrect | app/src/main/java/com/rehabilitation/exerciseguide/presentation/screens/ExerciseListScreen.kt:640-655 | a video has a thumbnail exactly when it is exercise_n for n from 1 to 13, and then it is thumbnail n |
| ListScreen.SamplesHaveThumbnails | app/src/main/java/com/rehabilitation/exerciseguide/presentation/screens/ExerciseListScreen.kt:640-655 | every sample exercise's video has its own thumbnail |
| AddScreen.DigitsOnly | app/src/main/java/com/rehabilitation/exerciseguide/presentation/screens/AddExerciseScreen.kt:126 | the filtered text holds digits only and is no longer than the input |
| AddScreen.DigitsOnlySingle | app/src/main/java/com/rehabilitation/exerciseguide/presentation/screens/AddExerciseScreen.kt:126 | a single digit is kept and any other character is dropped |
| AddScreen.DigitsOnlyAppend | app/src/main/java/com/rehabilitation/exerciseguide/presentation/screens/AddExerciseScreen.kt:126 | filtering two pieces and joining them is filtering the joined text, so the digits keep their order |
| AddScreen.DigitsOnlyOfDigits | app/src/main/java/com/rehabilitation/exerciseguide/presentation/screens/AddExerciseScreen.kt:136 | text that is already digits passes unchanged |
| AddScreen.DigitsOnlyIdempotent | app/src/main/java/com/rehabilitation/exerciseguide/presentation/screens/AddExerciseScreen.kt:146 | filtering twice is filtering once |
| AddScreen.EditsStayReachable | app/src/main/java/com/rehabilitation/exerciseguide/presentation/screens/AddExerciseScreen.kt:35-44 | whatever the user does, the category stays knee rehabilitation, the number fields hold only digits, and the video is one the dialog offers |
| AddScreen.IfEmpty | app/src/main/java/com/rehabilitation/exerciseguide/presentation/screens/AddExerciseScreen.kt:265-267 | an empty text gives the fallback and any other text is kept |
| AddScreen.BuildExercise | app/src/main/java/com/rehabilitation/exerciseguide/presentation/screens/AddExerciseScreen.kt:263-276 | the saved record has id 0, order index 999, no thumbnail and the record defaults; the name, instructions, video and numbers fall back to their defaults; the description is as typed |
| AddScreen.SavedNameIsTyped | app/src/main/java/com/rehabilitation/exerciseguide/presentation/screens/AddExerciseScreen.kt:282 | whenever saving is enabled the title is the name as typed |
| AddScreen.DigitFieldValue | app/src/main/java/com/rehabilitation/exerciseguide/presentation/screens/AddExerciseScreen.kt:272-274 | a digit field gives its value when it fits an Int, and the default otherwise |
| AddScreen.SavedFromReachableForm | app/src/main/java/com/rehabilitation/exerciseguide/presentation/screens/AddExerciseScreen.kt:263-276 | every saved exercise is a knee exercise with non-negative numbers and no list thumbnail |
| AddScreen.SaveUntouchedForm | app/src/main/java/com/rehabilitation/exerciseguide/presentation/screens/AddExerciseScreen.kt:35-44 | the untouched form cannot be saved; with a name added it saves 30 s, 10 repetitions and 3 sets with the placeholder video |
| Wiring.OnMarkComplete | app/src/main/java/com/rehabilitation/exerciseguide/MainActivity.kt:134-136 | the complete callback toggles the exercise whatever its state |
| Wiring.OnVideoPoll | app/src/main/java/com/rehabilitation/exerciseguide/presentation/screens/ExerciseListScreen.kt:510-517 | a poll that fires toggles the exercise; one that does not changes no table |
| Wiring.AutoCompleteOnCompletedUncompletes | app/src/main/java/com/rehabilitation/exerciseguide/presentation/screens/ExerciseListScreen.kt:513-517 | watching a video to the end on a completed exercise marks it not completed and logs nothing |
| Wiring.AutoCompleteOnIncompleteLogs | app/src/main/java/com/rehabilitation/exerciseguide/presentation/screens/ExerciseListScreen.kt:513-517 | watching it on an incomplete exercise completes it and logs one entry stamped `now` |
| Wiring.OnEditConfirm | app/src/main/java/com/rehabilitation/exerciseguide/MainActivity.kt:140-142 | the edit callback is the repository update of the confirmed record |
| Wiring.EditLogsWhenCompleted | app/src/main/java/com/rehabilitation/exerciseguide/MainActivity.kt:140-142 | editing a completed exercise logs one more progress entry; editing an incomplete one logs none |
| Wiring.OnSaveExercise | app/src/main/java/com/rehabilitation/exerciseguide/MainActivity.kt:155-157 | saving appends the built record under the next key, after every existing row |
| Wiring.SavedExerciseHasNewKey | app/src/main/java/com/rehabilitation/exerciseguide/MainActivity.kt:155-157 | the key a saved exercise receives is held by no existing row |
| KotlinText.ParseIntToString | app/src/main/java/com/rehabilitation/exerciseguide/presentation/screens/ExerciseListScreen.kt:944-946 | `toIntOrNull` reads back every Int that `toString` writes |
| KotlinText.ParseIntOfDigits | app/src/main/java/com/rehabilitation/exerciseguide/presentation/screens/AddExerciseScreen.kt:272-274 | a digit string parses exactly when it is non-empty and at most Int.MAX_VALUE, and then to its value |
| KotlinText.ParseInt | app/src/main/java/com/rehabilitation/exerciseguide/presentation/screens/AddExerciseScreen.kt:272-274 | a parsed value is always within the 32-bit Int range, and the empty text does not parse |
| Sequences.SortByCorrect | app/src/main/java/com/rehabilitation/exerciseguide/data/local/ExerciseDao.kt:16 | ORDER BY returns the same rows in non-decreasing key order |
| Sequences.CountSortBy | app/src/main/java/com/rehabilitation/exerciseguide/data/local/ExerciseDao.kt:49 | sorting neither adds nor loses rows that match a predicate |
| Sequences.CountOfMultiset | app/src/main/java/com/rehabilitation/exerciseguide/data/local/ExerciseDao.kt:49 | a count is the size of the filtered rows, at most the row count |
| Sequences.FilterMultiset | app/src/main/java/com/rehabilitation/exerciseguide/data/local/ExerciseDao.kt:25-26 | WHERE keeps every matching row exactly as often as it occurs and drops every other row |

## Left out

- Compose rendering, layout, colours, icons, texts and theme are not modelled. The bands are modelled as names, not colours.
- ExoPlayer creation, release and lifecycle are not modelled. The 100 ms `delay` between polls is not modelled either; a poll is a position and duration sample.
- `VideoPlayerScreen.kt` is not part of this model. Its progress bar uses floating point.
- `MainActivity`'s permission requests and navigation are not modelled. The `onDeleteExercise` and `onStartNewDay` callbacks only call `ExerciseViewModel.DeleteExercise` and `ExerciseViewModel.StartNewDay`, which are modelled.
- `NotificationHelper.kt` and `DailyNotificationReceiver.kt` are not part of this model. They are alarm and notification integration with the operating system.
- Live `Flow` re-emission, `viewModelScope.launch` and interleaved writes are not modelled.
  - Every coroutine runs to completion on a snapshot.
  - `resetDailyProgress` applies its collector to one emission. The real `collect` never returns: it runs again on every later emission of the table.
  - A re-run caused by the collector's own writes changes nothing, by `Repository.ClearWhereIdempotent`.
  - A re-run after some other write is not modelled. It clears again any row that the write left completed with a date before midnight, for example a stale copy saved from the edit dialog.
  - The view model's constructor seeds before it loads, so its one snapshot is the seeded table.
- `ExerciseDatabase.getDatabase` is not modelled. It is a thread-safe singleton and the Room builder.
- `getAverageCompletionRate` is not modelled. It is a floating-point average.
- Computing local midnight with `Calendar`, time zones and daylight saving is left out. Midnight is the parameter `todayStart`. The retention cutoff counts days as 86,400,000 ms, whereas `Calendar.add` can be an hour off across a DST change.
- `System.currentTimeMillis` is the parameter `now`. A toggle reads the clock once in the view model and once in the repository; the model uses one `now` for both.
- The repository's pass-throughs (`getAllExercises`, `getExercisesByCategory`, `getExerciseById`, `getCompletedExercises`, `getFavoriteExercises`, `insertExercise`, `insertExercises`, `deleteExercise`, `getExerciseCount`, `getCompletedCount`, `getProgressForExercise`, `getProgressForDateRange`) are the DAO members themselves. The view model calls the DAO directly where the repository only forwards.
- SQLite `DATE()` is modelled as the UTC day number. Its textual form and its limit to years 0000-9999 are left out.
- Kotlin's `isDigit` is modelled for ASCII digits only. Kotlin also accepts other Unicode decimal digits, which `toIntOrNull` reads too.
- ViewModel.Toggled: does not model 32-bit wrap-around of `completionCount + 1`, because no count reaches 2^31 in use.
- Repository.CompletionPercentage: does not model 32-bit overflow of `completed * 100`, which needs more than 21 million rows.
- ListScreen.ScreenPercentage: does not model 32-bit overflow of `completedCount * 100`, for the same reason.
- Room's generated SQL is not modelled beyond its effect on the rows. The id-0 rule and the autoincrement counter stand for SQLite's key allocation.

## Findings

| source | as written | input that shows it | evidently intended | confidence | as-written member | corrected member |
|---|---|---|---|---|---|---|
| app/src/main/java/com/rehabilitation/exerciseguide/presentation/screens/ExerciseListScreen.kt:510-513 | The duration is raised to at least 1 before the check, so `duration > 0` always holds. | First poll after the player is built: duration `C.TIME_UNSET` (-9223372036854775807), position 0. The check reads 0 > 1 - 500, so the exercise is toggled as soon as playback starts. | Fire only once the real duration is known and positive and the position is within its last 500 ms. | medium; not executed (depends on ExoPlayer reporting `TIME_UNSET` before it is prepared) | ListScreen.FiresAtStartAsWritten | ListScreen.Fires |
