/**
 * The two Room entities, `exercises` and `daily_progress`, and the two enums
 * their rows carry. Kotlin `Int` and `Long` columns are unbounded integers here;
 * nullable columns are `Option`s.
 */
module Entities {
  import opened Wrappers

  datatype ExerciseCategory =
    | KneeRehabilitation
    | Strength
    | Flexibility
    | Balance
    | WarmUp
    | CoolDown

  datatype DifficultyLevel = Easy | Medium | Hard

  /** The declared constants of each enum, in declaration order (`values()`). */
  const AllCategories: seq<ExerciseCategory> :=
    [KneeRehabilitation, Strength, Flexibility, Balance, WarmUp, CoolDown]
  const AllDifficultyLevels: seq<DifficultyLevel> := [Easy, Medium, Hard]

  /** One row of the `exercises` table. */
  datatype Exercise = Exercise(
    id: int,
    titleKey: string,
    descriptionKey: string,
    instructionsKey: string,
    videoFileName: string,
    thumbnailFileName: Option<string>,
    category: ExerciseCategory,
    difficultyLevel: DifficultyLevel,
    durationSeconds: int,
    repetitions: int,
    sets: int,
    isCompleted: bool,
    lastCompletedDate: Option<int>,
    completionCount: int,
    isFavorite: bool,
    equipmentNeeded: Option<string>,
    precautions: Option<string>,
    orderIndex: int)

  /** One row of the `daily_progress` log; `exerciseId` is not a foreign key. */
  datatype DailyProgress = DailyProgress(
    id: int,
    exerciseId: int,
    dateCompleted: int,
    setsCompleted: int,
    repetitionsCompleted: int,
    notes: Option<string>)

  /**
   * The `Exercise(...)` constructor with only its required arguments given:
   * everything after `sets` takes its declared default.
   */
  function NewExercise(
    titleKey: string, descriptionKey: string, instructionsKey: string,
    videoFileName: string, thumbnailFileName: Option<string>,
    category: ExerciseCategory, difficultyLevel: DifficultyLevel,
    durationSeconds: int, repetitions: int, sets: int): (e: Exercise)
    ensures e.id == 0 && !e.isCompleted && e.lastCompletedDate == None && e.completionCount == 0
    ensures !e.isFavorite && e.equipmentNeeded == None && e.precautions == None && e.orderIndex == 0
    ensures e.titleKey == titleKey && e.descriptionKey == descriptionKey
    ensures e.instructionsKey == instructionsKey && e.videoFileName == videoFileName
    ensures e.thumbnailFileName == thumbnailFileName
    ensures e.category == category && e.difficultyLevel == difficultyLevel
    ensures e.durationSeconds == durationSeconds && e.repetitions == repetitions && e.sets == sets
  {
    Exercise(0, titleKey, descriptionKey, instructionsKey, videoFileName, thumbnailFileName,
             category, difficultyLevel, durationSeconds, repetitions, sets,
             false, None, 0, false, None, None, 0)
  }

  /** The `DailyProgress(...)` constructor with `id` and `notes` left at their defaults. */
  function NewDailyProgress(exerciseId: int, dateCompleted: int, setsCompleted: int,
                            repetitionsCompleted: int): (p: DailyProgress)
    ensures p.id == 0 && p.notes == None
    ensures p.exerciseId == exerciseId && p.dateCompleted == dateCompleted
    ensures p.setsCompleted == setsCompleted && p.repetitionsCompleted == repetitionsCompleted
  {
    DailyProgress(0, exerciseId, dateCompleted, setsCompleted, repetitionsCompleted, None)
  }

  /** `ExerciseCategory` has exactly six constants, all distinct. */
  lemma CategoriesAreSix()
    ensures |AllCategories| == 6
    ensures forall i, j :: 0 <= i < j < |AllCategories| ==> AllCategories[i] != AllCategories[j]
    ensures forall c: ExerciseCategory :: c in AllCategories
  {
    forall c: ExerciseCategory ensures c in AllCategories {
      match c
      case KneeRehabilitation => assert AllCategories[0] == c;
      case Strength => assert AllCategories[1] == c;
      case Flexibility => assert AllCategories[2] == c;
      case Balance => assert AllCategories[3] == c;
      case WarmUp => assert AllCategories[4] == c;
      case CoolDown => assert AllCategories[5] == c;
    }
  }

  /** `DifficultyLevel` has exactly three constants, all distinct. */
  lemma DifficultyLevelsAreThree()
    ensures |AllDifficultyLevels| == 3
    ensures forall i, j :: 0 <= i < j < |AllDifficultyLevels| ==> AllDifficultyLevels[i] != AllDifficultyLevels[j]
    ensures forall d: DifficultyLevel :: d in AllDifficultyLevels
  {
    forall d: DifficultyLevel ensures d in AllDifficultyLevels {
      match d
      case Easy => assert AllDifficultyLevels[0] == d;
      case Medium => assert AllDifficultyLevels[1] == d;
      case Hard => assert AllDifficultyLevels[2] == d;
    }
  }
}
