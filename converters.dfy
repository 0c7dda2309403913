/**
 * Room's `Converters`: enum columns are stored as the constant's `name`, and read
 * back with `valueOf`, which throws `IllegalArgumentException` on any other text.
 */
module Converters {
  import opened Wrappers
  import opened Entities

  /** What `valueOf` throws: no constant has the given name. */
  datatype ConversionError = IllegalArgument(name: string)

  function FromExerciseCategory(category: ExerciseCategory): (name: string) {
    match category
    case KneeRehabilitation => "KNEE_REHABILITATION"
    case Strength => "STRENGTH"
    case Flexibility => "FLEXIBILITY"
    case Balance => "BALANCE"
    case WarmUp => "WARM_UP"
    case CoolDown => "COOL_DOWN"
  }

  function ToExerciseCategory(name: string): (r: Result<ExerciseCategory, ConversionError>)
    ensures r.Failure? ==> r.error == IllegalArgument(name)
  {
    if name == "KNEE_REHABILITATION" then Success(KneeRehabilitation)
    else if name == "STRENGTH" then Success(Strength)
    else if name == "FLEXIBILITY" then Success(Flexibility)
    else if name == "BALANCE" then Success(Balance)
    else if name == "WARM_UP" then Success(WarmUp)
    else if name == "COOL_DOWN" then Success(CoolDown)
    else Failure(IllegalArgument(name))
  }

  function FromDifficultyLevel(level: DifficultyLevel): (name: string) {
    match level
    case Easy => "EASY"
    case Medium => "MEDIUM"
    case Hard => "HARD"
  }

  function ToDifficultyLevel(name: string): (r: Result<DifficultyLevel, ConversionError>)
    ensures r.Failure? ==> r.error == IllegalArgument(name)
  {
    if name == "EASY" then Success(Easy)
    else if name == "MEDIUM" then Success(Medium)
    else if name == "HARD" then Success(Hard)
    else Failure(IllegalArgument(name))
  }

  /** Writing a category and reading it back gives the same category. */
  lemma CategoryRoundTrip(c: ExerciseCategory)
    ensures ToExerciseCategory(FromExerciseCategory(c)) == Success(c)
  {
  }

  /** Reading succeeds exactly on the six names, and writing gives the text back. */
  lemma CategoryNamesRoundTrip(name: string)
    ensures ToExerciseCategory(name).Success? <==> exists c :: FromExerciseCategory(c) == name
    ensures ToExerciseCategory(name).Success? ==> FromExerciseCategory(ToExerciseCategory(name).value) == name
  {
    var r := ToExerciseCategory(name);
    if r.Failure? {
      forall c ensures FromExerciseCategory(c) != name {
        CategoryRoundTrip(c);
      }
    } else {
      assert FromExerciseCategory(r.value) == name;
    }
  }

  /** Distinct categories are stored as distinct strings. */
  lemma CategoryNamesDistinct(c1: ExerciseCategory, c2: ExerciseCategory)
    ensures FromExerciseCategory(c1) == FromExerciseCategory(c2) ==> c1 == c2
  {
    CategoryRoundTrip(c1);
    CategoryRoundTrip(c2);
  }

  lemma DifficultyRoundTrip(d: DifficultyLevel)
    ensures ToDifficultyLevel(FromDifficultyLevel(d)) == Success(d)
  {
  }

  lemma DifficultyNamesRoundTrip(name: string)
    ensures ToDifficultyLevel(name).Success? <==> exists d :: FromDifficultyLevel(d) == name
    ensures ToDifficultyLevel(name).Success? ==> FromDifficultyLevel(ToDifficultyLevel(name).value) == name
  {
    var r := ToDifficultyLevel(name);
    if r.Failure? {
      forall d ensures FromDifficultyLevel(d) != name {
        DifficultyRoundTrip(d);
      }
    } else {
      assert FromDifficultyLevel(r.value) == name;
    }
  }

  lemma DifficultyNamesDistinct(d1: DifficultyLevel, d2: DifficultyLevel)
    ensures FromDifficultyLevel(d1) == FromDifficultyLevel(d2) ==> d1 == d2
  {
    DifficultyRoundTrip(d1);
    DifficultyRoundTrip(d2);
  }
}
