/**
 * `AddExerciseScreen`: the form state, its digit-only number fields, the
 * save-enabled condition and the record the save button builds.
 */
module AddScreen {
  import opened Wrappers
  import opened KotlinText
  import opened Entities
  import ListScreen

  // ----------------------------------------------------------- digit filter

  /** A number field's `onValueChange`: `filter { it.isDigit() }`. */
  function DigitsOnly(s: string): (r: string)
    ensures AllDigits(r)
    ensures |r| <= |s|
    decreases |s|
  {
    if s == [] then []
    else
      var rest := DigitsOnly(s[..|s| - 1]);
      if IsDigit(s[|s| - 1]) then rest + [s[|s| - 1]] else rest
  }

  /** The filter works character by character: it keeps a digit and drops anything else. */
  lemma DigitsOnlySingle(c: char)
    ensures DigitsOnly([c]) == if IsDigit(c) then [c] else []
  {
  }

  /** Filtering two pieces and joining them is filtering the whole: the digits keep their order. */
  lemma {:induction false} DigitsOnlyAppend(a: string, b: string)
    ensures DigitsOnly(a + b) == DigitsOnly(a) + DigitsOnly(b)
    decreases |b|
  {
    if b == [] {
      assert a + b == a;
    } else {
      var b' := b[..|b| - 1];
      assert (a + b)[..|a + b| - 1] == a + b';
      DigitsOnlyAppend(a, b');
    }
  }

  /** Text that is already digits passes unchanged. */
  lemma {:induction false} DigitsOnlyOfDigits(s: string)
    requires AllDigits(s)
    ensures DigitsOnly(s) == s
    decreases |s|
  {
    if s != [] {
      DigitsOnlyOfDigits(s[..|s| - 1]);
      assert s[..|s| - 1] + [s[|s| - 1]] == s;
    }
  }

  /** Filtering twice is filtering once. */
  lemma DigitsOnlyIdempotent(s: string)
    ensures DigitsOnly(DigitsOnly(s)) == DigitsOnly(s)
  {
    DigitsOnlyOfDigits(DigitsOnly(s));
  }

  // -------------------------------------------------------------------- the form

  /** The five cards of the video dialog. */
  datatype VideoCard = KneeBend | LegRaise | HeelSlide | QuadSets | AnklePumps

  function VideoId(card: VideoCard): string {
    match card
    case KneeBend => "knee_bend"
    case LegRaise => "leg_raise"
    case HeelSlide => "heel_slide"
    case QuadSets => "quad_sets"
    case AnklePumps => "ankle_pumps"
  }

  datatype AddForm = AddForm(
    name: string,
    description: string,
    instructions: string,
    duration: string,
    repetitions: string,
    sets: string,
    difficulty: DifficultyLevel,
    category: ExerciseCategory,
    video: Option<string>)

  /** The form as the screen opens. */
  const InitialForm: AddForm :=
    AddForm("", "", "", "30", "10", "3", Easy, KneeRehabilitation, None)

  /** What the user can do on the screen. No control writes the category. */
  datatype FormEdit =
    | TypeName(text: string)
    | TypeDescription(text: string)
    | TypeInstructions(text: string)
    | TypeDuration(text: string)
    | TypeRepetitions(text: string)
    | TypeSets(text: string)
    | ChooseDifficulty(level: DifficultyLevel)
    | ChooseVideo(card: VideoCard)
    | ChooseNoVideo

  function ApplyEdit(form: AddForm, edit: FormEdit): AddForm {
    match edit
    case TypeName(text) => form.(name := text)
    case TypeDescription(text) => form.(description := text)
    case TypeInstructions(text) => form.(instructions := text)
    case TypeDuration(text) => form.(duration := DigitsOnly(text))
    case TypeRepetitions(text) => form.(repetitions := DigitsOnly(text))
    case TypeSets(text) => form.(sets := DigitsOnly(text))
    case ChooseDifficulty(level) => form.(difficulty := level)
    case ChooseVideo(card) => form.(video := Some(VideoId(card)))
    case ChooseNoVideo => form.(video := None)
  }

  function ApplyEdits(form: AddForm, edits: seq<FormEdit>): AddForm
    decreases |edits|
  {
    if edits == [] then form else ApplyEdit(ApplyEdits(form, edits[..|edits| - 1]), edits[|edits| - 1])
  }

  /** What every form the user can reach satisfies. */
  predicate Reachable(form: AddForm) {
    && form.category == KneeRehabilitation
    && AllDigits(form.duration) && AllDigits(form.repetitions) && AllDigits(form.sets)
    && (form.video.Some? ==> exists card :: form.video.value == VideoId(card))
  }

  /**
   * Whatever the user does, the category stays knee rehabilitation, the number
   * fields hold digits only and the video is one the dialog offers.
   */
  lemma {:induction false} EditsStayReachable(edits: seq<FormEdit>)
    ensures Reachable(ApplyEdits(InitialForm, edits))
    decreases |edits|
  {
    if edits == [] {
      assert AllDigits("30") && AllDigits("10") && AllDigits("3");
    } else {
      EditsStayReachable(edits[..|edits| - 1]);
      var form := ApplyEdits(InitialForm, edits[..|edits| - 1]);
      match edits[|edits| - 1]
      case ChooseVideo(card) =>
        assert ApplyEdit(form, ChooseVideo(card)).video.value == VideoId(card);
      case _ =>
    }
  }

  // ----------------------------------------------------------------------- saving

  /** The save button is enabled when the name is not blank. */
  predicate SaveEnabled(form: AddForm) {
    !IsBlank(form.name)
  }

  /** `ifEmpty`: the fallback for an empty text. */
  function IfEmpty(s: string, fallback: string): (r: string)
    ensures s != [] ==> r == s
    ensures s == [] ==> r == fallback
  {
    if s == [] then fallback else s
  }

  /**
   * The record the save button builds: a new key, no thumbnail, placed last
   * (`orderIndex` 999), empty texts and missing numbers replaced by defaults.
   */
  function BuildExercise(form: AddForm): (e: Exercise)
    ensures e.id == 0 && e.orderIndex == 999 && e.thumbnailFileName == None
    ensures !e.isCompleted && e.lastCompletedDate == None && e.completionCount == 0
    ensures !e.isFavorite && e.equipmentNeeded == None && e.precautions == None
    ensures e.titleKey == IfEmpty(form.name, "New Exercise")
    ensures e.descriptionKey == form.description
    ensures e.instructionsKey == IfEmpty(form.instructions, "Follow the instructions")
    ensures e.videoFileName == (if form.video.Some? then form.video.value else "placeholder")
    ensures e.category == form.category && e.difficultyLevel == form.difficulty
    ensures e.durationSeconds == ListScreen.IntOrElse(form.duration, 30)
    ensures e.repetitions == ListScreen.IntOrElse(form.repetitions, 10)
    ensures e.sets == ListScreen.IntOrElse(form.sets, 3)
  {
    NewExercise(
      IfEmpty(form.name, "New Exercise"),
      IfEmpty(form.description, ""),
      IfEmpty(form.instructions, "Follow the instructions"),
      match form.video case Some(v) => v case None => "placeholder",
      None,
      form.category,
      form.difficulty,
      ListScreen.IntOrElse(form.duration, 30),
      ListScreen.IntOrElse(form.repetitions, 10),
      ListScreen.IntOrElse(form.sets, 3)
    ).(orderIndex := 999)
  }

  /** A name that enables saving is never blank, so it is stored as typed. */
  lemma SavedNameIsTyped(form: AddForm)
    requires SaveEnabled(form)
    ensures BuildExercise(form).titleKey == form.name
  {
  }

  /** A digit-only field gives its value when it fits an `Int`, and the default otherwise. */
  lemma DigitFieldValue(text: string, fallback: int)
    requires AllDigits(text)
    ensures ListScreen.IntOrElse(text, fallback)
            == if text != [] && DigitsValue(text) <= IntMax then DigitsValue(text) else fallback
  {
    ParseIntOfDigits(text);
  }

  /**
   * Every exercise saved from a reachable form is a knee exercise, its numbers
   * are never negative (the defaults are used for empty or oversized fields),
   * and its video has no thumbnail in the list.
   */
  lemma SavedFromReachableForm(form: AddForm)
    requires Reachable(form)
    ensures var e := BuildExercise(form);
      && e.category == KneeRehabilitation
      && 0 <= e.durationSeconds && 0 <= e.repetitions && 0 <= e.sets
      && ListScreen.ThumbnailIndex(e.videoFileName) == 0
  {
    DigitFieldValue(form.duration, 30);
    DigitFieldValue(form.repetitions, 10);
    DigitFieldValue(form.sets, 3);
    if form.video.Some? {
      var card :| form.video.value == VideoId(card);
      match card
      case KneeBend =>
      case LegRaise =>
      case HeelSlide =>
      case QuadSets =>
      case AnklePumps =>
    }
  }

  /** Saving the untouched form is refused; with a name, it builds the default record. */
  lemma SaveUntouchedForm(name: string)
    requires !IsBlank(name)
    ensures !SaveEnabled(InitialForm)
    ensures var e := BuildExercise(InitialForm.(name := name));
      && e.titleKey == name && e.descriptionKey == "" && e.instructionsKey == "Follow the instructions"
      && e.videoFileName == "placeholder" && e.durationSeconds == 30 && e.repetitions == 10 && e.sets == 3
  {
    DigitFieldValue("30", 30);
    DigitFieldValue("10", 10);
    DigitFieldValue("3", 3);
  }
}
