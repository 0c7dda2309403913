/**
 * The rules inside `ExerciseListScreen` and `LargeExerciseCard`: the progress
 * summary, the pager arrows, the video auto-complete latch, the edit dialog and
 * the thumbnail lookup. Rendering is not modelled.
 */
module ListScreen {
  import opened Wrappers
  import opened KotlinText
  import opened Entities
  import opened Sequences
  import opened Dao
  import opened Repository
  import opened ViewModel

  // ------------------------------------------------------------ progress summary

  /** The summary's percentage: completed rows times 100 over the list size, at least 1. */
  function ScreenPercentage(list: seq<Exercise>): (p: int)
    ensures 0 <= p <= 100
    ensures list == [] ==> p == 0
    ensures list != [] ==> p * |list| <= Count(list, IsCompletedRow) * 100 < (p + 1) * |list|
  {
    var completed := Count(list, IsCompletedRow);
    CountBound(list, IsCompletedRow);
    var size := if |list| < 1 then 1 else |list|;
    CompletionPercentage(size, completed)
  }

  /**
   * On the list the table emits, the screen shows the same percentage the
   * repository computes from its two counts.
   */
  lemma ScreenAgreesWithRepository(repository: ExerciseRepository)
    ensures ScreenPercentage(repository.dao.GetAllExercises()) == repository.GetCompletionPercentage()
  {
    var rows := repository.dao.exercises;
    CountSortBy(rows, OrderIndexOf, IsCompletedRow);
    CountOfMultiset(rows, IsCompletedRow);
    SortByLength(rows, OrderIndexOf);
  }

  /** The colour band of the percentage box. */
  datatype Band = Green | Amber | Blue | Neutral

  function ProgressBand(p: int): (b: Band)
    ensures b == Green <==> p >= 80
    ensures b == Amber <==> 50 <= p < 80
    ensures b == Blue <==> 0 < p < 50
    ensures b == Neutral <==> p <= 0
  {
    if p >= 80 then Green else if p >= 50 then Amber else if p > 0 then Blue else Neutral
  }

  /** The summary background has no blue band: below 50 it is neutral. */
  function BackgroundBand(p: int): (b: Band)
    ensures b != Blue
    ensures b == Neutral <==> p < 50
  {
    if p >= 80 then Green else if p >= 50 then Amber else Neutral
  }

  function BandRank(b: Band): nat {
    match b
    case Neutral => 0
    case Blue => 1
    case Amber => 2
    case Green => 3
  }

  /** A higher percentage never shows a lower band, in the box or the background. */
  lemma BandsMonotone(p: int, q: int)
    requires p <= q
    ensures BandRank(ProgressBand(p)) <= BandRank(ProgressBand(q))
    ensures BandRank(BackgroundBand(p)) <= BandRank(BackgroundBand(q))
  {
  }

  /** The background agrees with the box except that it shows blue as neutral. */
  lemma BackgroundFollowsBox(p: int)
    ensures BackgroundBand(p) == if ProgressBand(p) == Blue then Neutral else ProgressBand(p)
  {
  }

  // ----------------------------------------------------------------- pager arrows

  /** The 1-based number the page indicator shows for a page. */
  function PageNumber(page: int): int { page + 1 }

  /** The previous arrow: shown on every page but the first, labelled `currentPage`. */
  function PreviousArrow(currentPage: int): (arrow: Option<int>)
    ensures arrow.Some? <==> currentPage > 0
    ensures arrow.Some? ==> arrow.value == PageNumber(currentPage - 1)
  {
    if currentPage > 0 then Some(currentPage) else None
  }

  /** The next arrow: shown on every page but the last, labelled `currentPage + 2`. */
  function NextArrow(currentPage: int, size: int): (arrow: Option<int>)
    ensures arrow.Some? <==> currentPage < size - 1
    ensures arrow.Some? ==> arrow.value == PageNumber(currentPage + 1)
  {
    if currentPage < size - 1 then Some(currentPage + 2) else None
  }

  /**
   * On a page of the pager the arrows name existing pages, and some arrow shows
   * exactly when there is more than one page.
   */
  lemma ArrowsNameExistingPages(currentPage: int, size: int)
    requires 0 <= currentPage < size
    ensures PreviousArrow(currentPage).Some? ==> 1 <= PreviousArrow(currentPage).value <= size
    ensures NextArrow(currentPage, size).Some? ==> 1 <= NextArrow(currentPage, size).value <= size
    ensures PreviousArrow(currentPage).Some? || NextArrow(currentPage, size).Some? <==> size > 1
  {
  }

  // ------------------------------------------------------- video auto-complete

  /** ExoPlayer's `C.TIME_UNSET` (`Long.MIN_VALUE + 1`): the duration before it is known. */
  const TimeUnset: int := -0x7FFF_FFFF_FFFF_FFFF

  /** One poll of the player: position and raw duration in milliseconds. */
  datatype PlayerSample = PlayerSample(position: int, duration: int)

  /** `coerceAtLeast(1L)`. */
  function CoerceAtLeastOne(d: int): (r: int)
    ensures r >= 1 && (d >= 1 ==> r == d)
  {
    if d < 1 then 1 else d
  }

  /**
   * The check as written: the duration is first raised to at least 1, so the
   * `duration > 0` guard always holds.
   */
  function FiresAsWritten(latched: bool, s: PlayerSample): (fire: bool)
    ensures fire <==> !latched && s.position > (if s.duration < 1 then 1 else s.duration) - 500
  {
    var duration := CoerceAtLeastOne(s.duration);
    duration > 0 && s.position > duration - 500 && !latched
  }

  /** The check as intended: a known duration, the position in its last half second, no earlier firing. */
  function Fires(latched: bool, s: PlayerSample): (fire: bool)
    ensures fire ==> !latched && s.duration > 0
  {
    s.duration > 0 && s.position > s.duration - 500 && !latched
  }

  /**
   * The first poll after the player is created, before it knows the duration,
   * already fires as written: the unknown duration becomes 1 and position 0 is
   * past 1 - 500.
   */
  lemma FiresAtStartAsWritten()
    ensures FiresAsWritten(false, PlayerSample(0, TimeUnset))
    ensures !Fires(false, PlayerSample(0, TimeUnset))
  {
  }

  /** Once the duration is known the two checks agree. */
  lemma FiresAgreeOnKnownDuration(latched: bool, s: PlayerSample)
    requires s.duration >= 1
    ensures FiresAsWritten(latched, s) == Fires(latched, s)
  {
  }

  /** How often a run of polls fires, starting from the latch value `latched`. */
  function FiringsOver(latched: bool, samples: seq<PlayerSample>): nat
    decreases |samples|
  {
    if samples == [] then 0
    else
      var fire := Fires(latched, samples[0]);
      (if fire then 1 else 0) + FiringsOver(latched || fire, samples[1..])
  }

  /**
   * Until the latch is reset, a run of polls fires at most once, never when
   * the latch is already set, and from an unset latch exactly when some poll
   * is within the last half second of a known duration.
   */
  lemma {:induction false} FiresAtMostOnce(latched: bool, samples: seq<PlayerSample>)
    ensures FiringsOver(latched, samples) <= 1
    ensures latched ==> FiringsOver(latched, samples) == 0
    ensures !latched ==> (FiringsOver(latched, samples) == 1 <==>
                          exists i :: 0 <= i < |samples| && Fires(false, samples[i]))
    decreases |samples|
  {
    if samples != [] {
      var fire := Fires(latched, samples[0]);
      FiresAtMostOnce(latched || fire, samples[1..]);
      if !latched && !fire {
        forall i | 0 <= i < |samples[1..]| ensures samples[1..][i] == samples[i + 1] {}
        if exists i :: 0 <= i < |samples| && Fires(false, samples[i]) {
          var i :| 0 <= i < |samples| && Fires(false, samples[i]);
          assert i > 0 && Fires(false, samples[1..][i - 1]);
        }
      }
    }
  }

  /** The card's remembered `isCompleted` latch. */
  class CompletionLatch {
    var isCompleted: bool

    constructor ()
      ensures !isCompleted
    {
      isCompleted := false;
    }

    /** One pass of the polling loop: fires and latches on the intended condition. */
    method Poll(sample: PlayerSample) returns (fire: bool)
      modifies this
      ensures fire == Fires(old(isCompleted), sample)
      ensures isCompleted == (old(isCompleted) || fire)
    {
      fire := false;
      if sample.duration > 0 && sample.position > sample.duration - 500 && !isCompleted {
        isCompleted := true;
        fire := true;
      }
    }

    /** The polling loop over a run of polls; returns how often it fired. */
    method PollAll(samples: seq<PlayerSample>) returns (firings: nat)
      modifies this
      ensures firings == FiringsOver(old(isCompleted), samples)
      ensures firings <= 1
      ensures isCompleted == (old(isCompleted) || firings == 1)
    {
      FiresAtMostOnce(isCompleted, samples);
      firings := 0;
      var i := 0;
      while i < |samples|
        invariant 0 <= i <= |samples|
        invariant isCompleted == (old(isCompleted) || firings > 0)
        invariant firings + FiringsOver(isCompleted, samples[i..]) == FiringsOver(old(isCompleted), samples)
      {
        assert samples[i..][1..] == samples[i + 1..];
        var fire := Poll(samples[i]);
        if fire {
          firings := firings + 1;
        }
        i := i + 1;
      }
    }

    /** The visibility effect: leaving the page clears the latch and re-arms auto-complete. */
    method OnVisibility(isVisible: bool)
      modifies this
      ensures isCompleted == (old(isCompleted) && isVisible)
    {
      if !isVisible {
        isCompleted := false;
      }
    }
  }

  // ------------------------------------------------------------------ edit dialog

  /** A number field's `onValueChange`: the new text is taken only if it is empty or all digits. */
  function AcceptDigitsEdit(previous: string, proposed: string): (text: string)
    ensures AllDigits(proposed) ==> text == proposed
    ensures !AllDigits(proposed) ==> text == previous
    ensures AllDigits(previous) ==> AllDigits(text)
  {
    if AllDigits(proposed) || proposed == [] then proposed else previous
  }

  /** Parses a number field, keeping `fallback` when the text does not parse (`toIntOrNull() ?: fallback`). */
  function IntOrElse(text: string, fallback: int): (n: int)
    ensures ParseInt(text).Some? ==> n == ParseInt(text).value
    ensures ParseInt(text).None? ==> n == fallback
  {
    match ParseInt(text)
    case Some(v) => v
    case None => fallback
  }

  /**
   * The confirm button: a blank name keeps the title, a field that does not
   * parse keeps its number, and every other field of the record is kept.
   */
  function ConfirmEdit(e: Exercise, name: string, reps: string, sets: string, duration: string): (r: Exercise)
    ensures r.titleKey == if IsBlank(name) then e.titleKey else name
    ensures r.repetitions == IntOrElse(reps, e.repetitions)
    ensures r.sets == IntOrElse(sets, e.sets)
    ensures r.durationSeconds == IntOrElse(duration, e.durationSeconds)
    ensures r.(titleKey := e.titleKey, repetitions := e.repetitions, sets := e.sets,
               durationSeconds := e.durationSeconds) == e
  {
    e.(titleKey := if IsBlank(name) then e.titleKey else name,
       repetitions := IntOrElse(reps, e.repetitions),
       sets := IntOrElse(sets, e.sets),
       durationSeconds := IntOrElse(duration, e.durationSeconds))
  }

  /** Confirming the dialog as it opens (fields prefilled from the record) writes the record back unchanged. */
  lemma ConfirmUnchangedIsIdentity(e: Exercise)
    requires InIntRange(e.repetitions) && InIntRange(e.sets) && InIntRange(e.durationSeconds)
    ensures ConfirmEdit(e, e.titleKey, IntToString(e.repetitions), IntToString(e.sets),
                        IntToString(e.durationSeconds)) == e
  {
    ParseIntToString(e.repetitions);
    ParseIntToString(e.sets);
    ParseIntToString(e.durationSeconds);
  }

  /** A field emptied in the dialog keeps the record's number. */
  lemma EmptyFieldKeepsValue(e: Exercise, name: string)
    ensures ConfirmEdit(e, name, "", "", "").repetitions == e.repetitions
    ensures ConfirmEdit(e, name, "", "", "").sets == e.sets
    ensures ConfirmEdit(e, name, "", "", "").durationSeconds == e.durationSeconds
  {
  }

  // ------------------------------------------------------------------- thumbnails

  /** The videos that ship with a thumbnail, `exercise_1` to `exercise_13`. */
  const ThumbnailVideos: seq<string> := [
    "exercise_1", "exercise_2", "exercise_3", "exercise_4", "exercise_5",
    "exercise_6", "exercise_7", "exercise_8", "exercise_9", "exercise_10",
    "exercise_11", "exercise_12", "exercise_13"]

  /** The thumbnail lookup: the thumbnail's number, or 0 when the video has none. */
  function ThumbnailIndex(videoFileName: string): (n: nat)
    ensures n <= 13
    ensures n != 0 ==> videoFileName == ThumbnailVideos[n - 1]
  {
    if videoFileName == "exercise_1" then 1
    else if videoFileName == "exercise_2" then 2
    else if videoFileName == "exercise_3" then 3
    else if videoFileName == "exercise_4" then 4
    else if videoFileName == "exercise_5" then 5
    else if videoFileName == "exercise_6" then 6
    else if videoFileName == "exercise_7" then 7
    else if videoFileName == "exercise_8" then 8
    else if videoFileName == "exercise_9" then 9
    else if videoFileName == "exercise_10" then 10
    else if videoFileName == "exercise_11" then 11
    else if videoFileName == "exercise_12" then 12
    else if videoFileName == "exercise_13" then 13
    else 0
  }

  /** The listed videos are `exercise_` followed by the numbers 1 to 13. */
  lemma ThumbnailVideosAreNumbered(n: nat)
    requires 1 <= n <= 13
    ensures ThumbnailVideos[n - 1] == "exercise_" + NatToString(n)
  {
    assert NatToString(10) == "10" && NatToString(11) == "11";
    assert NatToString(12) == "12" && NatToString(13) == "13";
  }

  /** A video has a thumbnail exactly when it is `exercise_n` for some n from 1 to 13, and then thumbnail n. */
  lemma ThumbnailIndexCorrect(videoFileName: string)
    ensures ThumbnailIndex(videoFileName) != 0 <==>
      exists n :: 1 <= n <= 13 && videoFileName == "exercise_" + NatToString(n)
    ensures forall n :: 1 <= n <= 13 && videoFileName == "exercise_" + NatToString(n) ==>
      ThumbnailIndex(videoFileName) == n
  {
    forall n | 1 <= n <= 13 && videoFileName == "exercise_" + NatToString(n)
      ensures ThumbnailIndex(videoFileName) == n
    {
      ThumbnailVideosAreNumbered(n);
    }
    var k := ThumbnailIndex(videoFileName);
    if k != 0 {
      ThumbnailVideosAreNumbered(k);
    }
  }

  /** Every sample exercise has its own thumbnail. */
  lemma SamplesHaveThumbnails(n: nat)
    requires 1 <= n <= SampleCount
    ensures ThumbnailIndex(SampleExercise(n).videoFileName) == n
  {
    ThumbnailIndexCorrect(SampleExercise(n).videoFileName);
  }
}
