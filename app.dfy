/**
 * The Brevis IQ quiz session: the state of the single-page app (the screen
 * shown, the sampled quiz, the recorded answers and time bonuses, the
 * countdown, and the share-card inputs) and the event handlers that change
 * it. Every handler runs to completion before the next event.
 */
module App {
  import opened Wrappers
  import opened JsText
  import opened Sampler
  import opened Scoring
  import opened Avatar

  /** Screens: home, learn, quiz, result. */
  const Home := 0
  const Learn := 1
  const Quizzing := 2
  const Result := 3

  /** Seconds per question. */
  const QuestionTime := 20
  /** Questions drawn from the bank for one quiz. */
  const QuizLength := 10

  /** `Math.max(0, Math.min(TIME_BONUS_MAX, timeLeft))`: the time bonus for an answer given with `t` seconds left. */
  function ClampBonus(t: int): (b: int)
    ensures 0 <= b <= TimeBonusMax
    ensures 0 <= t <= TimeBonusMax ==> b == t
    ensures t < 0 ==> b == 0
    ensures t > TimeBonusMax ==> b == TimeBonusMax
  {
    if t < 0 then 0 else if t > TimeBonusMax then TimeBonusMax else t
  }

  /** `Array(n).fill(v)` */
  function Fill<T>(n: nat, v: T): (r: seq<T>)
    ensures |r| == n && forall i :: 0 <= i < n ==> r[i] == v
  {
    seq(n, _ => v)
  }

  class BrevisIqApp {
    var step: nat
    var handle: string
    var displayName: string
    var avatarIdx: nat
    var avatarOverride: Option<ImageSrc>
    var quiz: seq<QuizItem>
    var current: nat
    var selections: seq<Option<nat>>
    var timeLeft: int
    var started: bool
    /** `timeBonusesRef.current` */
    var timeBonuses: seq<int>

    /** How many questions of the quiz have been answered or timed out. */
    function Resolved(): nat
      reads this
    {
      if step == Result then |quiz| else if step == Quizzing then current else 0
    }

    /** The questions from index k on have no answer and no bonus recorded. */
    predicate UnresolvedFrom(k: nat)
      reads this
      requires |selections| == |quiz| == |timeBonuses|
    {
      forall i :: k <= i < |quiz| ==> selections[i] == None && timeBonuses[i] == 0
    }

    /** The state invariant, apart from which questions are still open. */
    predicate Shape()
      reads this
    {
      && step <= Result
      && (started <==> step == Quizzing)
      && |selections| == |quiz| == |timeBonuses|
      && (step <= Learn ==> quiz == [])
      && (if quiz == [] then current == 0 else current < |quiz|)
      && 0 <= timeLeft <= QuestionTime
      && BonusesInRange(timeBonuses)
      && BonusOnlyIfCorrect(quiz, selections, timeBonuses)
      && (avatarIdx == 0 || avatarIdx < CandidateCount(handle))
    }

    /**
     * The state invariant: every question before the current one (all of
     * them on the result screen) has been resolved once, and none after it.
     */
    predicate Valid()
      reads this
    {
      Shape() && UnresolvedFrom(Resolved())
    }

    constructor()
      ensures Valid()
      ensures step == Home && handle == "" && displayName == "" && avatarIdx == 0 && avatarOverride == None
      ensures quiz == [] && current == 0 && selections == [] && timeLeft == QuestionTime && !started && timeBonuses == []
    {
      step, handle, displayName, avatarIdx, avatarOverride := Home, "", "", 0, None;
      quiz, current, selections, timeLeft, started, timeBonuses := [], 0, [], QuestionTime, false, [];
    }

    /** The "Learn" button of the home screen. */
    method GoLearn()
      requires Valid() && step == Home
      modifies this
      ensures Valid() && step == Learn
      ensures unchanged(this`handle, this`displayName, this`avatarIdx, this`avatarOverride)
      ensures unchanged(this`quiz, this`current, this`selections, this`timeLeft, this`started, this`timeBonuses)
    {
      step := Learn;
    }

    /**
     * `startQuiz`: draws the quiz from the bank (the draws stand for
     * `Math.random`), opens every question, and starts the countdown of the
     * first one.
     */
    method StartQuiz(bank: seq<QuizItem>, draws: seq<nat>)
      requires Valid() && ValidDraws(draws, |bank|)
      modifies this
      ensures Valid()
      ensures quiz == Sample(bank, QuizLength, draws)
      ensures selections == Fill(|quiz|, None) && timeBonuses == Fill(|quiz|, 0)
      ensures current == 0 && timeLeft == QuestionTime && started && step == Quizzing
      ensures unchanged(this`handle, this`displayName, this`avatarIdx, this`avatarOverride)
    {
      var picked := SampleQuestions(bank, QuizLength, draws);
      quiz := picked;
      selections := Fill(|picked|, None);
      timeBonuses := Fill(|picked|, 0);
      current, timeLeft, started, step := 0, QuestionTime, true, Quizzing;
    }

    /**
     * `onNext`: moves to the next question with a fresh countdown, or, after
     * the last one, stops the quiz and shows the result.
     */
    method OnNext()
      requires Shape() && step == Quizzing && UnresolvedFrom(current + 1)
      modifies this
      ensures Valid()
      ensures old(current) + 1 < |quiz| ==> current == old(current) + 1 && timeLeft == QuestionTime && started && step == Quizzing
      ensures old(current) + 1 >= |quiz| ==> current == old(current) && timeLeft == old(timeLeft) && !started && step == Result
      ensures old(current) + 1 >= |quiz| && quiz != [] ==> current == |quiz| - 1
      ensures Resolved() == old(current) + 1 || (quiz == [] && Resolved() == 0)
      ensures unchanged(this`quiz, this`selections, this`timeBonuses)
      ensures unchanged(this`handle, this`displayName, this`avatarIdx, this`avatarOverride)
    {
      var next := current + 1;
      if next >= |quiz| {
        started := false;
        step := Result;
        return;
      }
      current := next;
      timeLeft := QuestionTime;
    }

    /**
     * `onSelect(choiceIdx)`: records the choice for the current question and,
     * when it is correct, the clamped remaining time as its bonus; then
     * moves on. Exactly one more question is resolved.
     */
    method OnSelect(choiceIdx: nat)
      requires Valid() && step == Quizzing && |quiz| > 0
      modifies this
      ensures Valid()
      ensures selections == old(selections)[old(current) := Some(choiceIdx)]
      ensures timeBonuses == if choiceIdx == old(quiz[current]).answerIndex
        then old(timeBonuses)[old(current) := ClampBonus(old(timeLeft))]
        else old(timeBonuses)
      ensures Resolved() == old(Resolved()) + 1
      ensures old(current) + 1 < |quiz| ==> current == old(current) + 1 && timeLeft == QuestionTime && step == Quizzing
      ensures old(current) + 1 >= |quiz| ==> current == old(current) && timeLeft == old(timeLeft) && !started && step == Result
      ensures unchanged(this`quiz, this`handle, this`displayName, this`avatarIdx, this`avatarOverride)
    {
      selections := selections[current := Some(choiceIdx)];
      var q := quiz[current];
      if choiceIdx == q.answerIndex {
        timeBonuses := timeBonuses[current := ClampBonus(timeLeft)];
      }
      OnNext();
    }

    /**
     * One run of the timer effect while a quiz is running: a second passes,
     * or, at zero, the question times out unanswered and the quiz moves on.
     * On other screens it does nothing.
     */
    method Tick()
      requires Valid()
      modifies this
      ensures Valid()
      ensures !(old(step) == Quizzing && old(started)) ==> unchanged(this)
      ensures old(step) == Quizzing && old(started) && old(timeLeft) > 0 ==>
        timeLeft == old(timeLeft) - 1 && unchanged(this`step, this`current, this`started)
      ensures old(step) == Quizzing && old(started) && old(timeLeft) <= 0 ==>
        Resolved() == old(Resolved()) + 1 || (quiz == [] && step == Result)
      ensures old(step) == Quizzing && old(started) && old(timeLeft) <= 0 && 0 < |quiz| ==>
        selections[old(current)] == None && timeBonuses[old(current)] == 0
      ensures old(step) == Quizzing && old(started) && old(timeLeft) <= 0 ==>
        if old(current) + 1 < |quiz| then current == old(current) + 1 && timeLeft == QuestionTime && started && step == Quizzing
        else current == old(current) && timeLeft == old(timeLeft) && !started && step == Result
      ensures unchanged(this`quiz, this`selections, this`timeBonuses)
      ensures unchanged(this`handle, this`displayName, this`avatarIdx, this`avatarOverride)
    {
      if step != Quizzing || !started {
        return;
      }
      if timeLeft <= 0 {
        OnNext();
        return;
      }
      timeLeft := timeLeft - 1;
    }

    /**
     * `resetAll` ("Restart"): back to the home screen with no quiz and no
     * card inputs. Clearing a handle also restarts the avatar chain; the
     * avatar override is not touched.
     */
    method ResetAll()
      requires Valid()
      modifies this
      ensures Valid()
      ensures step == Home && handle == "" && displayName == ""
      ensures quiz == [] && selections == [] && timeBonuses == [] && current == 0 && timeLeft == QuestionTime && !started
      ensures avatarIdx == if old(handle) != "" then 0 else old(avatarIdx)
      ensures unchanged(this`avatarOverride)
    {
      if handle != "" {
        avatarIdx := 0;
      }
      step, handle, displayName := Home, "", "";
      quiz, selections, timeBonuses := [], [], [];
      current, timeLeft, started := 0, QuestionTime, false;
    }

    /** The handle input: the typed text is trimmed; a different handle restarts the avatar chain. */
    method SetHandle(value: string)
      requires Valid()
      modifies this
      ensures Valid()
      ensures handle == Trim(value)
      ensures avatarIdx == if handle != old(handle) then 0 else old(avatarIdx)
      ensures unchanged(this`step, this`displayName, this`avatarOverride)
      ensures unchanged(this`quiz, this`current, this`selections, this`timeLeft, this`started, this`timeBonuses)
    {
      var trimmed := Trim(value);
      TrimIdempotent(value);
      if trimmed != handle {
        avatarIdx := 0;
      }
      handle := trimmed;
    }

    /** The display-name input, taken as typed. */
    method SetDisplayName(value: string)
      requires Valid()
      modifies this
      ensures Valid()
      ensures displayName == value
      ensures unchanged(this`step, this`handle, this`avatarIdx, this`avatarOverride)
      ensures unchanged(this`quiz, this`current, this`selections, this`timeLeft, this`started, this`timeBonuses)
    {
      displayName := value;
    }

    /** `displayAvatarSrc`: the candidate the screen currently tries, or the ghost picture without a handle. */
    function DisplayAvatarSrc(): (src: string)
      reads this
      requires Valid()
      ensures src == if handle == "" then GhostUrl else Candidates(handle)[avatarIdx]
    {
      CandidatesShape(handle);
      DisplaySrcOfCandidates(handle, avatarIdx);
      DisplaySrc(Candidates(handle), avatarIdx)
    }

    /** `exportAvatarSrc`: the image the card shows, the override when there is one. */
    function CardAvatar(): (img: ImageSrc)
      reads this
      requires Valid()
      ensures avatarOverride.None? ==> img == Url(DisplayAvatarSrc())
      ensures avatarOverride.Some? && avatarOverride.value.InitialsOf? ==> img == avatarOverride.value
    {
      ExportSrc(avatarOverride, DisplayAvatarSrc())
    }

    /**
     * The avatar image's `onError`: try the next candidate while there is
     * one; after the last (or with no handle) show the initials image.
     */
    method OnAvatarError()
      requires Valid()
      modifies this
      ensures Valid()
      ensures old(avatarIdx) + 1 < CandidateCount(handle) ==>
        avatarIdx == old(avatarIdx) + 1 && avatarOverride == old(avatarOverride)
      ensures old(avatarIdx) + 1 >= CandidateCount(handle) ==>
        avatarIdx == old(avatarIdx) && avatarOverride == Some(InitialsOf(NameOnCard(displayName, handle)))
      ensures unchanged(this`step, this`handle, this`displayName)
      ensures unchanged(this`quiz, this`current, this`selections, this`timeLeft, this`started, this`timeBonuses)
    {
      if avatarIdx < CandidateCount(handle) - 1 {
        avatarIdx := avatarIdx + 1;
      } else {
        avatarOverride := Some(InitialsOf(NameOnCard(displayName, handle)));
      }
    }

    /**
     * `handleDownload`, with the network and the snapshot as parameters:
     * `fetched` is the data URL the fetch of `requested` produced (None when
     * it failed), `snapshotOk` whether the PNG could be made. Returns the
     * URL fetched, the avatar the snapshot shows and the downloaded file's
     * name; without the card on screen it does nothing. The override is
     * cleared afterwards whatever happened.
     */
    method HandleDownload(fetched: Option<string>, snapshotOk: bool)
      returns (requested: Option<string>, exported: Option<ImageSrc>, download: Option<string>)
      requires Valid()
      modifies this
      ensures Valid()
      ensures old(step) != Result ==> requested == None && exported == None && download == None && unchanged(this)
      ensures old(step) == Result ==> avatarOverride == None
      ensures old(step) == Result ==>
        requested == Some(if handle == "" then GhostUrl else XPrefix + EncodeUriComponent(handle))
      ensures old(step) == Result && fetched.Some? && fetched.value != "" ==> exported == Some(Url(fetched.value))
      ensures old(step) == Result && fetched.None? ==>
        exported == Some(InitialsOf(NameOnCard(displayName, handle)))
      ensures old(step) == Result ==> download == if snapshotOk then Some(DownloadName(handle)) else None
      ensures unchanged(this`step, this`handle, this`displayName, this`avatarIdx)
      ensures unchanged(this`quiz, this`current, this`selections, this`timeLeft, this`started, this`timeBonuses)
    {
      requested, exported, download := None, None, None;
      if step != Result {
        return;
      }
      var candidates := Candidates(handle);
      var display := DisplaySrc(candidates, avatarIdx);
      var remoteUrl := ExportFetchUrl(candidates, display);
      assert remoteUrl == if handle == "" then GhostUrl else XPrefix + EncodeUriComponent(handle) by {
        CandidatesShape(handle);
        ExportFetchUrlOfHandle(handle, avatarIdx);
      }
      requested := Some(remoteUrl);
      match fetched {
        case Some(dataUrl) => avatarOverride := Some(Url(dataUrl));
        case None => avatarOverride := Some(InitialsOf(NameOnCard(displayName, handle)));
      }
      exported := Some(ExportSrc(avatarOverride, display));
      if snapshotOk {
        download := Some(DownloadName(handle));
      }
      avatarOverride := None;
    }

    /** `computedScore`: the loop over the recorded selections. */
    method ComputedScore() returns (total: int)
      ensures total == Score(quiz, selections, timeBonuses)
      ensures Valid() ==> 0 <= total <= MaxScore(|quiz|)
    {
      total := 0;
      var i := 0;
      while i < |selections|
        invariant 0 <= i <= |selections|
        invariant total == ScoreOf(quiz, selections, timeBonuses, i)
      {
        if i < |quiz| {
          var sel := selections[i];
          var q := quiz[i];
          if sel == Some(q.answerIndex) {
            total := total + BasePoints + Bonus(timeBonuses, i);
          }
        }
        i := i + 1;
      }
      if Valid() {
        ScoreBounds(quiz, selections, timeBonuses);
      }
    }

    /** The figures on the share card: score, maximum, IQ, and the badge with its text. */
    method CardFigures() returns (score: int, maxScore: nat, iq: int, badge: Badge, badgeText: string)
      ensures score == Score(quiz, selections, timeBonuses) && maxScore == MaxScore(|quiz|)
      ensures iq == Iq(score, maxScore) && badge == BadgeOf(score, maxScore) && badgeText == Label(badge)
      ensures Valid() && quiz != [] ==> 80 <= iq <= 140
      ensures quiz == [] ==> iq == 80
      ensures Valid() && badge == Chad && quiz != [] ==> iq >= 128
      ensures Valid() && badge == Noob ==> iq <= 110
    {
      score := ComputedScore();
      maxScore := MaxScore(|quiz|);
      iq := Iq(score, maxScore);
      badge := BadgeOf(score, maxScore);
      badgeText := Label(badge);
      if Valid() && quiz != [] {
        IqBounds(score, maxScore);
        BadgeAgreesWithIq(score, maxScore);
      }
    }
  }
}
