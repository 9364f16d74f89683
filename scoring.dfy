/**
 * Scoring of a finished (or running) quiz: every correct answer earns the
 * base points plus the time bonus recorded for it; the maximum is 30 points
 * per question; the "IQ" maps the score ratio onto [80, 140]; the badge
 * tiers are at 80% and 50% of the maximum.
 */
module Scoring {
  import opened Wrappers

  const BasePoints := 10
  const TimeBonusMax := 20
  const PerQuestionMax := BasePoints + TimeBonusMax

  /** One entry of the question bank: a prompt, its choices and the index of the correct choice. */
  datatype QuizItem = QuizItem(q: string, choices: seq<string>, answerIndex: nat)

  /** The recorded choice for question i is its correct choice (`sel === q.answerIndex`; a missing question never counts). */
  predicate Correct(quiz: seq<QuizItem>, selections: seq<Option<nat>>, i: nat)
  {
    i < |quiz| && i < |selections| && selections[i] == Some(quiz[i].answerIndex)
  }

  /** `timeBonusesRef.current[i] || 0` */
  function Bonus(bonuses: seq<int>, i: nat): int
  {
    if i < |bonuses| then bonuses[i] else 0
  }

  /** What question i contributes to the score. */
  function Points(quiz: seq<QuizItem>, selections: seq<Option<nat>>, bonuses: seq<int>, i: nat): int
  {
    if Correct(quiz, selections, i) then BasePoints + Bonus(bonuses, i) else 0
  }

  /** The score of the first n selections. */
  function ScoreOf(quiz: seq<QuizItem>, selections: seq<Option<nat>>, bonuses: seq<int>, n: nat): int
    requires n <= |selections|
  {
    if n == 0 then 0 else ScoreOf(quiz, selections, bonuses, n - 1) + Points(quiz, selections, bonuses, n - 1)
  }

  /** The score over all selections: what `computedScore` computes. */
  function Score(quiz: seq<QuizItem>, selections: seq<Option<nat>>, bonuses: seq<int>): int
  {
    ScoreOf(quiz, selections, bonuses, |selections|)
  }

  /** `maxScore`: 30 points per question. */
  function MaxScore(questions: nat): nat
  {
    questions * PerQuestionMax
  }

  predicate BonusesInRange(bonuses: seq<int>)
  {
    forall i :: 0 <= i < |bonuses| ==> 0 <= bonuses[i] <= TimeBonusMax
  }

  lemma {:induction false} ScoreOfBounds(quiz: seq<QuizItem>, selections: seq<Option<nat>>, bonuses: seq<int>, n: nat)
    requires n <= |selections| && BonusesInRange(bonuses)
    ensures 0 <= ScoreOf(quiz, selections, bonuses, n) <= PerQuestionMax * n
  {
    if n > 0 {
      ScoreOfBounds(quiz, selections, bonuses, n - 1);
    }
  }

  /** With every bonus in [0, 20], the score lies between 0 and the maximum score. */
  lemma ScoreBounds(quiz: seq<QuizItem>, selections: seq<Option<nat>>, bonuses: seq<int>)
    requires |selections| <= |quiz| && BonusesInRange(bonuses)
    ensures 0 <= Score(quiz, selections, bonuses) <= MaxScore(|quiz|)
  {
    ScoreOfBounds(quiz, selections, bonuses, |selections|);
  }

  /** Question i earns its maximum: a correct answer with the whole time bonus. */
  predicate Perfect(quiz: seq<QuizItem>, selections: seq<Option<nat>>, bonuses: seq<int>, i: nat)
  {
    Correct(quiz, selections, i) && Bonus(bonuses, i) == TimeBonusMax
  }

  lemma {:induction false} ScoreOfIsMax(quiz: seq<QuizItem>, selections: seq<Option<nat>>, bonuses: seq<int>, n: nat)
    requires n <= |selections| && BonusesInRange(bonuses)
    ensures ScoreOf(quiz, selections, bonuses, n) == PerQuestionMax * n
        <==> forall i :: 0 <= i < n ==> Perfect(quiz, selections, bonuses, i)
  {
    if n > 0 {
      ScoreOfIsMax(quiz, selections, bonuses, n - 1);
      ScoreOfBounds(quiz, selections, bonuses, n - 1);
      var p := Points(quiz, selections, bonuses, n - 1);
      assert p <= PerQuestionMax;
      assert p == PerQuestionMax <==> Perfect(quiz, selections, bonuses, n - 1);
    }
  }

  /** The score reaches the maximum exactly when every question was answered correctly with 20 seconds left. */
  lemma ScoreIsMaxIff(quiz: seq<QuizItem>, selections: seq<Option<nat>>, bonuses: seq<int>)
    requires |selections| == |quiz| && BonusesInRange(bonuses)
    ensures Score(quiz, selections, bonuses) == MaxScore(|quiz|)
        <==> forall i :: 0 <= i < |quiz| ==> Perfect(quiz, selections, bonuses, i)
  {
    ScoreOfIsMax(quiz, selections, bonuses, |selections|);
  }

  /** How many of the first n questions were answered correctly. */
  function CorrectCount(quiz: seq<QuizItem>, selections: seq<Option<nat>>, n: nat): nat
  {
    if n == 0 then 0 else CorrectCount(quiz, selections, n - 1) + (if Correct(quiz, selections, n - 1) then 1 else 0)
  }

  /** The sum of the first n recorded bonuses. */
  function BonusSum(bonuses: seq<int>, n: nat): int
  {
    if n == 0 then 0 else BonusSum(bonuses, n - 1) + Bonus(bonuses, n - 1)
  }

  /** Bonuses are recorded only for correctly answered questions. */
  predicate BonusOnlyIfCorrect(quiz: seq<QuizItem>, selections: seq<Option<nat>>, bonuses: seq<int>)
  {
    forall i :: 0 <= i < |bonuses| && bonuses[i] != 0 ==> Correct(quiz, selections, i)
  }

  lemma {:induction false} ScoreOfDecomposes(quiz: seq<QuizItem>, selections: seq<Option<nat>>, bonuses: seq<int>, n: nat)
    requires n <= |selections| && BonusOnlyIfCorrect(quiz, selections, bonuses)
    ensures ScoreOf(quiz, selections, bonuses, n) == BasePoints * CorrectCount(quiz, selections, n) + BonusSum(bonuses, n)
  {
    if n > 0 {
      ScoreOfDecomposes(quiz, selections, bonuses, n - 1);
    }
  }

  /**
   * When bonuses are stored for correct answers only, the score is 10 points
   * per correct answer plus the sum of all bonuses.
   */
  lemma ScoreDecomposes(quiz: seq<QuizItem>, selections: seq<Option<nat>>, bonuses: seq<int>)
    requires BonusOnlyIfCorrect(quiz, selections, bonuses)
    ensures Score(quiz, selections, bonuses)
         == BasePoints * CorrectCount(quiz, selections, |selections|) + BonusSum(bonuses, |selections|)
  {
    ScoreOfDecomposes(quiz, selections, bonuses, |selections|);
  }

  /**
   * `iq`: 80 when there is nothing to score, otherwise
   * 80 + Math.round(score / maxScore * 60), written in integers as
   * 80 + floor((120 * score + maxScore) / (2 * maxScore)).
   * The rounded value q is the integer with q - 1/2 <= 60 * score / maxScore < q + 1/2.
   */
  function Iq(score: int, maxScore: int): (iq: int)
    ensures maxScore <= 0 ==> iq == 80
    ensures maxScore > 0 ==>
      2 * maxScore * (iq - 80) - maxScore <= 120 * score < 2 * maxScore * (iq - 80) + maxScore
  {
    if maxScore <= 0 then 80 else 80 + (120 * score + maxScore) / (2 * maxScore)
  }

  /** Multiplying by a positive number keeps the order. */
  lemma MulMonotone(d: int, a: int, b: int)
    requires d > 0 && a <= b
    ensures d * a <= d * b
  {
    assert d * b - d * a == d * (b - a);
  }

  /** 60 * score / maxScore rounds to at least `lo` when it is at least lo - 1/2, and to at most `hi` when below hi + 1/2. */
  lemma IqBetween(score: int, maxScore: int, lo: int, hi: int)
    requires maxScore > 0
    requires 2 * maxScore * lo - maxScore <= 120 * score < 2 * maxScore * hi + maxScore
    ensures lo <= Iq(score, maxScore) - 80 <= hi
  {
    var d := 2 * maxScore;
    var q := Iq(score, maxScore) - 80;
    assert d * q - maxScore <= 120 * score < d * q + maxScore;
    if q < lo {
      MulMonotone(d, q, lo - 1);
    }
    if q > hi {
      MulMonotone(d, hi + 1, q);
    }
  }

  /** For a score between 0 and the maximum, the IQ lies in [80, 140]. */
  lemma IqBounds(score: int, maxScore: int)
    requires 0 < maxScore && 0 <= score <= maxScore
    ensures 80 <= Iq(score, maxScore) <= 140
  {
    IqBetween(score, maxScore, 0, 60);
  }

  /** A higher score never gives a lower IQ. */
  lemma IqMonotone(s1: int, s2: int, maxScore: int)
    requires s1 <= s2
    ensures Iq(s1, maxScore) <= Iq(s2, maxScore)
  {
    if maxScore > 0 {
      var d := 2 * maxScore;
      var q1, q2 := Iq(s1, maxScore) - 80, Iq(s2, maxScore) - 80;
      assert d * q1 - maxScore <= 120 * s1;
      assert 120 * s2 < d * q2 + maxScore;
      if q2 < q1 {
        MulMonotone(d, q2 + 1, q1);
      }
    }
  }

  /** The three badge tiers. */
  datatype Badge = Chad | Rookie | Noob

  /**
   * The badge of the card: Chad from 80% of the maximum score, Rookie from
   * 50%, Noob below; `score >= maxScore * 0.8` is written 5 * score >= 4 * maxScore
   * and `score >= maxScore * 0.5` is written 2 * score >= maxScore.
   */
  function BadgeOf(score: int, maxScore: int): (b: Badge)
  {
    if 5 * score >= 4 * maxScore then Chad
    else if 2 * score >= maxScore then Rookie
    else Noob
  }

  /** The text shown for a badge. */
  function Label(b: Badge): (s: string)
  {
    match b
    case Chad => "Brevis Chad"
    case Rookie => "Brevis Rookie"
    case Noob => "Brevis Noob"
  }

  function Rank(b: Badge): nat
  {
    match b
    case Noob => 0
    case Rookie => 1
    case Chad => 2
  }

  /** A higher score never gives a lower badge. */
  lemma BadgeMonotone(s1: int, s2: int, maxScore: int)
    requires s1 <= s2
    ensures Rank(BadgeOf(s1, maxScore)) <= Rank(BadgeOf(s2, maxScore))
  {
  }

  /** Without questions (maximum score 0) every score reaches the top tier. */
  lemma BadgeOfEmptyQuiz(score: int)
    requires score >= 0
    ensures BadgeOf(score, 0) == Chad
  {
  }

  /**
   * The badge and the IQ shown on the same card agree: Chad cards show an IQ
   * of at least 128, Rookie cards one in [110, 128], Noob cards one in [80, 110].
   */
  lemma BadgeAgreesWithIq(score: int, maxScore: int)
    requires 0 < maxScore && 0 <= score <= maxScore
    ensures BadgeOf(score, maxScore) == Chad ==> 128 <= Iq(score, maxScore) <= 140
    ensures BadgeOf(score, maxScore) == Rookie ==> 110 <= Iq(score, maxScore) <= 128
    ensures BadgeOf(score, maxScore) == Noob ==> 80 <= Iq(score, maxScore) <= 110
  {
    match BadgeOf(score, maxScore)
    case Chad => IqBetween(score, maxScore, 48, 60);
    case Rookie => IqBetween(score, maxScore, 30, 48);
    case Noob => IqBetween(score, maxScore, 0, 30);
  }
}
