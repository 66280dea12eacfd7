/** The cases of src/game/evaluate.test.ts, stated about the evaluator. */
module EvaluateExamples {
  import opened Wrappers
  import opened Types
  import opened Text
  import opened Evaluate

  function States(e: GuessEvaluation): seq<LetterState>
  {
    seq(|e.letters|, i requires 0 <= i < |e.letters| => e.letters[i].state)
  }

  /** A three- or six-letter guess is refused. */
  lemma RejectsWrongLengths()
    ensures Evaluated("SHORT", "CAR").Failure?
    ensures Evaluated("SHORT", "LONGER").Failure?
  {
    NormalizeUpperWord("CAR");
    NormalizeUpperWord("LONGER");
  }

  /** A guess equal to the answer is all correct. */
  lemma SameWordIsAllCorrect(w: string)
    requires |w| == 5 && IsUpperWord(w)
    ensures Evaluated(w, w).Success?
    ensures Evaluated(w, w).value.isCorrect
    ensures forall i :: 0 <= i < 5 ==> Evaluated(w, w).value.letters[i].state == Correct
  {
    NormalizeUpperWord(w);
  }

  lemma HappyHappy()
    ensures Evaluated("HAPPY", "HAPPY") == Success(Evaluation("HAPPY", "HAPPY"))
    ensures Evaluation("HAPPY", "HAPPY").isCorrect
    ensures States(Evaluation("HAPPY", "HAPPY")) == [Correct, Correct, Correct, Correct, Correct]
  {
    NormalizeUpperWord("HAPPY");
    SameWordIsAllCorrect("HAPPY");
  }

  /** Answer BOARD, guess CLOUD: only the O is present and the D correct. */
  lemma BoardCloud()
    ensures Evaluated("BOARD", "CLOUD") == Success(Evaluation("BOARD", "CLOUD"))
    ensures !Evaluation("BOARD", "CLOUD").isCorrect
    ensures States(Evaluation("BOARD", "CLOUD")) == [Absent, Absent, Present, Absent, Correct]
  {
    NormalizeUpperWord("BOARD");
    NormalizeUpperWord("CLOUD");
    IsCorrectIffEqual("BOARD", "CLOUD");
    BoardCloudScores();
  }

  lemma BoardCloudScores()
    ensures States(Evaluation("BOARD", "CLOUD")) == [Absent, Absent, Present, Absent, Correct]
  {
    var a, g := "BOARD", "CLOUD";
    assert UnmatchedInAnswer(a, g, 'C', 5) == 0;
    assert UnmatchedInAnswer(a, g, 'L', 5) == 0;
    assert UnmatchedInAnswer(a, g, 'O', 5) == 1;
    assert UnmatchedInAnswer(a, g, 'U', 5) == 0;
    assert UnmatchedInGuess(a, g, 'O', 2) == 0;
    assert ScoreAt(a, g, 2) == Present;
  }

  /** Answer GRACE, guess ALARM: the exact A takes the answer's only A, so the first A is absent. */
  lemma GraceAlarm()
    ensures Evaluated("GRACE", "ALARM") == Success(Evaluation("GRACE", "ALARM"))
    ensures States(Evaluation("GRACE", "ALARM")) == [Absent, Absent, Correct, Present, Absent]
  {
    NormalizeUpperWord("GRACE");
    NormalizeUpperWord("ALARM");
    GraceAlarmScores();
  }

  lemma GraceAlarmScores()
    ensures States(Evaluation("GRACE", "ALARM")) == [Absent, Absent, Correct, Present, Absent]
  {
    var a, g := "GRACE", "ALARM";
    assert UnmatchedInAnswer(a, g, 'A', 5) == 0;
    assert UnmatchedInAnswer(a, g, 'L', 5) == 0;
    assert UnmatchedInAnswer(a, g, 'R', 5) == 1;
    assert UnmatchedInAnswer(a, g, 'M', 5) == 0;
    assert UnmatchedInGuess(a, g, 'R', 3) == 0;
    assert ScoreAt(a, g, 3) == Present;
  }
}
