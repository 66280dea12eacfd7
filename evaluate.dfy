/**
 * The guess evaluator of src/game/evaluate.ts: the rank order on letter states, the merge
 * used for keyboard hints, and the two-pass scorer with its duplicate-letter accounting.
 *
 * `ScoreAt` is a reference definition of the score of one position that does not mention the
 * two passes; `EvaluateGuess` is the imperative scorer, proved to compute it.
 */
module Evaluate {
  import opened Wrappers
  import opened Constants
  import opened Types
  import opened Text

  /** The only way evaluateGuess fails: a normalized word without five letters. */
  datatype EvalError = InvalidLength

  /** stateRank: empty < absent < present < correct. */
  function Rank(s: LetterState): (r: nat)
    ensures r <= 3
    ensures r == 0 <==> s == Empty
    ensures r == 3 <==> s == Correct
  {
    match s
    case Empty => 0
    case Absent => 1
    case Present => 2
    case Correct => 3
  }

  lemma RankInjective(x: LetterState, y: LetterState)
    ensures Rank(x) == Rank(y) <==> x == y
  {
  }

  /** mergeLetterState: the higher-ranked of the two states, `existing` on a tie. */
  function MergeLetterState(existing: LetterState, incoming: LetterState): (r: LetterState)
    ensures r == existing || r == incoming
    ensures Rank(r) >= Rank(existing) && Rank(r) >= Rank(incoming)
  {
    if Rank(incoming) > Rank(existing) then incoming else existing
  }

  lemma MergeIdempotent(x: LetterState)
    ensures MergeLetterState(x, x) == x
  {
  }

  lemma MergeCommutative(x: LetterState, y: LetterState)
    ensures MergeLetterState(x, y) == MergeLetterState(y, x)
  {
  }

  lemma MergeAssociative(x: LetterState, y: LetterState, z: LetterState)
    ensures MergeLetterState(MergeLetterState(x, y), z) == MergeLetterState(x, MergeLetterState(y, z))
  {
  }

  /** Merging the same incoming state a second time changes nothing. */
  lemma MergeAbsorbs(x: LetterState, y: LetterState)
    ensures MergeLetterState(MergeLetterState(x, y), y) == MergeLetterState(x, y)
  {
  }

  /** The cases of src/game/evaluate.test.ts. */
  lemma MergeExamples()
    ensures MergeLetterState(Absent, Present) == Present
    ensures MergeLetterState(Present, Correct) == Correct
    ensures MergeLetterState(Correct, Present) == Correct
    ensures MergeLetterState(Empty, Absent) == Absent
  {
  }

  // ---------------------------------------------------------------------------
  // Letter tallies over the first n positions of an answer and a guess of equal length

  /** Positions k < n where the answer has c and the guess does not match it exactly. */
  function UnmatchedInAnswer(answer: string, guess: string, c: char, n: nat): nat
    requires |answer| == |guess| && n <= |answer|
  {
    if n == 0 then 0
    else
      var here := if answer[n - 1] == c && guess[n - 1] != answer[n - 1] then 1 else 0;
      UnmatchedInAnswer(answer, guess, c, n - 1) + here
  }

  /** Positions k < n where the guess has c and does not match the answer exactly. */
  function UnmatchedInGuess(answer: string, guess: string, c: char, n: nat): nat
    requires |answer| == |guess| && n <= |answer|
  {
    if n == 0 then 0
    else
      var here := if guess[n - 1] == c && guess[n - 1] != answer[n - 1] then 1 else 0;
      UnmatchedInGuess(answer, guess, c, n - 1) + here
  }

  /** Positions k < n where both words have c. */
  function ExactMatches(answer: string, guess: string, c: char, n: nat): nat
    requires |answer| == |guess| && n <= |answer|
  {
    if n == 0 then 0
    else
      var here := if guess[n - 1] == c && answer[n - 1] == c then 1 else 0;
      ExactMatches(answer, guess, c, n - 1) + here
  }

  /** The number of occurrences of c in w. */
  function Occurrences(w: string, c: char): nat
  {
    if w == [] then 0
    else Occurrences(w[..|w| - 1], c) + (if w[|w| - 1] == c then 1 else 0)
  }

  /** The number of entries of ls on letter c with state s. */
  function Marks(ls: seq<LetterResult>, c: char, s: LetterState): nat
  {
    if ls == [] then 0
    else Marks(ls[..|ls| - 1], c, s) + (if ls[|ls| - 1] == LetterResult(c, s) then 1 else 0)
  }

  function Min(x: int, y: int): int
  {
    if x <= y then x else y
  }

  // ---------------------------------------------------------------------------
  // The reference score

  /**
   * The score of position i: `Correct` on an exact match; otherwise `Present` while fewer
   * earlier non-matching guess positions carry the same letter than there are non-matching
   * answer positions with it; otherwise `Absent`.
   */
  function ScoreAt(answer: string, guess: string, i: nat): LetterState
    requires |answer| == |guess| && i < |guess|
  {
    if guess[i] == answer[i] then Correct
    else if UnmatchedInGuess(answer, guess, guess[i], i) < UnmatchedInAnswer(answer, guess, guess[i], |answer|)
    then Present
    else Absent
  }

  /** The evaluation of two normalized words of equal length. */
  function Evaluation(answer: string, guess: string): GuessEvaluation
    requires |answer| == |guess|
  {
    GuessEvaluation(
      seq(|guess|, i requires 0 <= i < |guess| => LetterResult(guess[i], ScoreAt(answer, guess, i))),
      forall i :: 0 <= i < |guess| ==> ScoreAt(answer, guess, i) == Correct)
  }

  /** evaluateGuess as a value: normalize both words, fail unless both have five letters. */
  function Evaluated(answer: string, guess: string): (r: Result<GuessEvaluation, EvalError>)
    ensures r.Failure? <==> |Normalize(answer)| != WordLength || |Normalize(guess)| != WordLength
    ensures r.Success? ==> |r.value.letters| == WordLength
    ensures r.Success? ==> (r.value.isCorrect <==> Normalize(answer) == Normalize(guess))
  {
    var normalizedAnswer := Normalize(answer);
    var normalizedGuess := Normalize(guess);
    if |normalizedAnswer| != WordLength || |normalizedGuess| != WordLength then
      Failure(InvalidLength)
    else
      IsCorrectIffEqual(normalizedAnswer, normalizedGuess);
      Success(Evaluation(normalizedAnswer, normalizedGuess))
  }

  // ---------------------------------------------------------------------------
  // The imperative scorer

  /** `remainingCounts.get(c) ?? 0`. */
  function Get(m: map<char, int>, c: char): int
  {
    if c in m then m[c] else 0
  }

  /** What pass 2 has left of the count for c before position i. */
  function Remaining(answer: string, guess: string, c: char, i: nat): nat
    requires |answer| == |guess| && i <= |answer|
  {
    var left := UnmatchedInAnswer(answer, guess, c, |answer|) - UnmatchedInGuess(answer, guess, c, i);
    if left > 0 then left else 0
  }

  /**
   * evaluateGuess: normalize both words and reject any that does not have five letters,
   * then score them with `ScoreWords`.
   */
  method EvaluateGuess(answer: string, guess: string) returns (r: Result<GuessEvaluation, EvalError>)
    ensures r == Evaluated(answer, guess)
    ensures r.Failure? <==> |Normalize(answer)| != WordLength || |Normalize(guess)| != WordLength
    ensures r.Success? ==> forall i :: 0 <= i < WordLength ==>
      r.value.letters[i].letter == Normalize(guess)[i] &&
      (r.value.letters[i].state == Correct <==> Normalize(guess)[i] == Normalize(answer)[i])
  {
    var normalizedAnswer := Normalize(answer);
    var normalizedGuess := Normalize(guess);
    if |normalizedAnswer| != WordLength || |normalizedGuess| != WordLength {
      return Failure(InvalidLength);
    }
    var states := ScoreWords(normalizedAnswer, normalizedGuess);
    var letters := seq(WordLength, i requires 0 <= i < WordLength => LetterResult(normalizedGuess[i], states[i]));
    var isCorrect := forall i :: 0 <= i < WordLength ==> states[i] == Correct;
    r := Success(GuessEvaluation(letters, isCorrect));
    assert letters == Evaluation(normalizedAnswer, normalizedGuess).letters;
  }

  /**
   * The two passes of evaluateGuess over normalized five-letter words. Pass 1 marks the exact
   * matches and counts every other answer letter; pass 2 marks a letter present while its
   * count is positive, decrementing it.
   */
  method ScoreWords(answer: string, guess: string) returns (states: seq<LetterState>)
    requires |answer| == WordLength && |guess| == WordLength
    ensures |states| == WordLength
    ensures forall k :: 0 <= k < WordLength ==> states[k] == ScoreAt(answer, guess, k)
  {
    var result := new LetterState[WordLength](_ => Absent);
    var remainingCounts: map<char, int> := map[];

    // First pass: exact matches, and the count of every other answer letter
    for i := 0 to WordLength
      invariant forall k :: 0 <= k < i ==> result[k] == (if guess[k] == answer[k] then Correct else Absent)
      invariant forall k :: i <= k < WordLength ==> result[k] == Absent
      invariant forall c :: Get(remainingCounts, c) == UnmatchedInAnswer(answer, guess, c, i)
    {
      var answerChar := answer[i];
      var guessChar := guess[i];
      if guessChar == answerChar {
        result[i] := Correct;
      } else {
        remainingCounts := remainingCounts[answerChar := Get(remainingCounts, answerChar) + 1];
      }
    }

    // Second pass: present letters, using up the remaining counts
    for i := 0 to WordLength
      invariant forall k :: 0 <= k < i ==> result[k] == ScoreAt(answer, guess, k)
      invariant forall k :: i <= k < WordLength ==> result[k] == (if guess[k] == answer[k] then Correct else Absent)
      invariant forall c :: Get(remainingCounts, c) == Remaining(answer, guess, c, i)
    {
      if result[i] == Correct {
        continue;
      }
      var guessChar := guess[i];
      var remaining := Get(remainingCounts, guessChar);
      if remaining > 0 {
        result[i] := Present;
        remainingCounts := remainingCounts[guessChar := remaining - 1];
      }
    }
    states := result[..];
  }

  // ---------------------------------------------------------------------------
  // Properties of the reference score

  /** One entry per letter, carrying the guess's letter; correct exactly on an exact match; never empty. */
  lemma EvaluationShape(answer: string, guess: string, i: nat)
    requires |answer| == |guess| && i < |guess|
    ensures var e := Evaluation(answer, guess);
      && |e.letters| == |guess|
      && e.letters[i].letter == guess[i]
      && (e.letters[i].state == Correct <==> guess[i] == answer[i])
      && e.letters[i].state != Empty
  {
  }

  /** isCorrect holds exactly when the guess is the answer. */
  lemma IsCorrectIffEqual(answer: string, guess: string)
    requires |answer| == |guess|
    ensures Evaluation(answer, guess).isCorrect <==> answer == guess
  {
    if Evaluation(answer, guess).isCorrect {
      forall i | 0 <= i < |guess| ensures guess[i] == answer[i] {
        assert ScoreAt(answer, guess, i) == Correct;
      }
    }
  }

  lemma {:induction false} UnmatchedInGuessMonotone(answer: string, guess: string, c: char, i: nat, j: nat)
    requires |answer| == |guess| && i <= j <= |answer|
    ensures UnmatchedInGuess(answer, guess, c, i) <= UnmatchedInGuess(answer, guess, c, j)
    decreases j - i
  {
    if i < j {
      UnmatchedInGuessMonotone(answer, guess, c, i, j - 1);
    }
  }

  lemma {:induction false} LettersPrefix(answer: string, guess: string, n: nat)
    requires |answer| == |guess| && 0 < n <= |guess|
    ensures var ls := Evaluation(answer, guess).letters;
      ls[..n][..n - 1] == ls[..n - 1] && ls[..n][n - 1] == LetterResult(guess[n - 1], ScoreAt(answer, guess, n - 1))
  {
  }

  /** The present marks on c among the first n letters: as many as are still unpaid, capped by the answer's supply. */
  lemma {:induction false} PresentMarksPrefix(answer: string, guess: string, c: char, n: nat)
    requires |answer| == |guess| && n <= |guess|
    ensures Marks(Evaluation(answer, guess).letters[..n], c, Present)
      == Min(UnmatchedInGuess(answer, guess, c, n), UnmatchedInAnswer(answer, guess, c, |answer|))
  {
    if n > 0 {
      PresentMarksPrefix(answer, guess, c, n - 1);
      LettersPrefix(answer, guess, n);
    }
  }

  lemma {:induction false} CorrectMarksPrefix(answer: string, guess: string, c: char, n: nat)
    requires |answer| == |guess| && n <= |guess|
    ensures Marks(Evaluation(answer, guess).letters[..n], c, Correct) == ExactMatches(answer, guess, c, n)
  {
    if n > 0 {
      CorrectMarksPrefix(answer, guess, c, n - 1);
      LettersPrefix(answer, guess, n);
    }
  }

  /** Every occurrence of c is either an exact match or unmatched, in either word. */
  lemma {:induction false} OccurrencesSplit(answer: string, guess: string, c: char, n: nat)
    requires |answer| == |guess| && n <= |answer|
    ensures Occurrences(answer[..n], c) == ExactMatches(answer, guess, c, n) + UnmatchedInAnswer(answer, guess, c, n)
    ensures Occurrences(guess[..n], c) == ExactMatches(answer, guess, c, n) + UnmatchedInGuess(answer, guess, c, n)
  {
    if n > 0 {
      OccurrencesSplit(answer, guess, c, n - 1);
      assert answer[..n][..n - 1] == answer[..n - 1];
      assert guess[..n][..n - 1] == guess[..n - 1];
    }
  }

  /**
   * Duplicate-letter accounting: the present marks on c are the smaller of the unmatched
   * occurrences of c in the guess and in the answer, the correct marks are the exact matches,
   * and together they never exceed c's occurrences in the answer (nor in the guess).
   */
  lemma DuplicateAccounting(answer: string, guess: string, c: char)
    requires |answer| == |guess|
    ensures var ls := Evaluation(answer, guess).letters;
      && Marks(ls, c, Present) == Min(UnmatchedInGuess(answer, guess, c, |guess|), UnmatchedInAnswer(answer, guess, c, |answer|))
      && Marks(ls, c, Correct) == ExactMatches(answer, guess, c, |guess|)
      && Marks(ls, c, Correct) + Marks(ls, c, Present) <= Occurrences(answer, c)
      && Marks(ls, c, Correct) + Marks(ls, c, Present) <= Occurrences(guess, c)
  {
    var ls := Evaluation(answer, guess).letters;
    PresentMarksPrefix(answer, guess, c, |guess|);
    CorrectMarksPrefix(answer, guess, c, |guess|);
    OccurrencesSplit(answer, guess, c, |answer|);
    assert ls[..|guess|] == ls;
    assert answer[..|answer|] == answer;
    assert guess[..|guess|] == guess;
  }

  /** Present credit goes to the leftmost non-matching occurrences of a letter first. */
  lemma PresentGoesLeftmost(answer: string, guess: string, i: nat, j: nat)
    requires |answer| == |guess| && i < j < |guess|
    requires guess[i] == guess[j] && guess[i] != answer[i]
    requires ScoreAt(answer, guess, j) == Present
    ensures ScoreAt(answer, guess, i) == Present
  {
    UnmatchedInGuessMonotone(answer, guess, guess[i], i + 1, j);
  }

  /** A non-matching letter is absent only once the answer's unmatched copies are all credited to its left. */
  lemma AbsentMeansExhausted(answer: string, guess: string, i: nat)
    requires |answer| == |guess| && i < |guess|
    requires ScoreAt(answer, guess, i) == Absent
    ensures Marks(Evaluation(answer, guess).letters[..i], guess[i], Present)
      == UnmatchedInAnswer(answer, guess, guess[i], |answer|)
  {
    PresentMarksPrefix(answer, guess, guess[i], i);
  }
}
