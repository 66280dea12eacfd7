/** The play-throughs of src/game/puzzleState.test.ts, stated about the state machine. */
module PuzzleExamples {
  import opened Wrappers
  import opened Constants
  import opened Types
  import opened Text
  import opened Evaluate
  import opened Puzzle

  /** A dictionary that accepts every five-letter word. */
  function AnyFiveLetters(w: string): bool
  {
    |w| == WordLength
  }

  /** Typing a word one character at a time, as the tests feed `inputChar`. */
  function TypeWord(s: PuzzleState, w: string): PuzzleState
    decreases |w|
  {
    if w == [] then s else TypeWord(InputChar(s, [w[0]]), w[1..])
  }

  /** Typing capital letters that fit appends them and, if there were any, clears the error. */
  lemma {:induction false} TypeWordAppends(s: PuzzleState, w: string)
    requires s.status == Playing && IsUpperWord(w) && |s.currentGuess| + |w| <= WordLength
    ensures TypeWord(s, w) == if w == [] then s else s.(currentGuess := s.currentGuess + w, error := None)
    decreases |w|
  {
    if w != [] {
      var t := InputChar(s, [w[0]]);
      assert t == s.(currentGuess := s.currentGuess + [w[0]], error := None);
      TypeWordAppends(t, w[1..]);
      assert s.currentGuess + [w[0]] + w[1..] == s.currentGuess + w;
    }
  }

  /** b, o, 1 (ignored), backspace, A leaves "BA". */
  lemma TypingAndBackspace()
    ensures var s0 := CreatePuzzleState("BOARD");
      var s1 := InputChar(s0, "b");
      var s2 := InputChar(s1, "o");
      var s3 := InputChar(s2, "1");
      var s4 := Backspace(s3);
      InputChar(s4, "A").currentGuess == "BA"
  {
    var s0 := CreatePuzzleState("BOARD");
    var s2 := InputChar(InputChar(s0, "b"), "o");
    assert s2.currentGuess == "BO";
    assert InputChar(s2, "1") == s2;
    assert Backspace(s2).currentGuess == "B";
  }

  /** Submitting "B" reports "Not enough letters" and records nothing. */
  lemma ShortGuessIsRefused()
    ensures var s := InputChar(CreatePuzzleState("BOARD"), "B");
      var r := SubmitGuess(s, AnyFiveLetters);
      r.Success? && r.value.error == Some(NotEnoughLetters) && r.value.guesses == []
  {
  }

  /**
   * Typing a five-letter word of capitals into a fresh row and submitting it, with a
   * five-letter answer of capitals: the guess is scored and recorded, the keyboard merged.
   */
  lemma {:induction false} TypedRound(s: PuzzleState, w: string, isValidGuess: string -> bool)
    requires s.status == Playing && s.currentGuess == "" && isValidGuess(w)
    requires |w| == WordLength && IsUpperWord(w)
    requires |s.answer| == WordLength && IsUpperWord(s.answer)
    ensures var r := SubmitGuess(TypeWord(s, w), isValidGuess);
      && r.Success?
      && r.value.answer == s.answer
      && r.value.guesses == s.guesses + [Evaluation(s.answer, w)]
      && r.value.currentGuess == ""
      && r.value.keyboard == KeyboardAfter(s.keyboard, Evaluation(s.answer, w).letters)
      && r.value.status == (if w == s.answer then Won else if |s.guesses| + 1 >= MaxAttempts then Lost else Playing)
  {
    TypeWordAppends(s, w);
    assert s.currentGuess + w == w;
    var t := TypeWord(s, w);
    assert t.currentGuess == w && t.answer == s.answer && t.guesses == s.guesses && Accepts(t, isValidGuess);
    NormalizeUpperWord(w);
    NormalizeUpperWord(s.answer);
    IsCorrectIffEqual(s.answer, w);
    assert Evaluated(s.answer, w) == Success(Evaluation(s.answer, w));
  }

  /** Typing and submitting BOARD against BOARD wins on the first guess. */
  lemma AnswerWins()
    ensures var s := TypeWord(CreatePuzzleState("BOARD"), "BOARD");
      var r := SubmitGuess(s, AnyFiveLetters);
      && r.Success? && r.value.status == Won
      && |r.value.guesses| == 1 && r.value.guesses[0].isCorrect && r.value.currentGuess == ""
  {
    var s0 := CreatePuzzleState("BOARD");
    assert s0.answer == "BOARD";
    assert IsUpperWord("BOARD");
    TypedRound(s0, "BOARD", AnyFiveLetters);
    IsCorrectIffEqual("BOARD", "BOARD");
  }

  /** Wrong guesses of capitals against an answer of capitals: after n of them, n guesses and lost at six. */
  function WrongRounds(s: PuzzleState, w: string, n: nat): PuzzleState
  {
    if n == 0 then s
    else
      var r := SubmitGuess(TypeWord(WrongRounds(s, w, n - 1), w), AnyFiveLetters);
      if r.Success? then r.value else s
  }

  lemma {:induction false} WrongRoundsProgress(s0: PuzzleState, w: string, n: nat)
    requires s0.status == Playing && s0.currentGuess == "" && s0.guesses == []
    requires |w| == WordLength && IsUpperWord(w)
    requires |s0.answer| == WordLength && IsUpperWord(s0.answer) && w != s0.answer
    requires n <= MaxAttempts
    ensures var s := WrongRounds(s0, w, n);
      && s.answer == s0.answer && s.currentGuess == "" && |s.guesses| == n
      && s.status == (if n == MaxAttempts then Lost else Playing)
  {
    if n > 0 {
      WrongRoundsProgress(s0, w, n - 1);
      TypedRound(WrongRounds(s0, w, n - 1), w, AnyFiveLetters);
    }
  }

  lemma {:induction false} TypeWordFrozen(s: PuzzleState, w: string)
    requires s.status != Playing
    ensures TypeWord(s, w) == s
    decreases |w|
  {
    if w != [] {
      TypeWordFrozen(InputChar(s, [w[0]]), w[1..]);
    }
  }

  /** Six rounds of CLOUD against BOARD lose the puzzle with six guesses recorded; a seventh changes nothing. */
  lemma SixWrongGuessesLose()
    ensures var s6 := WrongRounds(CreatePuzzleState("BOARD"), "CLOUD", 6);
      && s6.status == Lost && |s6.guesses| == MaxAttempts
      && SubmitGuess(TypeWord(s6, "CLOUD"), AnyFiveLetters) == Success(s6)
  {
    var s0 := CreatePuzzleState("BOARD");
    assert s0.answer == "BOARD";
    assert IsUpperWord("BOARD") && IsUpperWord("CLOUD");
    WrongRoundsProgress(s0, "CLOUD", 6);
    TypeWordFrozen(WrongRounds(s0, "CLOUD", 6), "CLOUD");
  }

  lemma BoardBringScores()
    ensures Evaluation("BOARD", "BRING").letters
      == [LetterResult('B', Correct), LetterResult('R', Present), LetterResult('I', Absent),
          LetterResult('N', Absent), LetterResult('G', Absent)]
  {
    var a, g := "BOARD", "BRING";
    assert UnmatchedInAnswer(a, g, 'R', 5) == 1;
    assert UnmatchedInAnswer(a, g, 'I', 5) == 0;
    assert UnmatchedInAnswer(a, g, 'N', 5) == 0;
    assert UnmatchedInAnswer(a, g, 'G', 5) == 0;
    assert UnmatchedInGuess(a, g, 'R', 1) == 0;
    assert ScoreAt(a, g, 1) == Present;
  }

  lemma BoardCrowdScores()
    ensures Evaluation("BOARD", "CROWD").letters
      == [LetterResult('C', Absent), LetterResult('R', Present), LetterResult('O', Present),
          LetterResult('W', Absent), LetterResult('D', Correct)]
  {
    var a, g := "BOARD", "CROWD";
    assert UnmatchedInAnswer(a, g, 'C', 5) == 0;
    assert UnmatchedInAnswer(a, g, 'R', 5) == 1;
    assert UnmatchedInAnswer(a, g, 'O', 5) == 1;
    assert UnmatchedInAnswer(a, g, 'W', 5) == 0;
    assert UnmatchedInGuess(a, g, 'R', 1) == 0;
    assert UnmatchedInGuess(a, g, 'O', 2) == 0;
    assert ScoreAt(a, g, 1) == Present;
    assert ScoreAt(a, g, 2) == Present;
  }

  lemma BringKeyboard()
    ensures var k := KeyboardAfter(map[], Evaluation("BOARD", "BRING").letters);
      Lookup(k, 'B') == Correct && Lookup(k, 'R') == Present && Lookup(k, 'I') == Absent
  {
    BoardBringScores();
    var ls := Evaluation("BOARD", "BRING").letters;
    KeyboardAfterIsUpperBound(map[], ls);
    assert Rank(ls[0].state) <= Rank(Lookup(KeyboardAfter(map[], ls), 'B'));
    assert Rank(ls[1].state) <= Rank(Lookup(KeyboardAfter(map[], ls), 'R'));
    assert Rank(ls[2].state) <= Rank(Lookup(KeyboardAfter(map[], ls), 'I'));
    KeyboardAfterIsAttained(map[], ls, 'R');
    KeyboardAfterIsAttained(map[], ls, 'I');
  }

  lemma CrowdKeepsR(k: map<char, LetterState>)
    requires Lookup(k, 'R') == Present
    ensures Lookup(KeyboardAfter(k, Evaluation("BOARD", "CROWD").letters), 'R') == Present
  {
    BoardCrowdScores();
    var ls := Evaluation("BOARD", "CROWD").letters;
    KeyboardAfterIsUpperBound(k, ls);
    KeyboardAfterIsAttained(k, ls, 'R');
  }

  /** BRING then CROWD against BOARD: B correct, R present, I absent; R is still present after CROWD. */
  lemma KeyboardPriority()
    ensures var r1 := SubmitGuess(TypeWord(CreatePuzzleState("BOARD"), "BRING"), AnyFiveLetters);
      && r1.Success?
      && Lookup(r1.value.keyboard, 'B') == Correct
      && Lookup(r1.value.keyboard, 'R') == Present
      && Lookup(r1.value.keyboard, 'I') == Absent
      && var r2 := SubmitGuess(TypeWord(r1.value, "CROWD"), AnyFiveLetters);
      && r2.Success? && Lookup(r2.value.keyboard, 'R') == Present
  {
    var s0 := CreatePuzzleState("BOARD");
    assert s0.answer == "BOARD";
    assert IsUpperWord("BOARD") && IsUpperWord("BRING") && IsUpperWord("CROWD");
    TypedRound(s0, "BRING", AnyFiveLetters);
    BringKeyboard();
    var r1 := SubmitGuess(TypeWord(s0, "BRING"), AnyFiveLetters);
    TypedRound(r1.value, "CROWD", AnyFiveLetters);
    CrowdKeepsR(r1.value.keyboard);
  }
}
