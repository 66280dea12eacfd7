/**
 * One puzzle's session state and its transitions (src/game/puzzleState.ts). Every
 * transition is a function from a state to a new state, as the source returns a fresh record.
 */
module Puzzle {
  import opened Wrappers
  import opened Constants
  import opened Types
  import opened Text
  import opened Evaluate

  datatype Status = Playing | Won | Lost

  /** The keyboard maps each letter seen so far to its best-known state; `error` is null or a message. */
  datatype PuzzleState = PuzzleState(
    answer: string,
    guesses: seq<GuessEvaluation>,
    currentGuess: string,
    status: Status,
    error: Option<string>,
    keyboard: map<char, LetterState>)

  const NotEnoughLetters: string := "Not enough letters"
  const NotInWordList: string := "Not in word list"

  /** createPuzzleState: the upper-cased answer, nothing guessed or typed, still playing. */
  function CreatePuzzleState(answer: string): (s: PuzzleState)
    ensures s.answer == ToUpper(answer)
    ensures s.guesses == [] && s.currentGuess == "" && s.status == Playing
    ensures s.error == None && s.keyboard == map[]
    ensures Invariant(s)
  {
    PuzzleState(ToUpper(answer), [], "", Playing, None, map[])
  }

  /** isAlphabetic: `/^[A-Z]$/`, exactly one capital letter. */
  function IsAlphabetic(letter: string): (r: bool)
    ensures r <==> exists c :: IsUpper(c) && letter == [c]
  {
    |letter| == 1 && IsUpper(letter[0])
  }

  predicate IsAsciiLetter(c: char)
  {
    IsUpper(c) || IsLower(c)
  }

  /**
   * inputChar: while playing and with fewer than five letters typed, a single ASCII letter of
   * either case is appended in upper case and the error cleared; anything else changes nothing.
   */
  function InputChar(s: PuzzleState, ch: string): (r: PuzzleState)
    ensures var accepted := s.status == Playing && |ch| == 1 && IsAsciiLetter(ch[0]) && |s.currentGuess| < WordLength;
      r == if accepted then s.(currentGuess := s.currentGuess + [UpperChar(ch[0])], error := None) else s
  {
    if s.status != Playing then s
    else
      var letter := ToUpper(ch);
      if !IsAlphabetic(letter) then s
      else if |s.currentGuess| >= WordLength then s
      else s.(currentGuess := s.currentGuess + letter, error := None)
  }

  /** backspace: while playing, drops exactly the last typed letter and clears the error. */
  function Backspace(s: PuzzleState): (r: PuzzleState)
    ensures s.status == Playing && s.currentGuess != [] ==>
      && r == s.(currentGuess := r.currentGuess, error := None)
      && r.currentGuess + [s.currentGuess[|s.currentGuess| - 1]] == s.currentGuess
    ensures s.status != Playing || s.currentGuess == [] ==> r == s
  {
    if s.status != Playing then s
    else if |s.currentGuess| == 0 then s
    else s.(currentGuess := s.currentGuess[..|s.currentGuess| - 1], error := None)
  }

  // ---------------------------------------------------------------------------
  // Keyboard hints

  /** `next[letter] ?? 'empty'`. */
  function Lookup(keyboard: map<char, LetterState>, c: char): LetterState
  {
    if c in keyboard then keyboard[c] else Empty
  }

  /** The keyboard after merging the letters in, one after the other, as updateKeyboard's forEach does. */
  function KeyboardAfter(keyboard: map<char, LetterState>, letters: seq<LetterResult>): map<char, LetterState>
  {
    if letters == [] then keyboard
    else
      var next := KeyboardAfter(keyboard, letters[..|letters| - 1]);
      var last := letters[|letters| - 1];
      next[last.letter := MergeLetterState(Lookup(next, last.letter), last.state)]
  }

  /** updateKeyboard: copy the keyboard, then merge each letter of the evaluation into the copy. */
  method UpdateKeyboard(keyboard: map<char, LetterState>, evaluation: GuessEvaluation)
    returns (next: map<char, LetterState>)
    ensures next == KeyboardAfter(keyboard, evaluation.letters)
  {
    var letters := evaluation.letters;
    next := keyboard;
    for i := 0 to |letters|
      invariant next == KeyboardAfter(keyboard, letters[..i])
    {
      var existing := Lookup(next, letters[i].letter);
      next := next[letters[i].letter := MergeLetterState(existing, letters[i].state)];
      assert letters[..i + 1][..i] == letters[..i];
    }
    assert letters[..|letters|] == letters;
  }

  /** The keys after the merge: the old ones and the letters of the guess. */
  lemma {:induction false} KeyboardAfterKeys(keyboard: map<char, LetterState>, letters: seq<LetterResult>)
    ensures KeyboardAfter(keyboard, letters).Keys == keyboard.Keys + (set k | 0 <= k < |letters| :: letters[k].letter)
  {
    if letters != [] {
      var front := letters[..|letters| - 1];
      KeyboardAfterKeys(keyboard, front);
      assert (set k | 0 <= k < |letters| :: letters[k].letter)
        == (set k | 0 <= k < |front| :: front[k].letter) + {letters[|letters| - 1].letter};
    }
  }

  /** No key loses rank, and each letter ends at least as high as the state of each of its occurrences. */
  lemma {:induction false} KeyboardAfterIsUpperBound(keyboard: map<char, LetterState>, letters: seq<LetterResult>)
    ensures var next := KeyboardAfter(keyboard, letters);
      && (forall c :: Rank(Lookup(keyboard, c)) <= Rank(Lookup(next, c)))
      && (forall k :: 0 <= k < |letters| ==> Rank(letters[k].state) <= Rank(Lookup(next, letters[k].letter)))
  {
    if letters != [] {
      var front := letters[..|letters| - 1];
      KeyboardAfterIsUpperBound(keyboard, front);
      var next := KeyboardAfter(keyboard, letters);
      forall k | 0 <= k < |letters|
        ensures Rank(letters[k].state) <= Rank(Lookup(next, letters[k].letter))
      {
        if k < |front| {
          assert letters[k] == front[k];
        }
      }
    }
  }

  /** Each key ends either at its old state or at the state of one of the letter's occurrences. */
  lemma {:induction false} KeyboardAfterIsAttained(keyboard: map<char, LetterState>, letters: seq<LetterResult>, c: char)
    ensures var next := KeyboardAfter(keyboard, letters);
      Lookup(next, c) == Lookup(keyboard, c)
      || exists k :: 0 <= k < |letters| && letters[k].letter == c && letters[k].state == Lookup(next, c)
  {
    if letters != [] {
      var front := letters[..|letters| - 1];
      KeyboardAfterIsAttained(keyboard, front, c);
      var prev := KeyboardAfter(keyboard, front);
      var next := KeyboardAfter(keyboard, letters);
      var last := letters[|letters| - 1];
      if c == last.letter && Lookup(next, c) == last.state {
        assert letters[|letters| - 1].letter == c;
      } else {
        assert Lookup(next, c) == Lookup(prev, c);
        if Lookup(prev, c) != Lookup(keyboard, c) {
          var k :| 0 <= k < |front| && front[k].letter == c && front[k].state == Lookup(prev, c);
          assert letters[k] == front[k];
        }
      }
    }
  }

  /**
   * Each letter of the guess ends at the maximum of its old state (or empty) and the states
   * of all its occurrences; the keys are the old ones and the guess's letters; no key loses rank.
   */
  lemma KeyboardAfterIsMax(keyboard: map<char, LetterState>, letters: seq<LetterResult>)
    ensures var next := KeyboardAfter(keyboard, letters);
      && next.Keys == keyboard.Keys + (set k | 0 <= k < |letters| :: letters[k].letter)
      && (forall c :: Rank(Lookup(keyboard, c)) <= Rank(Lookup(next, c)))
      && (forall k :: 0 <= k < |letters| ==> Rank(letters[k].state) <= Rank(Lookup(next, letters[k].letter)))
      && (forall c :: Lookup(next, c) == Lookup(keyboard, c)
            || exists k :: 0 <= k < |letters| && letters[k].letter == c && letters[k].state == Lookup(next, c))
  {
    KeyboardAfterKeys(keyboard, letters);
    KeyboardAfterIsUpperBound(keyboard, letters);
    forall c
      ensures var next := KeyboardAfter(keyboard, letters);
        Lookup(next, c) == Lookup(keyboard, c)
        || exists k :: 0 <= k < |letters| && letters[k].letter == c && letters[k].state == Lookup(next, c)
    {
      KeyboardAfterIsAttained(keyboard, letters, c);
    }
  }

  /** A key that no letter of the guess touches keeps its state, and its presence. */
  lemma KeyboardAfterUntouched(keyboard: map<char, LetterState>, letters: seq<LetterResult>, c: char)
    requires forall k :: 0 <= k < |letters| ==> letters[k].letter != c
    ensures var next := KeyboardAfter(keyboard, letters);
      (c in next <==> c in keyboard) && Lookup(next, c) == Lookup(keyboard, c)
  {
    KeyboardAfterIsMax(keyboard, letters);
  }

  /** The keyboard built from a whole history of guesses, from an empty one. */
  function KeyboardOf(guesses: seq<GuessEvaluation>): map<char, LetterState>
  {
    if guesses == [] then map[]
    else KeyboardAfter(KeyboardOf(guesses[..|guesses| - 1]), guesses[|guesses| - 1].letters)
  }

  // ---------------------------------------------------------------------------
  // Submitting a guess

  /** The current guess gets past both checks of submitGuess. */
  predicate Accepts(s: PuzzleState, isValidGuess: string -> bool)
  {
    s.status == Playing && |s.currentGuess| == WordLength && isValidGuess(s.currentGuess)
  }

  /**
   * submitGuess. While playing: a guess without five letters only sets "Not enough letters";
   * one the dictionary refuses only sets "Not in word list"; any other is scored and appended,
   * the input and error cleared, the keyboard merged, and the puzzle won on the answer, lost
   * on the sixth wrong guess. Scoring fails, as evaluateGuess throws, on an answer that does
   * not normalize to five letters.
   */
  function SubmitGuess(s: PuzzleState, isValidGuess: string -> bool): (r: Result<PuzzleState, EvalError>)
    ensures s.status != Playing ==> r == Success(s)
    ensures s.status == Playing && |s.currentGuess| != WordLength ==>
      r == Success(s.(error := Some(NotEnoughLetters)))
    ensures s.status == Playing && |s.currentGuess| == WordLength && !isValidGuess(s.currentGuess) ==>
      r == Success(s.(error := Some(NotInWordList)))
    ensures r.Failure? <==> Accepts(s, isValidGuess) && Evaluated(s.answer, s.currentGuess).Failure?
    ensures Accepts(s, isValidGuess) && r.Success? ==>
      var e := Evaluated(s.answer, s.currentGuess).value;
      && r.value.answer == s.answer
      && r.value.guesses == s.guesses + [e]
      && r.value.currentGuess == ""
      && r.value.error == None
      && r.value.keyboard == KeyboardAfter(s.keyboard, e.letters)
      && r.value.status == (if e.isCorrect then Won else if |s.guesses| + 1 >= MaxAttempts then Lost else Playing)
  {
    if s.status != Playing then Success(s)
    else if |s.currentGuess| != WordLength then Success(s.(error := Some(NotEnoughLetters)))
    else if !isValidGuess(s.currentGuess) then Success(s.(error := Some(NotInWordList)))
    else
      match Evaluated(s.answer, s.currentGuess)
      case Failure(err) => Failure(err)
      case Success(evaluation) =>
        var guesses := s.guesses + [evaluation];
        var status := if evaluation.isCorrect then Won else if |guesses| >= MaxAttempts then Lost else Playing;
        Success(s.(guesses := guesses, currentGuess := "", status := status, error := None,
                   keyboard := KeyboardAfter(s.keyboard, evaluation.letters)))
  }

  // ---------------------------------------------------------------------------
  // The reachable-state invariant

  /**
   * At most six guesses of five letters each; at most five capital letters typed; no guess
   * but the last is correct; won exactly when the last guess is correct; lost exactly when the
   * sixth guess is wrong; nothing typed once the puzzle is over; and the keyboard is the merge
   * of every guess so far.
   */
  predicate Invariant(s: PuzzleState)
  {
    && |s.guesses| <= MaxAttempts
    && |s.currentGuess| <= WordLength
    && IsUpperWord(s.currentGuess)
    && (forall k :: 0 <= k < |s.guesses| ==> |s.guesses[k].letters| == WordLength)
    && (forall k :: 0 <= k < |s.guesses| - 1 ==> !s.guesses[k].isCorrect)
    && (s.status == Won <==> s.guesses != [] && s.guesses[|s.guesses| - 1].isCorrect)
    && (s.status == Lost <==> |s.guesses| == MaxAttempts && !s.guesses[|s.guesses| - 1].isCorrect)
    && (s.status != Playing ==> s.currentGuess == "")
    && s.keyboard == KeyboardOf(s.guesses)
  }

  /** While playing, no guess is correct and an attempt is left. */
  lemma PlayingHasAttemptsLeft(s: PuzzleState)
    requires Invariant(s) && s.status == Playing
    ensures |s.guesses| < MaxAttempts
    ensures forall k :: 0 <= k < |s.guesses| ==> !s.guesses[k].isCorrect
  {
  }

  /** A lost puzzle has used all six attempts without a correct guess. */
  lemma LostMeansAllAttemptsWrong(s: PuzzleState)
    requires Invariant(s) && s.status == Lost
    ensures |s.guesses| == MaxAttempts
    ensures forall k :: 0 <= k < |s.guesses| ==> !s.guesses[k].isCorrect
  {
  }

  lemma InputCharPreservesInvariant(s: PuzzleState, ch: string)
    requires Invariant(s)
    ensures Invariant(InputChar(s, ch))
  {
    var r := InputChar(s, ch);
    if r != s {
      assert |r.currentGuess| == |s.currentGuess| + 1;
      forall i | 0 <= i < |r.currentGuess| ensures IsUpper(r.currentGuess[i]) {
        if i == |s.currentGuess| {
          assert r.currentGuess[i] == UpperChar(ch[0]);
        } else {
          assert r.currentGuess[i] == s.currentGuess[i];
        }
      }
    }
  }

  lemma BackspacePreservesInvariant(s: PuzzleState)
    requires Invariant(s)
    ensures Invariant(Backspace(s))
  {
  }

  lemma SubmitGuessPreservesInvariant(s: PuzzleState, isValidGuess: string -> bool)
    requires Invariant(s)
    ensures SubmitGuess(s, isValidGuess).Success? ==> Invariant(SubmitGuess(s, isValidGuess).value)
  {
    var r := SubmitGuess(s, isValidGuess);
    if Accepts(s, isValidGuess) && r.Success? {
      var e := Evaluated(s.answer, s.currentGuess).value;
      var t := r.value;
      PlayingHasAttemptsLeft(s);
      assert t.guesses[..|t.guesses| - 1] == s.guesses;
      assert t.guesses[|t.guesses| - 1] == e;
      assert t.status == (if e.isCorrect then Won else if |t.guesses| >= MaxAttempts then Lost else Playing);
    }
  }

  /** Once won or lost, typing, deleting and submitting all leave the state as it is. */
  lemma TerminalIsFrozen(s: PuzzleState, ch: string, isValidGuess: string -> bool)
    requires s.status != Playing
    ensures InputChar(s, ch) == s
    ensures Backspace(s) == s
    ensures SubmitGuess(s, isValidGuess) == Success(s)
  {
  }

  /** In a reachable state with a five-letter answer, submitting never fails. */
  lemma SubmitNeverFails(s: PuzzleState, isValidGuess: string -> bool)
    requires Invariant(s) && |Normalize(s.answer)| == WordLength
    ensures SubmitGuess(s, isValidGuess).Success?
  {
    NormalizeUpperWord(s.currentGuess);
  }

  /** Submitting the answer wins at once and clears the input. */
  lemma CorrectGuessWins(s: PuzzleState, isValidGuess: string -> bool)
    requires Invariant(s) && s.status == Playing
    requires |Normalize(s.answer)| == WordLength && s.currentGuess == Normalize(s.answer)
    requires isValidGuess(s.currentGuess)
    ensures SubmitGuess(s, isValidGuess).Success?
    ensures SubmitGuess(s, isValidGuess).value.status == Won
    ensures SubmitGuess(s, isValidGuess).value.currentGuess == ""
  {
    NormalizeUpperWord(s.currentGuess);
  }

  /** A wrong accepted guess adds one attempt and loses the puzzle exactly when it is the sixth. */
  lemma WrongGuessRound(s: PuzzleState, isValidGuess: string -> bool)
    requires Invariant(s) && Accepts(s, isValidGuess) && |Normalize(s.answer)| == WordLength
    requires Normalize(s.currentGuess) != Normalize(s.answer)
    ensures var r := SubmitGuess(s, isValidGuess);
      && r.Success? && Invariant(r.value)
      && r.value.answer == s.answer && r.value.currentGuess == ""
      && |r.value.guesses| == |s.guesses| + 1
      && r.value.status == (if |s.guesses| + 1 == MaxAttempts then Lost else Playing)
  {
    SubmitNeverFails(s, isValidGuess);
    SubmitGuessPreservesInvariant(s, isValidGuess);
    PlayingHasAttemptsLeft(s);
  }

  /** An accepted guess wins exactly when it normalizes to the answer. */
  lemma SubmitWinsIffAnswer(s: PuzzleState, isValidGuess: string -> bool)
    requires Accepts(s, isValidGuess) && SubmitGuess(s, isValidGuess).Success?
    ensures SubmitGuess(s, isValidGuess).value.status == Won <==> Normalize(s.currentGuess) == Normalize(s.answer)
  {
  }

  /** Submitting never lowers a key's rank, and a key the guess does not use keeps its state. */
  lemma SubmitNeverDowngradesKeyboard(s: PuzzleState, isValidGuess: string -> bool, c: char)
    requires SubmitGuess(s, isValidGuess).Success?
    ensures var next := SubmitGuess(s, isValidGuess).value.keyboard;
      && Rank(Lookup(s.keyboard, c)) <= Rank(Lookup(next, c))
      && (Lookup(next, c) == Lookup(s.keyboard, c)
          || exists k :: 0 <= k < |Normalize(s.currentGuess)| && Normalize(s.currentGuess)[k] == c)
  {
    if Accepts(s, isValidGuess) {
      var e := Evaluated(s.answer, s.currentGuess).value;
      KeyboardAfterIsMax(s.keyboard, e.letters);
      if Lookup(KeyboardAfter(s.keyboard, e.letters), c) != Lookup(s.keyboard, c) {
        var k :| 0 <= k < |e.letters| && e.letters[k].letter == c;
        var na, ng := Normalize(s.answer), Normalize(s.currentGuess);
        EvaluationShape(na, ng, k);
      }
    }
  }
}
