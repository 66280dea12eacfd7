# Wordle-style puzzle: evaluator and puzzle state machine

This project models the game logic of a Wordle-style word puzzle and proves properties of it in Dafny.
The model has two layers.

- **The guess evaluator** (`src/game/evaluate.ts`) scores a five-letter guess against a five-letter answer.
  Each letter is marked `correct`, `present` or `absent`, and repeated letters are handled the Wordle way.
  Pass 1 marks the exact matches and counts the answer letters that did not match.
  Pass 2 walks the guess left to right and marks a letter `present` while its count is positive, using up one count each time.
  The evaluator also merges letter states for the on-screen keyboard: the result is the higher of the two in the order `empty < absent < present < correct`.
- **The puzzle state machine** (`src/game/puzzleState.ts`) takes one puzzle from creation to `won` or `lost`.
  Its state holds the answer, the scored guesses, the letters typed so far, the status, an optional error message and a keyboard map from letter to best-known state.
  `inputChar`, `backspace` and `submitGuess` each return a new state.

Modules, one per source file or component:

- `Wrappers`: `Option` stands for the source's `null`; `Result` stands for its `throw`.
- `Constants`: `WordLength = 5` and `MaxAttempts = 6`.
  The source imports both from `src/game/constants.ts`, which is not part of this model.
  `src/data/words.ts` also writes 5 out as a literal.
- `Types`: `LetterState`, `LetterResult` and `GuessEvaluation` (`src/game/types.ts`).
- `Text`: JavaScript's `trim()` and `toUpperCase()`, and `normalize` (trim, then upper-case).
- `Evaluate`: the rank order, `MergeLetterState`, and the scorer.
  `ScoreAt` is a reference definition of one position's state that does not mention the two passes.
  `Evaluation` and `Evaluated` build the whole result from it.
  `EvaluateGuess` / `ScoreWords` are the imperative two-pass scorer over an array and a count map, proved to compute `Evaluated`.
- `Words`: `isValidGuess` over an allowed-word set that is passed in as a parameter.
- `Puzzle`: the state record, the transitions, and the keyboard update, written as a fold (`KeyboardAfter`) and as a loop (`UpdateKeyboard`).
  It also holds the reachable-state invariant and the lemmas that every transition preserves it.
- `EvaluateExamples`, `PuzzleExamples`: the cases in the repository's test files, stated as lemmas.

`SubmitGuess` takes the dictionary check as a parameter, `isValidGuess: string -> bool`.
It must accept or reject the full five-letter guess; nothing else is assumed about it.

Points worth knowing about the model:

- The tests call `evaluateGuess` with the answer first, as in `evaluateGuess("BOARD", "CLOUD")` and `evaluateGuess("GRACE", "ALARM")` (`src/game/evaluate.test.ts:16,23`); the example lemmas use that order.
- After the guesses BRING and CROWD against BOARD, `R` stays `present`.
  This is what the test asserts at `src/game/puzzleState.test.ts:60`.
  The comment at line 57 of that file says R is upgraded to correct, which is wrong.
- `submitGuess` may throw, through `evaluateGuess`, when the answer does not normalize to five letters.
  The model returns `Failure(InvalidLength)` in that case.
  `SubmitNeverFails` shows that this cannot happen in a reachable state whose answer normalizes to five letters.

## Model

| member | source | states |
|---|---|---|
| `Text.TrimStart` | src/game/evaluate.ts:4 | the result is the suffix of the input that remains after its longest prefix of JavaScript whitespace; it does not start with whitespace |
| `Text.TrimEnd` | src/game/evaluate.ts:4 | the result is the prefix of the input that remains before its longest suffix of JavaScript whitespace; it does not end with whitespace |
| `Text.UpperChar` | src/game/puzzleState.ts:30 | a lower-case ASCII letter becomes the capital at the same alphabet position; every other character is unchanged |
| `Text.ToUpper` | src/game/puzzleState.ts:18 | same length, no lower-case letter left, a character changes exactly when it was a lower-case letter, and every character becomes its `UpperChar` (a–z to the capital at the same alphabet position) |
| `Text.Trim` | src/game/evaluate.ts:4 | reference definition of `trim()` (strip the end of the stripped start); its contract is `Text.TrimIsSlice` |
| `Text.TrimIsSlice` | src/game/evaluate.ts:4 | the trimmed string is the slice of the input between its longest whitespace prefix and its longest whitespace suffix; every dropped character is whitespace and the result neither starts nor ends with whitespace |
| `Text.Normalize` | src/game/evaluate.ts:4 | reference definition of `normalize` (trim, then upper-case); its contract is `Text.NormalizeIsTrimmedUpper` |
| `Text.NormalizeIsTrimmedUpper` | src/game/evaluate.ts:4 | the normalized string has the trimmed length, its character i is the upper-cased character of the trimmed slice at i, it holds no lower-case letter and no whitespace at either end |
| `Text.NormalizeUpperWord` | src/game/evaluate.ts:4 | normalizing a word made only of A–Z gives the same word |
| `Text.NormalizeIdempotent` | src/game/evaluate.ts:4 | normalizing twice is the same as normalizing once |
| `Evaluate.Rank` | src/game/evaluate.ts:6-11 | ranks lie in 0..3; rank 0 exactly for `empty` and rank 3 exactly for `correct` |
| `Evaluate.RankInjective` | src/game/evaluate.ts:6-11 | the rank order is strict: two states have the same rank only if they are the same state |
| `Evaluate.MergeLetterState` | src/game/evaluate.ts:55-57 | returns one of its two arguments, and its rank is at least that of both, so it is their maximum; it never downgrades `existing` |
| `Evaluate.MergeIdempotent` | src/game/evaluate.ts:55-57 | merge(x, x) = x |
| `Evaluate.MergeCommutative` | src/game/evaluate.ts:55-57 | merge(x, y) = merge(y, x) |
| `Evaluate.MergeAssociative` | src/game/evaluate.ts:55-57 | merge(merge(x, y), z) = merge(x, merge(y, z)) |
| `Evaluate.MergeAbsorbs` | src/game/evaluate.ts:55-57 | merge(merge(x, y), y) = merge(x, y) |
| `Evaluate.MergeExamples` | src/game/evaluate.test.ts:29-38 | absent+present gives present; present+correct gives correct; correct+present gives correct; empty+absent gives absent |
| `Evaluate.Evaluated` | src/game/evaluate.ts:13-52 | fails exactly when the normalized answer or guess does not have five letters; otherwise it has five entries, and `isCorrect` holds iff the normalized guess equals the normalized answer |
| `Evaluate.EvaluateGuess` | src/game/evaluate.ts:13-52 | normalizes, throws `InvalidLength` on a length other than five, and otherwise returns exactly the reference evaluation; entry i carries guess letter i and is correct iff the letters at i match |
| `Evaluate.ScoreWords` | src/game/evaluate.ts:21-44 | the two passes, over an array filled with `absent` and a map of remaining counts, give at each position the reference state `ScoreAt` |
| `Evaluate.EvaluationShape` | src/game/evaluate.ts:28-29 | one entry per guess letter carrying that letter; correct exactly on an exact match; never empty |
| `Evaluate.IsCorrectIffEqual` | src/game/evaluate.ts:51 | `isCorrect` (every state correct) holds iff guess = answer |
| `Evaluate.PresentMarksPrefix` | src/game/evaluate.ts:35-44 | among the first n letters, the present marks on c equal min(unmatched c's of the guess so far, unmatched c's of the whole answer) |
| `Evaluate.CorrectMarksPrefix` | src/game/evaluate.ts:24-33 | among the first n letters, the correct marks on c are the exact matches on c |
| `Evaluate.OccurrencesSplit` | src/game/evaluate.ts:24-33 | in either word, each occurrence of c is either an exact match or unmatched |
| `Evaluate.DuplicateAccounting` | src/game/evaluate.ts:21-44 | present marks on c = min(unmatched c's in the guess, unmatched c's in the answer); correct marks on c = exact matches; correct + present marks on c are at most c's count in the answer and at most c's count in the guess |
| `Evaluate.PresentGoesLeftmost` | src/game/evaluate.ts:35-43 | if a later unmatched occurrence of a letter is present, every earlier unmatched occurrence of that letter is present too |
| `Evaluate.AbsentMeansExhausted` | src/game/evaluate.ts:38-43 | an unmatched letter is absent only when all of the answer's unmatched copies of it went to present marks further left |
| `EvaluateExamples.RejectsWrongLengths` | src/game/evaluate.test.ts:5-8 | ("SHORT", "CAR") and ("SHORT", "LONGER") fail |
| `EvaluateExamples.SameWordIsAllCorrect` | src/game/evaluate.test.ts:10-14 | for any five capital letters W, evaluating (W, W) succeeds, every entry is correct, and `isCorrect` holds |
| `EvaluateExamples.HappyHappy` | src/game/evaluate.test.ts:10-14 | ("HAPPY", "HAPPY") is all correct |
| `EvaluateExamples.BoardCloud` | src/game/evaluate.test.ts:16-20 | answer BOARD, guess CLOUD gives [absent, absent, present, absent, correct], not correct |
| `EvaluateExamples.GraceAlarm` | src/game/evaluate.test.ts:22-26 | answer GRACE, guess ALARM gives [absent, absent, correct, present, absent] |
| `Words.IsValidGuess` | src/data/words.ts:13-16 | reference definition of `isValidGuess` over the allowed set; its contracts are `Words.OnlyFiveLetterWordsAreValid` and `Words.UpperWordIsValidIffAllowed` |
| `Words.UpperWordIsValidIffAllowed` | src/data/words.ts:5-16 | a word of capitals is valid exactly when it has five letters and is itself in the allowed set, since normalizing leaves it unchanged |
| `Words.OnlyFiveLetterWordsAreValid` | src/data/words.ts:13-16 | whatever words are allowed, a word whose length is not five is not valid |
| `Puzzle.CreatePuzzleState` | src/game/puzzleState.ts:17-24 | upper-cased answer, no guesses, nothing typed, playing, no error, empty keyboard; the state satisfies the reachable-state invariant |
| `Puzzle.IsAlphabetic` | src/game/puzzleState.ts:26 | `/^[A-Z]$/`: true exactly for a string that is one capital letter A–Z |
| `Puzzle.InputChar` | src/game/puzzleState.ts:26-34 | the letter is accepted exactly when playing, the input is a single ASCII letter of either case, and fewer than five letters are typed; then its capital is appended and the error cleared; otherwise the state is unchanged |
| `Puzzle.Backspace` | src/game/puzzleState.ts:36-40 | while playing with something typed, exactly the last letter is removed and the error cleared, and nothing else changes; otherwise the state is unchanged |
| `Puzzle.KeyboardAfter` | src/game/puzzleState.ts:46-50 | reference definition of the `forEach` over the letters, as a fold from the left; its contracts are `Puzzle.KeyboardAfterKeys`, `Puzzle.KeyboardAfterIsUpperBound`, `Puzzle.KeyboardAfterIsAttained`, `Puzzle.KeyboardAfterIsMax` and `Puzzle.KeyboardAfterUntouched` |
| `Puzzle.UpdateKeyboard` | src/game/puzzleState.ts:42-52 | the loop over the letters computes the fold `KeyboardAfter` |
| `Puzzle.KeyboardAfterKeys` | src/game/puzzleState.ts:46-50 | the new keys are the old keys plus the guess's letters |
| `Puzzle.KeyboardAfterIsUpperBound` | src/game/puzzleState.ts:46-50 | no key loses rank; each letter ends at least as high as every one of its occurrences |
| `Puzzle.KeyboardAfterIsAttained` | src/game/puzzleState.ts:46-50 | each key ends at its old state or at the state of one of its occurrences |
| `Puzzle.KeyboardAfterIsMax` | src/game/puzzleState.ts:42-52 | each letter ends at the maximum of its old state (or empty) and its occurrences' states; keys are the old ones plus the guess's letters; no key decreases |
| `Puzzle.KeyboardAfterUntouched` | src/game/puzzleState.ts:46-50 | a key that no letter of the guess uses keeps its state and its presence |
| `Puzzle.SubmitGuess` | src/game/puzzleState.ts:54-80 | not playing: unchanged; wrong length: only the error becomes "Not enough letters"; rejected by the dictionary: only the error becomes "Not in word list"; otherwise the guess is scored and appended, input and error cleared, the keyboard merged, and the status set to won if correct, else lost after 6 guesses, else playing; fails only where evaluateGuess throws |
| `Puzzle.PlayingHasAttemptsLeft` | src/game/puzzleState.ts:66-70 | in a reachable playing state, fewer than six guesses have been made and none is correct |
| `Puzzle.LostMeansAllAttemptsWrong` | src/game/puzzleState.ts:66-70 | a reachable lost state has exactly six guesses, none correct |
| `Puzzle.InputCharPreservesInvariant` | src/game/puzzleState.ts:28-34 | inputChar keeps the reachable-state invariant, including "at most five capital letters typed" |
| `Puzzle.BackspacePreservesInvariant` | src/game/puzzleState.ts:36-40 | backspace keeps the reachable-state invariant |
| `Puzzle.SubmitGuessPreservesInvariant` | src/game/puzzleState.ts:54-80 | submitGuess keeps the invariant: at most six guesses; won iff the last guess is correct; lost iff the sixth guess is wrong; nothing typed once over; the keyboard is the merge of all guesses |
| `Puzzle.TerminalIsFrozen` | src/game/puzzleState.ts:28-55 | once the puzzle is won or lost, inputChar, backspace and submitGuess return the state unchanged |
| `Puzzle.SubmitNeverFails` | src/game/puzzleState.ts:64 | in a reachable state whose answer normalizes to five letters, submitting never throws |
| `Puzzle.CorrectGuessWins` | src/game/puzzleState.ts:64-79 | submitting the answer wins immediately and clears the input, on any attempt |
| `Puzzle.WrongGuessRound` | src/game/puzzleState.ts:64-79 | an accepted wrong guess adds exactly one guess, clears the input, and moves to lost exactly when it is the sixth |
| `Puzzle.SubmitWinsIffAnswer` | src/game/puzzleState.ts:66-67 | an accepted guess sets won exactly when it normalizes to the answer |
| `Puzzle.SubmitNeverDowngradesKeyboard` | src/game/puzzleState.ts:42-52 | submitting never lowers any key's rank, and a key changes only if its letter is in the submitted guess |
| `PuzzleExamples.TypingAndBackspace` | src/game/puzzleState.test.ts:12-20 | b, o, 1, backspace, A leaves "BA" typed |
| `PuzzleExamples.ShortGuessIsRefused` | src/game/puzzleState.test.ts:22-28 | submitting "B" sets "Not enough letters" and records no guess |
| `PuzzleExamples.TypedRound` | src/game/puzzleState.ts:54-80 | typing five capitals and submitting them against a five-capital answer records exactly that word's evaluation and merges its letters into the keyboard |
| `PuzzleExamples.AnswerWins` | src/game/puzzleState.test.ts:30-37 | typing and submitting BOARD against BOARD wins with one correct guess and clears the input |
| `PuzzleExamples.SixWrongGuessesLose` | src/game/puzzleState.test.ts:39-47 | six rounds of CLOUD against BOARD give lost with six guesses; a seventh submit is a no-op |
| `PuzzleExamples.KeyboardPriority` | src/game/puzzleState.test.ts:49-61 | after BRING against BOARD, B is correct, R present and I absent; after CROWD, R is still present |

## Left out

- The React application in `src/App.tsx` is not part of this model.
  That includes rendering, hooks, DOM keyboard listeners, toast messages and the timed finale.
  It also includes `usePuzzleManager`, which only holds a list of puzzle states and a cursor around the transitions modelled here.
- The word lists in `./word-bank` and the module-level `Set` built from them are not part of this model.
  The allowed words are a set-valued parameter of `Words.IsValidGuess`.
  `Puzzle.SubmitGuess` instead takes the dictionary check itself as a parameter, the predicate `isValidGuess: string -> bool`.
  `SOLUTION_SEQUENCE` is data and is left out.
- `src/game/constants.ts` is not part of this model.
  The constants are supplied as 5 and 6.
- `Text.ToUpper`: does not model JavaScript's full Unicode upper-casing.
  Only a–z are mapped; every other character is left as it is.
  Every caller passes only A–Z or a–z: `src/App.tsx:105-107` filters key presses with `/^[a-zA-Z]$/`, and `src/App.tsx:13-14` lists only A–Z keys.
- `Puzzle.InputChar`: refuses every character other than a–z and A–Z, while the source's `inputChar` also accepts a character that JavaScript upper-cases to a single A–Z, such as 'ı' (U+0131, to 'I') and 'ſ' (U+017F, to 'S') (`src/game/puzzleState.ts:30-31`).
  This does not matter in the game, because `src/App.tsx:105` passes only ASCII letters to it.
- Lengths are counted in Unicode scalar values, not UTF-16 code units.
  They differ only for characters outside the Basic Multilingual Plane, which the game never accepts as letters.
- The test files are not modelled as code.
  Their cases appear as the example lemmas above.
