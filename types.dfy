/** The values the evaluator produces (src/game/types.ts). */
module Types {

  /** The classification of one letter of a guess, or `Empty` for a key not yet seen. */
  datatype LetterState = Correct | Present | Absent | Empty

  /** One letter of a guess together with its classification. */
  datatype LetterResult = LetterResult(letter: char, state: LetterState)

  /** The scored guess: its letters in order and whether every one of them is `Correct`. */
  datatype GuessEvaluation = GuessEvaluation(letters: seq<LetterResult>, isCorrect: bool)
}
