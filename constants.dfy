/** The two constants of the game: the length of every word and the number of attempts per puzzle. */
module Constants {

  /** WORD_LENGTH: every answer and every guess has five letters. */
  const WordLength: nat := 5

  /** MAX_ATTEMPTS: a puzzle is lost after six incorrect guesses. */
  const MaxAttempts: nat := 6
}
