/** The dictionary check of src/data/words.ts. */
module Words {
  import opened Text

  /**
   * isValidGuess: a five-letter word whose normalized form is in the allowed set. The set
   * itself is built from word lists that are not part of this model, so it is a parameter.
   */
  predicate IsValidGuess(allowed: set<string>, word: string)
  {
    |word| == 5 && Normalize(word) in allowed
  }

  /** Whatever the allowed words are, a word without five letters is refused. */
  lemma OnlyFiveLetterWordsAreValid(allowed: set<string>, word: string)
    requires |word| != 5
    ensures !IsValidGuess(allowed, word)
  {
  }

  /** A word typed in capitals is valid exactly when it has five letters and is itself allowed. */
  lemma UpperWordIsValidIffAllowed(allowed: set<string>, word: string)
    requires IsUpperWord(word)
    ensures IsValidGuess(allowed, word) <==> |word| == 5 && word in allowed
  {
    NormalizeUpperWord(word);
  }
}
