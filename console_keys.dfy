/** The console keys the program reacts to (a subset of .NET's `ConsoleKey`). */
module ConsoleKeys {
  /** `P` pauses, `R` resumes, `S` and `Escape` cancel, `Enter` confirms;
      every other key of the keyboard is `Other`, told apart by its code. */
  datatype Key = P | R | S | Escape | Enter | Other(code: nat)

  /** A key that cancels the countdown. */
  predicate IsCancel(k: Key) {
    k == S || k == Escape
  }
}
