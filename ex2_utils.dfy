/** The constants of the assignment's `Ex2Utils` class that the core reads.
    Only their distinctness matters to the model; the error strings are the
    values the repository's tests compare against. */
module Ex2Utils {

  /** The column names, one upper-case letter each. */
  const ABC: seq<string> := ["A", "B", "C", "D", "E", "F", "G", "H", "I", "J", "K", "L", "M",
                             "N", "O", "P", "Q", "R", "S", "T", "U", "V", "W", "X", "Y", "Z"]

  const ERR_FORM: string := "ERR_FORM!"
  const ERR_CYCLE: string := "ERR_CYCLE!"
  const EMPTY_CELL: string := ""

  /** Cell types. */
  const TEXT: int := 1
  const NUMBER: int := 2
  const FORM: int := 3

  /** The i-th column name is the i-th upper-case letter. */
  lemma ABCIsAlphabet(i: nat)
    requires i < 26
    ensures |ABC| == 26 && |ABC[i]| == 1 && ABC[i][0] as int == 'A' as int + i
  {
  }
}
