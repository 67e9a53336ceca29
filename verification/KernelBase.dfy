/** What the modules share. */
module KernelBase {
  /** One shell per terminal; shells have the pids below this number. */
  const SHELLS: nat := 3

  type Byte = x: nat | x < 256

  const WORDS: nat := 0x1_0000_0000
  type Word = x: nat | x < WORDS

  const NUL: char := '\0'

  ghost predicate Distinct<T>(s: seq<T>) {
    forall i, j :: 0 <= i < j < |s| ==> s[i] != s[j]
  }
}
