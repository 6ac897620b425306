/** The literals of constants.go: the ANSI colour markers embedded in every
    report line, the porcelain status prefixes that mark an unmerged path, and
    the attempt budget of the fetch retry loop. */
module Constants {

  /** Escape sequence that starts light-red text (failures and drift). */
  const LightRed: string := "\U{1b}[91m"
  /** Escape sequence that starts light-green text (up-to-date lines). */
  const LightGreen: string := "\U{1b}[92m"
  /** Escape sequence that resets the text style. */
  const Reset: string := "\U{1b}[0m"

  /** Porcelain prefix of a path that is unmerged. */
  const Unmerged: string := "U "
  /** Porcelain prefix of an unmerged path added by the other side. */
  const UnmergedAdded: string := "UA"
  /** Porcelain prefix of an unmerged path deleted on the current side. */
  const UnmergedDeleted: string := "UD"
  /** Porcelain prefix of a path modified on both sides. */
  const MergeConflictBothSides: string := "UU"

  /** The number of fetch attempts the sequencers allow. */
  const MaxFetchBranchAttempts: int := 30
}
