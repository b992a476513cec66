/**
 * The policy constants of SignalHandlerInterface: what a dispatcher does
 * about the handler that was installed before it.
 */
module Policy {
  /** Silently override the previous handler. */
  const PrevReplace: int := 1
  /** Restore the previous handler when the subscriber stack goes empty. */
  const PrevRestore: int := 2
  /** Refuse to install over a previous handler; also restores, since 3 == 1 | 2. */
  const PrevError: int := 3
  /** Re-raise the signal once the stack has gone empty. */
  const PrevRecall: int := 4

  /**
   * `flags & bit` is non-zero for a single-bit `bit`. Floor division gives
   * the bits of the two's complement representation PHP uses, negative
   * flags included; Dafny's `/` is floor division for a positive divisor.
   */
  predicate BitSet(flags: int, bit: int)
    requires bit > 0
  {
    (flags / bit) % 2 == 1
  }

  predicate Restores(flags: int) {
    BitSet(flags, PrevRestore)
  }

  predicate Recalls(flags: int) {
    BitSet(flags, PrevRecall)
  }

  /**
   * The modes as bit sets: PREV_ERROR carries the PREV_RESTORE bit and not
   * PREV_RECALL; PREV_REPLACE carries neither, so it never acts in restore.
   */
  lemma ModeBits()
    ensures Restores(PrevRestore) && !Recalls(PrevRestore)
    ensures Restores(PrevError) && !Recalls(PrevError)
    ensures !Restores(PrevReplace) && !Recalls(PrevReplace)
    ensures Recalls(PrevRecall) && !Restores(PrevRecall)
  {
  }
}
