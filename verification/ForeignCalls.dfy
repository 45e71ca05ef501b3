/** Calls into code that is not modelled: each may fail, and how many did is counted, so that a contract can say what
    happens when none does. */
module ForeignCalls {
  class Calls {
    ghost var failed: nat

    constructor ()
      ensures failed == 0
    { failed := 0; }

    ghost method Count(ok: bool)
      modifies this
      ensures failed == old(failed) + if ok then 0 else 1
    { if !ok { failed := failed + 1; } }
  }
}
