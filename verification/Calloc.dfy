/** `malloc`, `calloc` and `zalloc`: any call may be refused, and the refusals are counted. */
module Allocation {
  class Calloc {
    ghost var refused: nat

    constructor ()
      ensures refused == 0
    {
      refused := 0;
    }

    method Refuses() returns (no: bool)
      modifies this
      ensures refused == old(refused) + if no then 1 else 0
    {
      no := false;
      if * {
        refused := refused + 1;
        no := true;
      }
    }
  }
}
