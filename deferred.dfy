/**
 * `Deferred`: a set-once cell. Its waiter list and the suspension of
 * waiting fibers are not modelled; a wait that has not been satisfied is
 * visible as an empty cell.
 */
module Deferreds {
  import opened DataTypes
  import opened Exits

  class Deferred<E, A> {
    /** `None` while pending; the stored exit once completed. */
    var result: Option<Exit<E, A>>

    /** `Deferred.make`: a pending cell. */
    constructor ()
      ensures result == None
    {
      result := None;
    }

    /**
     * `completeWith`: stores `exit` if the cell is still pending, and says
     * whether this call was the one that completed it.
     */
    method CompleteWith(exit: Exit<E, A>) returns (won: bool)
      modifies this
      ensures won <==> old(result).None?
      ensures result == if won then Some(exit) else old(result)
    {
      won := result.None?;
      if won {
        result := Some(exit);
      }
    }

    /** `succeed`. */
    method Succeed(a: A) returns (won: bool)
      modifies this
      ensures won <==> old(result).None?
      ensures result == if won then Some(Success(a)) else old(result)
    {
      won := CompleteWith(Success(a));
    }

    /** `failCause`. */
    method FailCause(cause: Cause<E>) returns (won: bool)
      modifies this
      ensures won <==> old(result).None?
      ensures result == if won then Some(Failure(cause)) else old(result)
    {
      won := CompleteWith(Failure(cause));
    }
  }
}
