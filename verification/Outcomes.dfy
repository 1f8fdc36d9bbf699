/** Shared result types. */
module Outcomes {

  datatype Option<+T> = None | Some(value: T)

  datatype Result<+T, +E> = Ok(value: T) | Err(error: E)

  lemma Occupied(s: set<int>)
    requires s != {}
    ensures exists i :: i in s
  {
    if forall i :: i !in s { assert false; }
  }
}
