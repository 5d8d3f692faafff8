/** Memory that may run out. */
module Memory {
  /** One request. It is met for sure only where there is plenty. */
  method Ask(plenty: bool) returns (got: bool)
    ensures plenty ==> got
  {
    got := *;
    if plenty {
      got := true;
    }
  }
}
