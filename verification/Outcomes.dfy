/** Vocabulary shared by the models: optional values, and how one effect of the host can end. */
module Outcomes {

  datatype Option<+T> = None | Some(value: T)

  /** An effect succeeds, raises an ordinary exception, or is the last thing the process ever does. */
  datatype Outcome = Ok | Raised | Crashed

  /**
   * What befalls the process at one point of its execution. With `faulty` the choice is
   * arbitrary; without it the backend works and no power is lost.
   */
  method Fate(faulty: bool) returns (o: Outcome)
    ensures !faulty ==> o.Ok?
  {
    o := *;
    if !faulty {
      o := Ok;
    }
  }
}
