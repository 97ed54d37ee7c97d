/** Result and error types shared by the model. Each error stands for an
    exception the game's code raises (or lets a library call raise). */
module Results {

  /** The exceptions of the modelled code. */
  datatype Error =
    | EmptyCurve       // SimpleCurve evaluated with no points
    | DivisionByZero   // lerp_xy reached with x1 == x2
    | EmptyPopulation  // random.choices given no entities (its weight list is empty)
    | EmptyRange       // random.randint(lo, hi) with hi < lo
    | NotInList        // list.index of a value that is not in the list

  datatype Result<+T> = Ok(value: T) | Err(error: Error) {
    predicate IsFailure() { Err? }
    function PropagateFailure<U>(): Result<U>
      requires Err?
    {
      Err(error)
    }
    function Extract(): T
      requires Ok?
    {
      value
    }
  }

  datatype Option<+T> = None | Some(value: T)

  /** A method's outcome when it returns nothing but may raise. */
  datatype Outcome = Pass | Fail(error: Error)
}
