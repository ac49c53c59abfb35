/** Failure-compatible wrappers shared by every module of the model, and the
    errors the prediction request can end in. Python raises these as
    exceptions that nothing catches; here they are values. */
module Results {

  datatype Option<+T> = None | Some(value: T)

  /** The unrecovered exceptions of one prediction request. */
  datatype Error =
    | MissingFormField(field: string)        // request.form[...] raises KeyError
    | MissingFrameColumn(column: string)     // df['full_text'] on a frame built from no posts
    | UnknownAlgorithm(name: string)         // algoNameMap[name] raises KeyError
    | ScoreIndexOutOfRange(index: int)       // liwcdata[i] raises IndexError
    | MissingColumns(columns: seq<string>)   // Xnew[columns] raises KeyError naming the absent columns
    | External(message: string)              // raised inside a collaborator (scoring API, model or matrix file)

  datatype Result<+T> = Ok(value: T) | Err(error: Error) {

    predicate IsFailure() {
      Err?
    }

    function PropagateFailure<U>(): Result<U>
      requires Err?
    {
      Err(error)
    }

    function Extract(): T
      requires Ok?
    {
      value
    }
  }
}
