/** The optional values, results and errors that every stage of the model returns. */
module Outcomes {

  /** An optional value, used for lookups that may find nothing. */
  datatype Option<+T> = None | Some(value: T)

  /** The ways a stage can fail. Each one names the Python exception it stands for. */
  datatype Error =
    | NotADataFrame       // AssertionError: `isinstance(X, pd.DataFrame)` does not hold
    | Uninterpretable     // ValueError: the selector spec has none of the recognised shapes
    | KeyNotFound         // KeyError from `.loc`: a requested label is absent
    | MaskLengthMismatch  // IndexError from `.loc`: a boolean mask of the wrong length
    | UnknownDtype        // TypeError from `select_dtypes`: the dtype tag is not understood
    | NotFitted           // AttributeError: `transform` reads state that only `fit` sets
    | NotCallable         // AssertionError in `ApplyFunction.__init__`
    | UnknownMethod       // AssertionError in `PandasMethod.__init__`

  /** Either a value or the error that stopped the computation; usable with `:-`. */
  datatype Result<+T> = Ok(value: T) | Err(error: Error) {

    predicate IsFailure() {
      Err?
    }

    function PropagateFailure<U>(): Result<U>
      requires Err?
    {
      Err(error)
    }

    function Extract(): T
      requires Ok?
    {
      value
    }
  }
}
