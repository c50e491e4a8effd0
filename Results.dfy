/** Option/Result/Outcome values, and the exceptions the modelled C# code can raise. */
module Results {

  datatype Option<+T> = None | Some(value: T)

  datatype Result<+T, +E> = Success(value: T) | Failure(error: E)

  datatype Outcome<+E> = Pass | Fail(error: E)

  /** The .NET exceptions that the modelled members throw. */
  datatype Exception =
    | DivideByZero       // System.DivideByZeroException
    | Overflow           // System.OverflowException (int.MinValue / -1)
    | IndexOutOfRange    // System.IndexOutOfRangeException
    | InvalidButton      // "Button.ButtonCount is not a valid button"
    | NullReference      // System.NullReferenceException
    | DuplicateKey       // System.ArgumentException from Dictionary.Add
    | ArgumentOutOfRange // System.ArgumentOutOfRangeException from String.Remove
}
