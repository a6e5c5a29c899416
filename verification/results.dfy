/** Python's `None`-or-value and the exceptions the modelled code can raise. */
module Results {

  /** A loop variable that starts as Python's `None`. */
  datatype Option<T> = None | Some(value: T)

  /** The Python exceptions raised by the modelled code on bad input. */
  datatype Error = IndexError | ZeroDivisionError

  datatype Result<T> = Ok(value: T) | Err(error: Error)

  /** The last element of a sequence, if any: the value a `for` loop variable keeps after the loop. */
  function LastOf<T>(s: seq<T>): Option<T>
  {
    if |s| == 0 then None else Some(s[|s| - 1])
  }
}
