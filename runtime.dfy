/**
 * What the Python runtime contributes to the modelled modules: the
 * exceptions they can raise (as error values rather than control flow), the
 * optional value `None`, and the output streams `sys.stdout` and
 * `sys.stderr`, whose only operation used here is `write`.
 */
module Runtime {

  /** The value-or-`None` convention of the Python code. */
  datatype Option<T> = None | Some(value: T)

  /** The Python exceptions that the modelled code can raise. */
  datatype Error =
    | IndexError   // indexing past the end of a string or list (e.g. `s[0]` of "")
    | KeyError     // looking up a missing dictionary key
    | NameError    // referring to a name the module never defines
    | OSError      // asking the file system about a path that does not exist

  /** The outcome of an operation that returns a value or raises. */
  datatype Result<T> = Ok(value: T) | Err(error: Error)

  /** The outcome of an operation that returns nothing or raises. */
  datatype Outcome = Pass | Fail(error: Error)

  /**
   * A text stream such as `sys.stdout` or `sys.stderr`: everything ever
   * written to it, in order.
   */
  class Stream {
    var text: string

    constructor ()
      ensures text == ""
    {
      text := "";
    }

    /** `stream.write(s)`: appends `s`. */
    method Write(s: string)
      modifies this
      ensures text == old(text) + s
    {
      text := text + s;
    }
  }
}
