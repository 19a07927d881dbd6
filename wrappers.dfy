/** Optional values, the Python exceptions the core can raise, and a
    failure-compatible Result for modelling them as return values. */
module Wrappers {

  datatype Option<+T> = None | Some(value: T)

  /** The exception classes that reach the indexing engine's callers or are
      caught by it.  JSONDecodeError is the error `json.load` raises;
      NotRarFile is what `rarfile` raises for a file that is not a rar
      archive at all, NoRarEntry what it raises for a member name the
      archive does not hold. */
  datatype Exc =
    | ValueError
    | TypeError
    | KeyError
    | IndexError
    | AttributeError
    | AssertionError
    | OSError
    | RuntimeError
    | RecursionError
    | JSONDecodeError
    | BadZipFile
    | BadRarFile
    | NotRarFile
    | NoRarEntry
    | PasswordRequired

  datatype Result<+T> = Ok(value: T) | Err(error: Exc) {
    predicate IsFailure() {
      Err?
    }

    function PropagateFailure<U>(): Result<U>
      requires Err?
    {
      Err(error)
    }

    function Extract(): T
      requires Ok?
    {
      value
    }
  }
}
