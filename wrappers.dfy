/** Option, Result and the exceptions the checking code can raise. */
module Wrappers {

  datatype Option<+T> = None | Some(value: T) {
    predicate IsFailure() { None? }
    function PropagateFailure<U>(): Option<U> requires None? { None }
    function Extract(): T requires Some? { value }
  }

  /** The Python exceptions that end a task, as values. */
  datatype Error =
    | UnsupportedNOS(nos: string)      // app_exception.UnsupportedNOS
    | SubstringNotFound(sub: string)   // ValueError raised by str.index
    | NoMatch(pattern: string)         // AttributeError: re.search/re.match gave None and .group() was called
    | ModeUndetermined(name: string)   // ValueError('Can not determine interface ... mode')
    | MissingKey(key: string)          // KeyError on a dictionary lookup
    | BadFormat                        // IndexError/ValueError raised by str.format
    | MissingAttribute(attr: string)   // AttributeError on an attribute that was never assigned
    | NoReply(command: string)         // the session has no output left for a command
    | NotText                          // TypeError: re.search was given None instead of a string

  datatype Result<+T> = Ok(value: T) | Fail(error: Error) {
    predicate IsFailure() { Fail? }
    function PropagateFailure<U>(): Result<U> requires Fail? { Fail(error) }
    function Extract(): T requires Ok? { value }
  }
}
