/** Failure-compatible wrappers used throughout the model. */
module Wrappers {

  datatype Option<+T> = None | Some(value: T) {
    predicate IsFailure() { None? }

    function PropagateFailure<U>(): Option<U>
      requires None?
    {
      None
    }

    function Extract(): T
      requires Some?
    {
      value
    }
  }

  datatype Result<+R, +E> = Ok(value: R) | Err(error: E) {
    predicate IsFailure() { Err? }

    function PropagateFailure<U>(): Result<U, E>
      requires Err?
    {
      Err(error)
    }

    function Extract(): R
      requires Ok?
    {
      value
    }
  }
}

/** The exceptions the formatter can raise, one constructor per Python exception site. */
module Errors {

  datatype Error =
    | UnmatchedClosingKey(position: nat)              // SyntaxError intended at tokenizer.py:134
    | SingleClosingBrace                              // ValueError raised instead, formatting the message of tokenizer.py:33-34
    | ChildNotConverted(parent: string, child: string) // RuntimeError, tokenizer.py:163
    | UnknownFunction(name: string)                    // NameError, hformat.py:592
    | TooManyArgs(id: string, allowed: nat, given: nat) // TypeError, hformat.py:602
    | TooFewArgs(id: string, mandatory: nat, given: nat) // TypeError, hformat.py:607
    | MalformedArgDescriptor(id: string)               // IndexError on `m[1]`, hformat.py:599
    | UnpackMismatch(separator: char)                  // ValueError of a two-name unpacking of split()
    | MissingKey(key: string)                          // KeyError on `args['size']`
    | NoneArgument(key: string)                        // TypeError/AttributeError on a None argument
    | InvalidInteger(text: string)                     // ValueError of int()
    | ZeroDivision                                     // `i % 0` in canvas filling
    | UnboundMultifill                                 // `multifill` read before assignment
    | EvaluationFailed(expression: string)             // any eval error other than NameError
}
