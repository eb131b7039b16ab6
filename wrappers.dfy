/**
 * Failure-carrying result types shared by every component, and the closed
 * set of ways a compilation can fail. Each error names the Python exception
 * or assertion of the original compiler it stands for.
 */
module Wrappers {

  datatype Option<+T> = None | Some(value: T)

  /** What the compiler raises. Every failure aborts the compilation. */
  datatype Error =
    | UnboundName            // KeyError from an environment lookup
    | DuplicateDeclaration   // assertion in Env.declare
    | NotDeclared            // assertion in Env.set
    | RootScope              // an Env-only operation attempted on the root (BaseEnv)
    | NoParent               // assertion in Env.outer_get (never raised: phase two gives every Env a parent)
    | UnknownMacro           // KeyError looking up a user macro
    | UnknownBuiltin         // KeyError looking up a built-in macro
    | ArityMismatch          // argument count differs from parameter count
    | Aliasing               // assertion in assert_no_aliasing
    | LoopImbalance          // assertion in Machine.do_end_loop
    | EmptyLoopStack         // pop from an empty loop stack
    | OutOfRange             // assertion in Machine.validate
    | NegativeCount          // assertion n >= 0
    | BadOpcode              // assertion in Machine.do_unvalidated_bf
    | UnknownOperation       // ValueError from the evaluator's default dispatch
    | DoubleFree             // KeyError removing an unoccupied cell
    | Malformed              // a shape assertion (is_stack_address, a failed structural match, ...)
    | NotCallable            // TypeError calling something that is not a built-in
    | UnmatchedClose         // die() on "]" without "[" in the assembly translator
    | FuelExhausted          // the model's bound on an unbounded fixed-point loop

  datatype Result<+T> = Ok(value: T) | Err(error: Error) {
    predicate IsFailure() { Err? }
    function PropagateFailure<U>(): Result<U>
      requires Err?
    {
      Err(error)
    }
    function Extract(): T
      requires Ok?
    {
      value
    }
  }

  datatype Outcome = Pass | Fail(error: Error) {
    predicate IsFailure() { Fail? }
    function PropagateFailure(): Outcome
      requires Fail?
    {
      this
    }
  }
}
