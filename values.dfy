/**
 * The interpreter's data: the `LispValue` sum type together with the
 * `LispLambda` closure (etoiletoi-kt/src/main/kotlin/lisp.kt, lines 1-10 and
 * 64-68), and the ways an evaluation can fail.
 */
module LispValues {

  /** Index of an environment frame in the store (see module Environments). */
  type FrameId = nat

  /**
   * `LispNumber` holds a JVM `Double` in the source; here it is an integer
   * (the arithmetic the interpreter does is addition only).
   * `Lambda` is `LispLambda`: parameter list, unevaluated body and the frame
   * that was current when the `lambda` form was evaluated. The frame is held
   * by index, so every closure made in the same frame shares it.
   */
  datatype Value =
    | Number(n: int)
    | Symbol(name: string)
    | List(items: seq<Value>)
    | Bool(b: bool)
    | Lambda(params: seq<Value>, body: Value, env: FrameId)

  /** The messages `LispException` is thrown with, one constructor per throw site. */
  datatype LispError =
    | UnexpectedEof                    // "Unexpected EOF while parsing"
    | UnexpectedClose                  // "Unexpected ')' while parsing"
    | UnboundSymbol(name: string)      // "Unbound symbol '...'"
    | EmptyList                        // "Empty list"
    | InvalidExpression                // "Invalid expression"
    | NotAFunction(name: string)       // "'...' is not a function"
    | QuoteArity                       // "quote requires only one argument"
    | IfArity                          // "if requires three arguments"
    | DefineArity                      // "define requires only two argument"
    | DefineNeedsSymbol                // "define requires a symbol as its first argument"
    | LambdaArity                      // "lambda requires two arguments"
    | InvalidArgumentList              // "Invalid argument list"
    | SetArity                         // "set! requires only two arguments"
    | SetNeedsSymbol                   // "set! requires a symbol as its first argument"
    | SetNotDefined(name: string)      // "'...' is not defined"  (evalSet)
    | NotDefinedInContext(name: string) // "... is not defined in this context"  (Environment.set)

  /** Failures of the JVM itself, which the source does not raise as `LispException`. */
  datatype HostCrash =
    | ClassCast        // `as LispSymbol` on a parameter, `as LispNumber` in `+`
    | IndexOutOfBounds // `args[index]` when a closure gets fewer operands than parameters
    | IllegalArgument  // `subList(1, 0)` on the operands of a closure-headed list with no operands

  datatype Error =
    | Lisp(lisp: LispError)
    | Host(crash: HostCrash)
    | Exhausted        // the fuel bound was reached: the source would recurse until the stack overflows

  datatype Result<+T> = Ok(value: T) | Err(error: Error)
}
