/**
 * Error kinds raised by the G# interpreter, and the failure-compatible
 * result type every fallible operation of the model returns.
 *
 * The interpreter signals every problem by throwing one message object;
 * here each distinct throw site becomes one constructor, and the exception
 * becomes an early `Err` return.
 */
module Errors {

  datatype Error =
    // line normaliser
    | NoClosingComment            // '(' comment without its ')'
    | UnexpectedCharacter         // forbidden character outside comments
    | IllFormedNword              // 'n' not followed by a digit
    | IllFormedOword              // 'o' not followed by a digit
    | ONumberOutOfRange           // the library reader's range error on an O-number
    // expression evaluator
    | EmptyOperand
    | UnexpectedAfterParameter
    | UnexpectedOperand
    | UnexpectedAfterValue
    | InvalidNumber               // the library number reader found no number at all
    | IllFormedExpression         // '[]'
    | AssignmentInExpression
    | NoClosingBracket
    | AcosOutOfRange
    | AsinOutOfRange
    | NegativeSqrt
    | IllFormedAtan
    | ExpTooBig
    // parameter store
    | InternalParametersExhausted
    | BadParameterIndex           // '#' not followed by a digit
    | NoSuchParameter             // index 0 or above the parameter space
    | BadAssignedValue
    | ParameterOutOfRange         // SetParam / GetParam outside 1..5602
    | NoSuchSourceLine
    // block resolver
    | TooManyPercents
    | NoClosingPercent
    | UnexpectedOcode             // continuation/closing keyword on a new number
    | UnrecognisedOcode
    | BlockAlreadyFinished
    | ONumberAlreadyUsed
    | UnexpectedBlockCommand
    | BlockWithoutEnd
    // execution stepper
    | BlockNotFound
    | SubNotFound
    | StackOverflow
    | StackUnderrun
    | NoArguments

  datatype Result<+T> = Ok(value: T) | Err(error: Error) {
    predicate IsFailure() { Err? }
    function PropagateFailure<U>(): Result<U> requires Err? { Err(error) }
    function Extract(): T requires Ok? { value }
  }

  datatype Option<+T> = None | Some(value: T)
}
