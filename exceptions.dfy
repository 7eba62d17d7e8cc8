/**
 * The exceptions that cross the core: the JWT library's, ActiveRecord's and
 * Rails' own. An operation that may raise returns a `Result`.
 */
module Exceptions {

  datatype Exception =
    /** JWT::DecodeError (malformed token, or raised by the application itself) */
    | DecodeError(message: string)
    /** JWT::VerificationError, a subclass of JWT::DecodeError */
    | VerificationError(message: string)
    /** JWT::IncorrectAlgorithm, a subclass of JWT::DecodeError */
    | IncorrectAlgorithm(message: string)
    /** JWT::ExpiredSignature, a subclass of JWT::DecodeError */
    | ExpiredSignature(message: string)
    /** ActiveRecord::RecordNotFound */
    | RecordNotFound(message: string)
    /** ActiveRecord::RecordInvalid, carrying `record.errors.full_messages` */
    | RecordInvalid(messages: seq<string>)
    /** ArgumentError (an enum assigned a value outside its mapping) */
    | ArgumentError(message: string)
    /** ActionController::ParameterMissing, from `params.require` */
    | ParameterMissing(param: string)

  /** `e.is_a?(JWT::DecodeError)`. */
  predicate IsDecodeError(e: Exception) {
    e.DecodeError? || e.VerificationError? || e.IncorrectAlgorithm? || e.ExpiredSignature?
  }

  /** The value an expression evaluates to, or the exception it raises. */
  datatype Result<+T> = Ok(value: T) | Raise(error: Exception)
}
