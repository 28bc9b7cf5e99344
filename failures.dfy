/** The exceptions the command-line client throws or lets through, as values.
    Each constructor stands for one .NET exception type; the fields hold what the
    client puts into it (message, parameter name, the Data dictionary). */
module Failures {

  datatype Error =
    | ArgumentError(message: string)                     // ArgumentException
    | ArgumentNullError(paramName: string)               // ArgumentNullException
    | ArgumentOutOfRangeError(paramName: string, message: string)
    | InvalidOperationError(message: string, data: map<string, string>)
    | FormatError(input: string)                         // FormatException of int.Parse
    | OverflowError(input: string)                       // OverflowException of int.Parse
    | GatewayApiError(statusCode: int)                   // EthernaGatewayApiException
    | HttpRequestError                                   // HttpRequestException
    | WebSocketError                                     // WebSocketException
    | OperationCanceledError                             // OperationCanceledException
    | OtherError(typeName: string)                       // any other exception type

  /** InvalidOperationException with a message and an empty Data dictionary. */
  function InvalidOperation(message: string): Error {
    InvalidOperationError(message, map[])
  }

  /** `new InvalidOperationException()`, which carries .NET's default message. */
  const DefaultInvalidOperation := InvalidOperation("Operation is not valid due to the current state of the object.")

  /** The message .NET gives to `SingleOrDefault` when more than one element matches. */
  const MoreThanOneMatch := "Sequence contains more than one matching element"

  /** The message .NET gives to `First` when no element matches, or the sequence is empty. */
  const NoMatch := "Sequence contains no matching element"
  const NoElements := "Sequence contains no elements"

  /** The exception kinds the chunk upload loop catches and retries. */
  predicate IsTransientUploadError(e: Error) {
    e.HttpRequestError? || e.InvalidOperationError? || e.WebSocketError? || e.OperationCanceledError?
  }
}
