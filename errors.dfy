/** `handle_errors`: the ordered decision the adapter makes on every HTTP reply, over the
    status code and the `error` object the exchange may put in the body. Raising an
    exception is an outcome value here. */
module Errors {
  import opened Base

  /** The `error` object of a reply body: its `code` (as read by `safe_integer`) and its
      `message` (as read by `safe_string`), each possibly absent. */
  datatype ErrorField = ErrorField(code: Option<int>, message: Option<string>)

  /** The decoded reply: no body at all (`None`), or a body with or without an `error` key. */
  datatype Reply = NoBody | Body(error: Option<ErrorField>)

  /** The framework's exception classes that `handle_errors` raises. */
  datatype ErrorKind = ExchangeError | InsufficientFunds | AuthenticationError

  /** The reply is handed back, an exception of the adapter's choosing is raised with its
      message, or the handler itself fails with a Python error. */
  datatype Outcome = Returned | Raised(kind: ErrorKind, message: Option<string>) | Crashed(error: PyError)

  const Overloaded := "Exchange Overloaded"
  const UnknownError := "Unknown error"
  const InvalidResponse := "Invalid response from exchange: "

  predicate IsOverloaded(status: int)
  {
    status == 503 || status == 502
  }

  predicate IsSuccess(status: int)
  {
    status == 200 || status == 201
  }

  /** The error object's code, when the reply has an error object that has one. */
  function ErrorCode(reply: Reply): Option<int>
  {
    if reply.Body? && reply.error.Some? then reply.error.value.code else None
  }

  /** The message the handler ends up with: "Unknown error" unless an error code was read,
      in which case it is whatever `message` holds, absent included. */
  function MessageAsWritten(reply: Reply): Option<string>
  {
    if ErrorCode(reply).Some? then reply.error.value.message else Some(UnknownError)
  }

  /** The codes the handler recognises as it runs: 2002, 2005 and 1001. Code 2007 is
      compared by object identity with a freshly parsed integer, which CPython does not
      satisfy for integers outside its small-integer cache, so it is not among them. */
  function CodeKindAsWritten(code: int): Option<ErrorKind>
  {
    if code == 2002 then Some(InsufficientFunds)
    else if code == 2005 then Some(AuthenticationError)
    else if code == 1001 then Some(ExchangeError)
    else None
  }

  /** `handle_errors` as the code behaves. */
  function HandleErrorsAsWritten(status: int, reply: Reply): (o: Outcome)
    ensures IsOverloaded(status) ==> o == Raised(ExchangeError, Some(Overloaded))
    ensures o.Returned? <==>
      !IsOverloaded(status) && IsSuccess(status) &&
      (ErrorCode(reply).None? || CodeKindAsWritten(ErrorCode(reply).value).None?)
    ensures o.Crashed? <==>
      !IsOverloaded(status) && !IsSuccess(status) && ErrorCode(reply).Some? &&
      CodeKindAsWritten(ErrorCode(reply).value).None? && reply.error.value.message.None?
    ensures !IsOverloaded(status) && ErrorCode(reply).Some? && CodeKindAsWritten(ErrorCode(reply).value).Some? ==>
      o == Raised(CodeKindAsWritten(ErrorCode(reply).value).value, reply.error.value.message)
    ensures (!IsOverloaded(status) && !IsSuccess(status) &&
             (ErrorCode(reply).None? || CodeKindAsWritten(ErrorCode(reply).value).None?) &&
             MessageAsWritten(reply).Some?) ==>
      o == Raised(ExchangeError, Some(InvalidResponse + MessageAsWritten(reply).value))
  {
    if IsOverloaded(status) then Raised(ExchangeError, Some(Overloaded))
    else
      var code := ErrorCode(reply);
      var msg := MessageAsWritten(reply);
      if code.Some? && CodeKindAsWritten(code.value).Some? then Raised(CodeKindAsWritten(code.value).value, msg)
      else if !IsSuccess(status) then
        if msg.Some? then Raised(ExchangeError, Some(InvalidResponse + msg.value))
        else Crashed(TypeError("can only concatenate str (not \"NoneType\") to str"))
      else Returned
  }

  /** An error body carrying code 2007 on a successful status is handed back to the caller as
      if it were data, and on a failed status it is reported only as an invalid response. */
  lemma Code2007FallsThrough(message: string)
    ensures HandleErrorsAsWritten(200, Body(Some(ErrorField(Some(2007), Some(message))))) == Returned
    ensures HandleErrorsAsWritten(401, Body(Some(ErrorField(Some(2007), Some(message)))))
         == Raised(ExchangeError, Some(InvalidResponse + message))
  {
  }

  /** A failed status whose error object has an unrecognised code and no message makes the
      handler concatenate a string with `None`. */
  lemma MissingMessageCrashes()
    ensures HandleErrorsAsWritten(400, Body(Some(ErrorField(Some(9999), None)))).Crashed?
  {
  }

  /** The codes as evidently meant: 2005 and 2007 both mean an authentication failure. */
  function CodeKind(code: int): (k: Option<ErrorKind>)
    ensures k == Some(AuthenticationError) <==> code == 2005 || code == 2007
    ensures k == Some(InsufficientFunds) <==> code == 2002
    ensures k == Some(ExchangeError) <==> code == 1001
  {
    if code == 2002 then Some(InsufficientFunds)
    else if code == 2005 || code == 2007 then Some(AuthenticationError)
    else if code == 1001 then Some(ExchangeError)
    else None
  }

  /** The message as evidently meant: the error's own message, or "Unknown error". */
  function Message(reply: Reply): string
  {
    if ErrorCode(reply).Some? && reply.error.value.message.Some? then reply.error.value.message.value
    else UnknownError
  }

  /** `handle_errors` as evidently intended: overload first, then the recognised codes, then
      the status; the handler never fails itself. */
  function HandleErrors(status: int, reply: Reply): (o: Outcome)
    ensures !o.Crashed?
    ensures IsOverloaded(status) ==> o == Raised(ExchangeError, Some(Overloaded))
    ensures !IsOverloaded(status) && ErrorCode(reply).Some? && CodeKind(ErrorCode(reply).value).Some? ==>
      o == Raised(CodeKind(ErrorCode(reply).value).value, Some(Message(reply)))
    ensures o.Returned? <==>
      !IsOverloaded(status) && IsSuccess(status) &&
      (ErrorCode(reply).None? || CodeKind(ErrorCode(reply).value).None?)
    ensures (!IsOverloaded(status) && !IsSuccess(status) &&
             (ErrorCode(reply).None? || CodeKind(ErrorCode(reply).value).None?)) ==>
      o == Raised(ExchangeError, Some(InvalidResponse + Message(reply)))
  {
    if IsOverloaded(status) then Raised(ExchangeError, Some(Overloaded))
    else
      var code := ErrorCode(reply);
      if code.Some? && CodeKind(code.value).Some? then Raised(CodeKind(code.value).value, Some(Message(reply)))
      else if !IsSuccess(status) then Raised(ExchangeError, Some(InvalidResponse + Message(reply)))
      else Returned
  }

  /** The corrected handler differs from the code as written only where the code as written
      crashes, on code 2007, or on a recognised code sent without a message. */
  lemma CorrectionIsLocal(status: int, reply: Reply)
    requires !HandleErrorsAsWritten(status, reply).Crashed?
    requires ErrorCode(reply) != Some(2007)
    requires ErrorCode(reply).Some? ==> reply.error.value.message.Some?
    ensures HandleErrors(status, reply) == HandleErrorsAsWritten(status, reply)
  {
  }
}
