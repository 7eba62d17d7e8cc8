/**
 * The `rescue_from` table of app/controllers/application_controller.rb and
 * its three handlers: each maps an exception to an HTTP status and a list
 * of error entries {status, title, detail}. Exceptions outside the table
 * are not handled here and propagate.
 */
module ApplicationController {
  import opened RubyCore
  import opened Exceptions

  /** The HTTP statuses the API renders. */
  const StatusOk: nat := 200
  const StatusCreated: nat := 201
  const StatusNoContent: nat := 204
  const StatusUnauthorized: nat := 401
  const StatusNotFound: nat := 404
  const StatusUnprocessableContent: nat := 422

  const AuthenticationErrorDetail: string := "Invalid or missing authentication token"

  datatype ErrorEntry = ErrorEntry(status: string, title: string, detail: string)

  /** `render json: { errors: [...] }, status: ...` */
  datatype Envelope = Envelope(status: nat, errors: seq<ErrorEntry>)

  /** What an action ends in: a rendered body, an empty `head`, an error
      envelope, or an exception that no handler catches. */
  datatype Response<+B> =
    | Render(status: nat, body: B)
    | Head(status: nat)
    | Errors(envelope: Envelope)
    | Unhandled(exception: Exception)

  /** Every entry repeats the envelope's HTTP status, as a string. */
  predicate StatusesAgree(e: Envelope) {
    forall i :: 0 <= i < |e.errors| ==> e.errors[i].status == Decimal(e.status)
  }

  /** `handle_authentication_error`: one fixed entry; the exception's
      message is not used. */
  function AuthenticationError(): (e: Envelope)
    ensures e.status == StatusUnauthorized && StatusesAgree(e)
    ensures Details(e.errors) == [AuthenticationErrorDetail]
  {
    assert Decimal(401) == "401";
    Envelope(StatusUnauthorized, [ErrorEntry("401", "Unauthorized", AuthenticationErrorDetail)])
  }

  /** `handle_not_found`: one entry whose detail is the exception's message. */
  function NotFoundError(message: string): (e: Envelope)
    ensures e.status == StatusNotFound && StatusesAgree(e)
    ensures Details(e.errors) == [message]
  {
    assert Decimal(404) == "404";
    Envelope(StatusNotFound, [ErrorEntry("404", "Not Found", message)])
  }

  /** The `map` over `full_messages` in `handle_validation_error`. */
  function ValidationEntries(messages: seq<string>): (entries: seq<ErrorEntry>)
    ensures |entries| == |messages|
    ensures forall i :: 0 <= i < |entries| ==>
      entries[i].status == "422" && entries[i].title == "Invalid params"
  {
    if messages == [] then []
    else [ErrorEntry("422", "Invalid params", messages[0])] + ValidationEntries(messages[1..])
  }

  /** The details of a list of entries, in order. */
  function Details(entries: seq<ErrorEntry>): (details: seq<string>)
    ensures |details| == |entries|
  {
    if entries == [] then [] else [entries[0].detail] + Details(entries[1..])
  }

  /** One entry per validation message, carrying the messages in order. */
  lemma {:induction false} ValidationEntriesDetails(messages: seq<string>)
    ensures Details(ValidationEntries(messages)) == messages
  {
    if messages != [] {
      ValidationEntriesDetails(messages[1..]);
    }
  }

  /** `handle_validation_error`: one entry per full message, in order. */
  function ValidationError(messages: seq<string>): (e: Envelope)
    ensures e.status == StatusUnprocessableContent && StatusesAgree(e)
    ensures Details(e.errors) == messages
  {
    assert Decimal(422) == "422";
    ValidationEntriesDetails(messages);
    Envelope(StatusUnprocessableContent, ValidationEntries(messages))
  }

  /** The `rescue_from` table: JWT::DecodeError (with its subclasses) and
      JWT::ExpiredSignature to the authentication handler, RecordNotFound
      to the not-found handler, RecordInvalid to the validation handler;
      None for any other exception. */
  function RescueFrom(e: Exception): (r: Option<Envelope>)
    ensures r.Some? <==> IsDecodeError(e) || e.RecordNotFound? || e.RecordInvalid?
    ensures IsDecodeError(e) ==> r == Some(AuthenticationError())
    ensures e.RecordNotFound? ==> r == Some(NotFoundError(e.message))
    ensures e.RecordInvalid? ==> r == Some(ValidationError(e.messages))
    ensures r.Some? ==> StatusesAgree(r.value)
  {
    if IsDecodeError(e) || e.ExpiredSignature? then Some(AuthenticationError())
    else if e.RecordNotFound? then Some(NotFoundError(e.message))
    else if e.RecordInvalid? then Some(ValidationError(e.messages))
    else None
  }

  /** An exception as the controller's response: the envelope of its
      handler, or the exception itself when no handler matches. */
  function Rescue<B>(e: Exception): Response<B> {
    match RescueFrom(e)
    case Some(envelope) => Errors(envelope)
    case None => Unhandled(e)
  }

  /** Whatever the JWT exception and its message, the response is the same
      401 with one fixed entry. */
  lemma AuthenticationErrorsAlike(e1: Exception, e2: Exception)
    requires IsDecodeError(e1) && IsDecodeError(e2)
    ensures RescueFrom(e1) == RescueFrom(e2)
    ensures |RescueFrom(e1).value.errors| == 1
    ensures RescueFrom(e1).value.errors[0] == ErrorEntry("401", "Unauthorized", "Invalid or missing authentication token")
  {
  }

  /** A RecordInvalid becomes a 422 with one entry per full message, in order. */
  lemma ValidationEnvelope(messages: seq<string>)
    ensures RescueFrom(RecordInvalid(messages)).value.status == 422
    ensures Details(RescueFrom(RecordInvalid(messages)).value.errors) == messages
  {
    ValidationEntriesDetails(messages);
  }
}
