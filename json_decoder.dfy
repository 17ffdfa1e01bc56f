/**
 * `DecodeJson`: run a JSON decoder over a request body and, when it fails,
 * classify the failure, write one error response and return one error.
 * Classification is the ordered `switch` of the Go function: the first arm
 * whose guard holds decides the outcome.
 */
module JsonDecoder {
  import opened Wrappers
  import opened GoStrings
  import opened GoErrors
  import GoFmt

  // ------------------------------------------------------------ constants

  const StatusBadRequest: int := 400
  const StatusRequestEntityTooLarge: int := 413
  const StatusInternalServerError: int := 500

  /** The text `encoding/json` gives an unknown-field error, up to the field name. */
  const UnknownFieldPrefix: string := "json: unknown field "
  /** The text of the error a size-limited body reader returns. */
  const BodyTooLargeText: string := "http: request body too large"

  const SyntaxMessagePrefix: string := "Request body contains badly-formed JSON (at position "
  const TruncatedMessage: string := "request body contains badly-formed JSON"
  const TypeMismatchMessagePrefix: string := "Request body contains an invalid value for the "
  const TypeMismatchMessageMiddle: string := " field (at position "
  const UnknownFieldMessagePrefix: string := "Request body contains unknown field "
  const EmptyBodyMessage: string := "request body must not be empty"
  const BodyTooLargeMessage: string := "request body must not be larger than 1MB"
  /** What the client is told about an unclassified failure. */
  const InternalMessage: string := "internal server error"
  /** The text of the error returned to the caller for an unclassified failure, spelled as the source spells it. */
  const InternalReturnedText: string := "internal server errror"

  // ------------------------------------------------------------ outcomes

  /** The seven outcomes of a failed decode, in the order the arms are tried. */
  datatype Kind =
    | MalformedSyntax(offset: int64)
    | TruncatedInput
    | TypeMismatch(field: string, offset: int64)
    | UnknownField(field: string)
    | EmptyBody
    | BodyTooLarge
    | Unclassified(cause: string)

  /** What a response helper writes: the HTTP status and the message of the error it serialises. */
  datatype Response = Response(status: int, message: string)

  /**
   * Everything one call does that its caller or an operator can observe:
   * the response written to `w` (if any), the error returned (`None` for
   * `nil`) and the line given to `log.Print` (if any).
   */
  datatype Effects = Effects(response: Option<Response>, returned: Option<Chain>, logged: Option<string>)

  /** The parser's configuration; `DisallowUnknownFields` is the only knob the decoder turns. */
  datatype Decoder = Decoder(disallowUnknownFields: bool)

  // ------------------------------------------------------------ collaborators

  /** `json.NewDecoder(r)`: unknown fields are ignored until `DisallowUnknownFields` is called. */
  function NewDecoder(): (d: Decoder)
    ensures !d.disallowUnknownFields
  {
    Decoder(false)
  }

  /** `decoder.DisallowUnknownFields()`. */
  function DisallowUnknownFields(d: Decoder): (d': Decoder)
    ensures d'.disallowUnknownFields
  {
    d.(disallowUnknownFields := true)
  }

  /** `res.ResBadRequestJson(w, err)`. */
  function ResBadRequestJson(err: Chain): Response
  {
    Response(StatusBadRequest, ErrorText(err))
  }

  /** `res.ResErrJson(w, status, err)`. */
  function ResErrJson(status: int, err: Chain): Response
  {
    Response(status, ErrorText(err))
  }

  /** `res.ResInternalErrJson(w, err)`. */
  function ResInternalErrJson(err: Chain): Response
  {
    Response(StatusInternalServerError, ErrorText(err))
  }

  // ------------------------------------------------------------ messages

  function SyntaxMessage(offset: int64): string
  {
    SyntaxMessagePrefix + (GoFmt.FormatInt(offset as int) + ")")
  }

  function TypeMismatchMessage(field: string, offset: int64): string
  {
    TypeMismatchMessagePrefix + (GoFmt.Quote(field) + (TypeMismatchMessageMiddle + (GoFmt.FormatInt(offset as int) + ")")))
  }

  function UnknownFieldMessage(fieldName: string): string
  {
    UnknownFieldMessagePrefix + fieldName
  }

  // ------------------------------------------------------------ the switch

  /** The ordered `switch` over a decode error: the first arm whose guard holds gives the kind. */
  function Classify(err: Chain): (k: Kind)
    ensures k.MalformedSyntax? <==> exists i :: 0 <= i < |err| && err[i].SyntaxError?
    ensures k.UnknownField? ==> ErrorText(err) == UnknownFieldPrefix + k.field
    ensures k.Unclassified? ==> k.cause == ErrorText(err)
  {
    var syntaxError := As(err, AsSyntaxError);
    var unmarshalTypeError := As(err, AsUnmarshalTypeError);
    if syntaxError.Some? then
      MalformedSyntax(syntaxError.value.offset)
    else if Is(err, IsErrUnexpectedEOF) then
      TruncatedInput
    else if unmarshalTypeError.Some? then
      TypeMismatch(unmarshalTypeError.value.field, unmarshalTypeError.value.offset)
    else if HasPrefix(ErrorText(err), UnknownFieldPrefix) then
      UnknownField(TrimPrefix(ErrorText(err), UnknownFieldPrefix))
    else if Is(err, IsEOF) then
      EmptyBody
    else if ErrorText(err) == BodyTooLargeText then
      BodyTooLarge
    else
      Unclassified(ErrorText(err))
  }

  /** The message each arm builds for its response and, in all arms but the default, for its returned error. */
  function Message(k: Kind): string
  {
    match k
    case MalformedSyntax(offset) => SyntaxMessage(offset)
    case TruncatedInput => TruncatedMessage
    case TypeMismatch(field, offset) => TypeMismatchMessage(field, offset)
    case UnknownField(fieldName) => UnknownFieldMessage(fieldName)
    case EmptyBody => EmptyBodyMessage
    case BodyTooLarge => BodyTooLargeMessage
    case Unclassified(_) => InternalMessage
  }

  /** The response each arm writes, through the helper that arm calls. */
  function ResponseFor(k: Kind): Response
  {
    match k
    case BodyTooLarge => ResErrJson(StatusRequestEntityTooLarge, New(Message(k)))
    case Unclassified(_) => ResInternalErrJson(New(Message(k)))
    case _ => ResBadRequestJson(New(Message(k)))
  }

  /** The error each arm returns: a fresh `errors.New` of its message, or of the default arm's own text. */
  function ReturnedFor(k: Kind): (e: Chain)
    ensures |e| == 1 && forall p :: Find(e, p).None?
  {
    if k.Unclassified? then New(InternalReturnedText) else New(Message(k))
  }

  /** What the arm for kind `k` does: the response it writes, the error it returns and the line it logs. */
  function Respond(k: Kind): Effects
  {
    Effects(
      Some(ResponseFor(k)),
      Some(ReturnedFor(k)),
      if k.Unclassified? then Some(k.cause) else None)
  }

  /** What the failure branch (`if err != nil`) does with a decode error. */
  function Handle(err: Chain): Effects
  {
    Respond(Classify(err))
  }

  /** The decoder `DecodeJson` configures from its strictness flag. */
  function Configure(isStrict: bool): (d: Decoder)
    ensures d.disallowUnknownFields == isStrict
  {
    var decoder := NewDecoder();
    if isStrict then DisallowUnknownFields(decoder) else decoder
  }

  /**
   * `DecodeJson(v, w, r, isStrict)`. The parse itself, `decoder.Decode(&v)`,
   * belongs to `encoding/json`: `decode` stands for it on this request's
   * body and destination, giving `None` on success and the error otherwise.
   */
  function DecodeJson(isStrict: bool, decode: Decoder -> Option<Chain>): Effects
  {
    var err := decode(Configure(isStrict));
    if err.Some? then Handle(err.value) else Effects(None, None, None)
  }
}
