/**
 * What `DecodeJson` promises, proved about the model: the switch is a
 * first-match table over seven guards, each arm's precedence and response,
 * the single log line of the default arm, and the fact that a client can
 * read every classified outcome back from the response it receives.
 */
module DecoderProperties {
  import opened Wrappers
  import opened GoStrings
  import opened GoErrors
  import opened JsonDecoder
  import GoFmt

  // ------------------------------------------------------------ the table as a reference

  /** The seven arms of the switch, named after what they test. */
  datatype Arm = SyntaxArm | UnexpectedEOFArm | TypeArm | UnknownFieldArm | EOFArm | TooLargeArm | DefaultArm

  /** The position of an arm in the switch. */
  function Rank(a: Arm): nat
  {
    match a
    case SyntaxArm => 0
    case UnexpectedEOFArm => 1
    case TypeArm => 2
    case UnknownFieldArm => 3
    case EOFArm => 4
    case TooLargeArm => 5
    case DefaultArm => 6
  }

  /** Each arm's guard, stated directly on the layers of the error. */
  predicate Guard(err: Chain, a: Arm)
  {
    match a
    case SyntaxArm => exists i :: 0 <= i < |err| && err[i].SyntaxError?
    case UnexpectedEOFArm => ErrUnexpectedEOF in err
    case TypeArm => exists i :: 0 <= i < |err| && err[i].UnmarshalTypeError?
    case UnknownFieldArm => UnknownFieldPrefix <= ErrorText(err)
    case EOFArm => EOF in err
    case TooLargeArm => ErrorText(err) == BodyTooLargeText
    case DefaultArm => true
  }

  /** Arm `a` is the one a first-match switch takes: its guard holds and no earlier guard does. */
  predicate Selected(err: Chain, a: Arm)
  {
    Guard(err, a) && forall b :: Rank(b) < Rank(a) ==> !Guard(err, b)
  }

  /** The arm that produced a kind. */
  function ArmOf(k: Kind): Arm
  {
    match k
    case MalformedSyntax(_) => SyntaxArm
    case TruncatedInput => UnexpectedEOFArm
    case TypeMismatch(_, _) => TypeArm
    case UnknownField(_) => UnknownFieldArm
    case EmptyBody => EOFArm
    case BodyTooLarge => TooLargeArm
    case Unclassified(_) => DefaultArm
  }

  /** No syntax-error layer anywhere in the chain. */
  predicate NoSyntaxError(err: Chain)
  {
    forall i :: 0 <= i < |err| ==> !err[i].SyntaxError?
  }

  /** No type-error layer anywhere in the chain. */
  predicate NoTypeError(err: Chain)
  {
    forall i :: 0 <= i < |err| ==> !err[i].UnmarshalTypeError?
  }

  lemma IsMeansMember(err: Chain)
    ensures Is(err, IsErrUnexpectedEOF) <==> ErrUnexpectedEOF in err
    ensures Is(err, IsEOF) <==> EOF in err
  {
    if ErrUnexpectedEOF in err {
      var i :| 0 <= i < |err| && err[i] == ErrUnexpectedEOF;
      assert Matches(err[i], IsErrUnexpectedEOF);
    }
    if EOF in err {
      var i :| 0 <= i < |err| && err[i] == EOF;
      assert Matches(err[i], IsEOF);
    }
  }

  /** Each guard of `Classify` is the guard of the reference table. */
  lemma GuardsAgree(err: Chain)
    ensures As(err, AsSyntaxError).Some? <==> Guard(err, SyntaxArm)
    ensures Is(err, IsErrUnexpectedEOF) <==> Guard(err, UnexpectedEOFArm)
    ensures As(err, AsUnmarshalTypeError).Some? <==> Guard(err, TypeArm)
    ensures HasPrefix(ErrorText(err), UnknownFieldPrefix) <==> Guard(err, UnknownFieldArm)
    ensures Is(err, IsEOF) <==> Guard(err, EOFArm)
  {
    IsMeansMember(err);
    HasPrefixIffConcat(ErrorText(err), UnknownFieldPrefix);
  }

  /**
   * Exactly one outcome: the arm `Classify` takes is selected by the
   * first-match reading of the table, and no other arm is.
   */
  lemma ClassifyIsFirstMatch(err: Chain)
    ensures Selected(err, ArmOf(Classify(err)))
    ensures forall a :: Selected(err, a) ==> a == ArmOf(Classify(err))
  {
    GuardsAgree(err);
    var chosen := ArmOf(Classify(err));
    forall b | Rank(b) < Rank(chosen)
      ensures !Guard(err, b)
    {
      match b
      case SyntaxArm =>
      case UnexpectedEOFArm =>
      case TypeArm =>
      case UnknownFieldArm =>
      case EOFArm =>
      case TooLargeArm =>
      case DefaultArm =>
    }
  }

  // ------------------------------------------------------------ the arms one by one

  /** `Find` stops at the first matching layer. */
  lemma FindFirst(err: Chain, p: Probe, j: nat)
    requires j < |err| && Matches(err[j], p)
    requires forall i :: 0 <= i < j ==> !Matches(err[i], p)
    ensures Find(err, p) == Some(j)
  {
    assert Find(err, p).Some?;
  }

  /**
   * A syntax-error layer anywhere in the chain wins over everything else in
   * it, unexpected EOF, type errors and `io.EOF` included; the offset shown
   * is that of the first such layer, the one `errors.As` stores.
   */
  lemma SyntaxErrorWins(err: Chain, j: nat)
    requires j < |err| && err[j].SyntaxError?
    requires forall i :: 0 <= i < j ==> !err[i].SyntaxError?
    ensures Classify(err) == MalformedSyntax(err[j].offset)
    ensures Handle(err) ==
      Effects(Some(Response(400, SyntaxMessage(err[j].offset))), Some(New(SyntaxMessage(err[j].offset))), None)
  {
    assert Matches(err[j], AsSyntaxError);
    FindFirst(err, AsSyntaxError, j);
    assert Classify(err) == MalformedSyntax(err[j].offset);
    RespondBadRequest(MalformedSyntax(err[j].offset));
  }

  /**
   * The five arms that answer 400 write their message, return a fresh error
   * with that same text and log nothing.
   */
  lemma RespondBadRequest(k: Kind)
    requires !k.BodyTooLarge? && !k.Unclassified?
    ensures Respond(k) == Effects(Some(Response(400, Message(k))), Some(New(Message(k))), None)
  {
  }

  /** Without a syntax error, `io.ErrUnexpectedEOF` anywhere in the chain wins over type errors and `io.EOF`. */
  lemma UnexpectedEOFIsTruncation(err: Chain)
    requires NoSyntaxError(err)
    requires ErrUnexpectedEOF in err
    ensures Classify(err) == TruncatedInput
    ensures Handle(err) == Effects(Some(Response(400, TruncatedMessage)), Some(New(TruncatedMessage)), None)
  {
    GuardsAgree(err);
  }

  /** A truncated body is never reported as an empty one. */
  lemma TruncationIsNeverEmptyBody(err: Chain)
    requires ErrUnexpectedEOF in err
    ensures Classify(err).MalformedSyntax? || Classify(err) == TruncatedInput
    ensures Handle(err).response.Some? && Handle(err).response.value.status == 400
    ensures Handle(err).response.value.message != EmptyBodyMessage
  {
    IsMeansMember(err);
    var k := Classify(err);
    assert k.MalformedSyntax? || k == TruncatedInput;
    MessageLetters();
    assert |Message(k)| != |EmptyBodyMessage|;
  }

  /**
   * The empty-body arm is taken exactly when the chain holds the sentinel
   * `io.EOF` and no earlier arm matched.
   */
  lemma EmptyBodyExactly(err: Chain)
    ensures Classify(err) == EmptyBody <==>
      NoSyntaxError(err) && ErrUnexpectedEOF !in err && NoTypeError(err)
      && !HasPrefix(ErrorText(err), UnknownFieldPrefix) && EOF in err
  {
    GuardsAgree(err);
  }

  /** `io.EOF` is matched by identity: an error whose text merely reads "EOF" is not an empty body. */
  lemma EOFIsMatchedByIdentity()
    ensures Classify([EOF]) == EmptyBody
    ensures Classify([Other("EOF")]) == Unclassified("EOF")
  {
    assert !HasPrefix("EOF", UnknownFieldPrefix);
    assert Matches([EOF][0], IsEOF);
  }

  /**
   * Without a syntax error or unexpected EOF, the first type-error layer
   * decides: its quoted field name and its offset are interpolated.
   */
  lemma TypeMismatchReportsField(err: Chain, j: nat)
    requires NoSyntaxError(err)
    requires ErrUnexpectedEOF !in err
    requires j < |err| && err[j].UnmarshalTypeError?
    requires forall i :: 0 <= i < j ==> !err[i].UnmarshalTypeError?
    ensures Classify(err) == TypeMismatch(err[j].field, err[j].offset)
    ensures Handle(err) == Effects(
      Some(Response(400, TypeMismatchMessage(err[j].field, err[j].offset))),
      Some(New(TypeMismatchMessage(err[j].field, err[j].offset))),
      None)
  {
    GuardsAgree(err);
    assert Matches(err[j], AsUnmarshalTypeError);
    FindFirst(err, AsUnmarshalTypeError, j);
    assert Classify(err) == TypeMismatch(err[j].field, err[j].offset);
    RespondBadRequest(TypeMismatch(err[j].field, err[j].offset));
  }

  /**
   * The unknown-field arm tests the outer error text; when it is taken the
   * field part of that text is put into the message verbatim.
   */
  lemma UnknownFieldIsVerbatim(err: Chain, fieldName: string)
    requires NoSyntaxError(err) && ErrUnexpectedEOF !in err && NoTypeError(err)
    requires ErrorText(err) == UnknownFieldPrefix + fieldName
    ensures Classify(err) == UnknownField(fieldName)
    ensures Handle(err) == Effects(
      Some(Response(400, "Request body contains unknown field " + fieldName)),
      Some(New("Request body contains unknown field " + fieldName)),
      None)
  {
    GuardsAgree(err);
    TrimPrefixOfConcat(UnknownFieldPrefix, fieldName);
  }

  /**
   * With strict decoding, `encoding/json`'s unknown-field error names the key
   * in `%q` form; the message keeps those quotes, and unquoting them gives
   * the key back.
   */
  lemma StrictUnknownFieldKeepsKey(key: string)
    ensures Handle([UnknownFieldError(key)]).response == Some(Response(400, UnknownFieldMessagePrefix + GoFmt.Quote(key)))
    ensures GoFmt.Unquote(Handle([UnknownFieldError(key)]).response.value.message[|UnknownFieldMessagePrefix|..]) == Some(key)
  {
    var err: Chain := [UnknownFieldError(key)];
    assert NoSyntaxError(err) && ErrUnexpectedEOF !in err && NoTypeError(err);
    UnknownFieldIsVerbatim(err, GoFmt.Quote(key));
    assert (UnknownFieldMessagePrefix + GoFmt.Quote(key))[|UnknownFieldMessagePrefix|..] == GoFmt.Quote(key);
    GoFmt.QuoteRoundTrip(key);
  }

  /**
   * Status 413 is written exactly when no earlier arm matched and the outer
   * error text is the size limit's own text.
   */
  lemma BodyTooLargeExactly(err: Chain)
    ensures Handle(err).response.value.status == 413 <==>
      NoSyntaxError(err) && ErrUnexpectedEOF !in err && NoTypeError(err)
      && !HasPrefix(ErrorText(err), UnknownFieldPrefix) && EOF !in err
      && ErrorText(err) == BodyTooLargeText
    ensures Handle(err).response.value.status == 413 ==> Handle(err).response.value.message == BodyTooLargeMessage
  {
    GuardsAgree(err);
  }

  /**
   * The size limit is recognised by text only: a bare `*http.MaxBytesError`
   * gives 413, but one wrapped in an error whose outer text is neither the
   * size-limit text nor starts with the unknown-field prefix falls through
   * to the default arm (an outer text with that prefix would give 400).
   */
  lemma WrappedMaxBytesErrorIsUnclassified(wrapper: string, limit: int64)
    requires wrapper != BodyTooLargeText && !HasPrefix(wrapper, UnknownFieldPrefix)
    ensures Classify([MaxBytesError(limit)]) == BodyTooLarge
    ensures var wrapped: Chain := [Other(wrapper), MaxBytesError(limit)];
      Handle(wrapped).response == Some(Response(500, InternalMessage))
  {
    var wrapped: Chain := [Other(wrapper), MaxBytesError(limit)];
    assert NoSyntaxError(wrapped) && ErrUnexpectedEOF !in wrapped && NoTypeError(wrapped) && EOF !in wrapped;
    GuardsAgree(wrapped);
    var bare: Chain := [MaxBytesError(limit)];
    DiffersAt(ErrorText(bare), UnknownFieldPrefix, 0);
    GuardsAgree(bare);
  }

  /** The first five arms answer 400, the size-limit arm 413 and the default arm 500. */
  lemma StatusByArm(err: Chain)
    ensures Handle(err).response.Some?
    ensures Handle(err).response.value.status == 400 <==> Rank(ArmOf(Classify(err))) < 5
    ensures Handle(err).response.value.status == 413 <==> Classify(err) == BodyTooLarge
    ensures Handle(err).response.value.status == 500 <==> Classify(err).Unclassified?
  {
  }

  /**
   * The default arm is the only one that logs; it logs the raw error text
   * once, answers 500 with the generic message and returns its own,
   * differently spelled, error.
   */
  lemma OnlyUnclassifiedLogs(err: Chain)
    ensures Handle(err).logged.Some? <==> Classify(err).Unclassified?
    ensures Classify(err).Unclassified? ==>
      Handle(err) == Effects(Some(Response(500, "internal server error")), Some(New("internal server errror")), Some(ErrorText(err)))
  {
  }

  /** The client sees nothing of an unclassified cause: two such failures answer and return alike. */
  lemma InternalResponseHidesCause(e1: Chain, e2: Chain)
    requires Classify(e1).Unclassified? && Classify(e2).Unclassified?
    ensures Handle(e1).response == Handle(e2).response
    ensures Handle(e1).returned == Handle(e2).returned
  {
  }

  /** Every arm but the default returns an error whose text is the message it wrote. */
  lemma ReturnedMatchesResponse(err: Chain)
    ensures Handle(err).response.Some? && Handle(err).returned.Some?
    ensures ErrorText(Handle(err).returned.value) == Handle(err).response.value.message
      <==> !Classify(err).Unclassified?
  {
    assert InternalReturnedText != InternalMessage by {
      assert |InternalReturnedText| != |InternalMessage|;
    }
  }

  /** The returned error is fresh: it does not wrap the decode error, so no `Is` or `As` on it matches. */
  lemma ReturnedErrorWrapsNothing(err: Chain, p: Probe)
    ensures Handle(err).returned.Some?
    ensures !Is(Handle(err).returned.value, p) && As(Handle(err).returned.value, p).None?
  {
  }

  /**
   * A successful decode writes no response, logs nothing and returns nil; a
   * failed one does exactly what the failure branch does with its error.
   */
  lemma DecodeJsonRespondsOnlyOnFailure(isStrict: bool, decode: Decoder -> Option<Chain>)
    ensures DecodeJson(isStrict, decode).response.Some? <==> decode(Decoder(isStrict)).Some?
    ensures DecodeJson(isStrict, decode).returned.Some? <==> decode(Decoder(isStrict)).Some?
    ensures decode(Decoder(isStrict)).None? ==> DecodeJson(isStrict, decode) == Effects(None, None, None)
    ensures decode(Decoder(isStrict)).Some? ==> DecodeJson(isStrict, decode) == Handle(decode(Decoder(isStrict)).value)
  {
  }

  // ------------------------------------------------------------ strictness

  /** A JSON library that reports unknown fields only when asked to. */
  predicate ReportsUnknownFieldsOnlyWhenStrict(decode: Decoder -> Option<Chain>)
  {
    var r := decode(Decoder(false));
    r.Some? ==> !HasPrefix(ErrorText(r.value), UnknownFieldPrefix)
  }

  // ------------------------------------------------------------ reading a response back

  /** The kind with an unclassified cause blanked out: what a response can carry. */
  function Redact(k: Kind): Kind
  {
    if k.Unclassified? then Unclassified("") else k
  }

  /** Reads the trailing "N)" of a message with a position. */
  function ReadPosition(s: string): Option<int64>
  {
    if |s| > 0 && s[|s| - 1] == ')' then
      match GoFmt.ParseInt(s[..|s| - 1])
      case Some(n) => if -0x8000_0000_0000_0000 <= n < 0x8000_0000_0000_0000 then Some(n as int64) else None
      case None => None
    else None
  }

  /** Reads the quoted field name and the position that follow the type-mismatch prefix. */
  function ReadFieldAndPosition(s: string): Option<Kind>
  {
    match GoFmt.UnquotePrefix(s)
    case Some((field, tail)) =>
      if HasPrefix(tail, TypeMismatchMessageMiddle) then
        match ReadPosition(tail[|TypeMismatchMessageMiddle|..])
        case Some(n) => Some(TypeMismatch(field, n))
        case None => None
      else None
    case None => None
  }

  /** Reads a 400 message back into the kind that wrote it. */
  function ReadBadRequest(m: string): Option<Kind>
  {
    if m == TruncatedMessage then Some(TruncatedInput)
    else if m == EmptyBodyMessage then Some(EmptyBody)
    else if HasPrefix(m, SyntaxMessagePrefix) then
      match ReadPosition(m[|SyntaxMessagePrefix|..])
      case Some(n) => Some(MalformedSyntax(n))
      case None => None
    else if HasPrefix(m, TypeMismatchMessagePrefix) then ReadFieldAndPosition(m[|TypeMismatchMessagePrefix|..])
    else if HasPrefix(m, UnknownFieldMessagePrefix) then Some(UnknownField(m[|UnknownFieldMessagePrefix|..]))
    else None
  }

  /** What a client can tell from a response alone. */
  function ReadResponse(r: Response): Option<Kind>
  {
    if r.status == StatusBadRequest then ReadBadRequest(r.message)
    else if r.status == StatusRequestEntityTooLarge && r.message == BodyTooLargeMessage then Some(BodyTooLarge)
    else if r.status == StatusInternalServerError && r.message == InternalMessage then Some(Unclassified(""))
    else None
  }

  lemma DiffersAt(m: string, p: string, i: nat)
    requires i < |p| && i < |m| && m[i] != p[i]
    ensures !HasPrefix(m, p)
  {
  }

  lemma ReadPositionOf(n: int64)
    ensures ReadPosition(GoFmt.FormatInt(n as int) + ")") == Some(n)
  {
    var s := GoFmt.FormatInt(n as int) + ")";
    assert s[..|s| - 1] == GoFmt.FormatInt(n as int);
    GoFmt.FormatIntRoundTrip(n as int);
  }

  /** The lengths and characters that tell the messages apart. */
  lemma MessageLetters()
    ensures |TruncatedMessage| == 39 && TruncatedMessage[22] == 'b'
    ensures |EmptyBodyMessage| == 30 && EmptyBodyMessage[13] == 'm'
    ensures |SyntaxMessagePrefix| == 53 && SyntaxMessagePrefix[22] == 'b'
    ensures |TypeMismatchMessagePrefix| == 47 && TypeMismatchMessagePrefix[22] == 'a'
    ensures |UnknownFieldMessagePrefix| == 36 && UnknownFieldMessagePrefix[22] == 'u' && UnknownFieldMessagePrefix[13] == 'c'
  {
  }

  lemma ConcatAt(p: string, rest: string, i: nat)
    requires i < |p|
    ensures (p + rest)[i] == p[i]
  {
  }

  lemma ReadBackSyntax(offset: int64)
    ensures ReadResponse(ResponseFor(MalformedSyntax(offset))) == Some(MalformedSyntax(offset))
  {
    var m := SyntaxMessage(offset);
    var rest := GoFmt.FormatInt(offset as int) + ")";
    MessageLetters();
    TrimPrefixOfConcat(SyntaxMessagePrefix, rest);
    ReadPositionOf(offset);
  }

  lemma ReadBackFieldAndPosition(field: string, offset: int64)
    ensures ReadFieldAndPosition(GoFmt.Quote(field) + (TypeMismatchMessageMiddle + (GoFmt.FormatInt(offset as int) + ")")))
      == Some(TypeMismatch(field, offset))
  {
    var digits := GoFmt.FormatInt(offset as int) + ")";
    var tail := TypeMismatchMessageMiddle + digits;
    GoFmt.UnquotePrefixOfQuote(field, tail);
    TrimPrefixOfConcat(TypeMismatchMessageMiddle, digits);
    ReadPositionOf(offset);
  }

  lemma ReadBadRequestTypePrefix(rest: string)
    ensures ReadBadRequest(TypeMismatchMessagePrefix + rest) == ReadFieldAndPosition(rest)
  {
    var m := TypeMismatchMessagePrefix + rest;
    MessageLetters();
    assert m != TruncatedMessage && m != EmptyBodyMessage;
    ConcatAt(TypeMismatchMessagePrefix, rest, 22);
    DiffersAt(m, SyntaxMessagePrefix, 22);
    TrimPrefixOfConcat(TypeMismatchMessagePrefix, rest);
  }

  lemma ReadBadRequestTypeMismatch(field: string, offset: int64)
    ensures ReadBadRequest(TypeMismatchMessage(field, offset)) == Some(TypeMismatch(field, offset))
  {
    var rest := GoFmt.Quote(field) + (TypeMismatchMessageMiddle + (GoFmt.FormatInt(offset as int) + ")"));
    assert TypeMismatchMessage(field, offset) == TypeMismatchMessagePrefix + rest;
    ReadBadRequestTypePrefix(rest);
    ReadBackFieldAndPosition(field, offset);
  }

  /** Reading back a 400 response comes down to reading back its message. */
  lemma ReadBackBadRequest(k: Kind)
    requires !k.BodyTooLarge? && !k.Unclassified?
    requires ReadBadRequest(Message(k)) == Some(k)
    ensures ReadResponse(ResponseFor(k)) == Some(k)
  {
  }

  lemma ReadBackTypeMismatch(field: string, offset: int64)
    ensures ReadResponse(ResponseFor(TypeMismatch(field, offset))) == Some(TypeMismatch(field, offset))
  {
    ReadBadRequestTypeMismatch(field, offset);
    ReadBackBadRequest(TypeMismatch(field, offset));
  }

  lemma ReadBackUnknownField(fieldName: string)
    ensures ReadResponse(ResponseFor(UnknownField(fieldName))) == Some(UnknownField(fieldName))
  {
    var m := UnknownFieldMessage(fieldName);
    MessageLetters();
    ConcatAt(UnknownFieldMessagePrefix, fieldName, 13);
    ConcatAt(UnknownFieldMessagePrefix, fieldName, 22);
    assert m != TruncatedMessage && m != EmptyBodyMessage;
    DiffersAt(m, SyntaxMessagePrefix, 22);
    DiffersAt(m, TypeMismatchMessagePrefix, 22);
    TrimPrefixOfConcat(UnknownFieldMessagePrefix, fieldName);
  }

  lemma ReadBackConstant(k: Kind)
    requires k == TruncatedInput || k == EmptyBody || k == BodyTooLarge || k.Unclassified?
    ensures ReadResponse(ResponseFor(k)) == Some(Redact(k))
  {
    MessageLetters();
  }

  /**
   * Every response names its outcome: reading it back gives the kind and
   * all of its interpolated values, and for an unclassified failure nothing
   * of its cause.
   */
  lemma ResponseReadBack(k: Kind)
    ensures ReadResponse(ResponseFor(k)) == Some(Redact(k))
  {
    match k
    case MalformedSyntax(offset) => ReadBackSyntax(offset);
    case TypeMismatch(field, offset) => ReadBackTypeMismatch(field, offset);
    case UnknownField(fieldName) => ReadBackUnknownField(fieldName);
    case _ => ReadBackConstant(k);
  }

  /** Two outcomes that answer alike are the same outcome, up to an unclassified cause. */
  lemma ResponsesDistinguishKinds(k1: Kind, k2: Kind)
    ensures ResponseFor(k1) == ResponseFor(k2) ==> Redact(k1) == Redact(k2)
  {
    ResponseReadBack(k1);
    ResponseReadBack(k2);
  }

  /**
   * Without strict decoding no call answers with an unknown-field message,
   * provided the JSON library reports unknown fields only when asked to.
   */
  lemma NonStrictNeverReportsUnknownField(decode: Decoder -> Option<Chain>, fieldName: string)
    requires ReportsUnknownFieldsOnlyWhenStrict(decode)
    ensures DecodeJson(false, decode).response != Some(Response(400, UnknownFieldMessage(fieldName)))
  {
    var r := decode(Decoder(false));
    if r.Some? {
      var k := Classify(r.value);
      assert !k.UnknownField?;
      assert DecodeJson(false, decode).response == Some(ResponseFor(k));
      ResponsesDistinguishKinds(k, UnknownField(fieldName));
      assert ResponseFor(UnknownField(fieldName)) == Response(400, UnknownFieldMessage(fieldName));
    }
  }
}
