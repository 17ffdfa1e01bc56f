/**
 * Go error values as the decoder sees them: a chain of wrapped layers,
 * outermost first, with `errors.Is`, `errors.As` and `err.Error()` on it.
 */
module GoErrors {
  import opened Wrappers
  import GoFmt

  /** Go's `int64`, the type of the offsets `encoding/json` reports. */
  newtype int64 = x: int | -0x8000_0000_0000_0000 <= x < 0x8000_0000_0000_0000

  /** One layer of an error chain. */
  datatype Layer =
    /** `*json.SyntaxError`: its message and the byte offset of the problem */
    | SyntaxError(msg: string, offset: int64)
    /** `*json.UnmarshalTypeError`: JSON value kind, enclosing struct, field path, Go type, offset */
    | UnmarshalTypeError(value: string, structName: string, field: string, goType: string, offset: int64)
    /** the error `encoding/json` reports for a key the destination lacks, once `DisallowUnknownFields` is set */
    | UnknownFieldError(key: string)
    /** `*http.MaxBytesError`, returned by a body reader that hit its size limit */
    | MaxBytesError(limit: int64)
    /** the sentinel `io.ErrUnexpectedEOF` */
    | ErrUnexpectedEOF
    /** the sentinel `io.EOF` */
    | EOF
    /** any other error value, wrappers such as `fmt.Errorf("…: %w", e)` included, with its own `Error()` text */
    | Other(text: string)

  /** A non-nil error: its layers in the order `errors.Unwrap` visits them, outermost first. */
  type Chain = c: seq<Layer> | |c| > 0 witness [EOF]

  /** `errors.New(text)`: a fresh error that wraps nothing. */
  function New(text: string): (e: Chain)
    ensures |e| == 1 && ErrorText(e) == text
    ensures forall p :: Find(e, p).None?
  {
    [Other(text)]
  }

  /** The `Error()` text of one layer, as the standard library spells it. */
  function LayerText(l: Layer): string
  {
    match l
    case SyntaxError(msg, _) => msg
    case UnmarshalTypeError(value, structName, field, goType, _) =>
      if structName != "" || field != "" then
        "json: cannot unmarshal " + value + " into Go struct field " + structName + "." + field + " of type " + goType
      else
        "json: cannot unmarshal " + value + " into Go value of type " + goType
    case UnknownFieldError(key) => "json: unknown field " + GoFmt.Quote(key)
    case MaxBytesError(_) => "http: request body too large"
    case ErrUnexpectedEOF => "unexpected EOF"
    case EOF => "EOF"
    case Other(text) => text
  }

  /** `err.Error()`: the text of the outermost layer. */
  function ErrorText(err: Chain): string
  {
    LayerText(err[0])
  }

  /** What `errors.Is` and `errors.As` are asked to look for. */
  datatype Probe =
    | AsSyntaxError          // errors.As(err, &syntaxError) with a *json.SyntaxError target
    | AsUnmarshalTypeError   // errors.As(err, &unmarshalTypeError) with a *json.UnmarshalTypeError target
    | IsErrUnexpectedEOF     // errors.Is(err, io.ErrUnexpectedEOF)
    | IsEOF                  // errors.Is(err, io.EOF)

  /** Whether one layer satisfies a probe: a type test for `As`, identity with the sentinel for `Is`. */
  predicate Matches(l: Layer, p: Probe)
  {
    match p
    case AsSyntaxError => l.SyntaxError?
    case AsUnmarshalTypeError => l.UnmarshalTypeError?
    case IsErrUnexpectedEOF => l.ErrUnexpectedEOF?
    case IsEOF => l.EOF?
  }

  /** The index of the first layer, outermost first, that satisfies `p`. */
  function Find(layers: seq<Layer>, p: Probe): (r: Option<nat>)
    ensures r.None? <==> forall i :: 0 <= i < |layers| ==> !Matches(layers[i], p)
    ensures r.Some? ==> r.value < |layers| && Matches(layers[r.value], p)
    ensures r.Some? ==> forall i :: 0 <= i < r.value ==> !Matches(layers[i], p)
  {
    if |layers| == 0 then None
    else if Matches(layers[0], p) then Some(0)
    else
      match Find(layers[1..], p)
      case None => None
      case Some(k) => Some(k + 1)
  }

  /**
   * `errors.Is(err, target)` for the sentinels `io.EOF` and `io.ErrUnexpectedEOF`.
   * The decoder calls it only with `IsErrUnexpectedEOF` and `IsEOF`; with an
   * `As…` probe it is a type test that Go's `errors.Is` does not offer.
   */
  predicate Is(err: Chain, p: Probe)
    ensures Is(err, p) <==> exists i :: 0 <= i < |err| && Matches(err[i], p)
  {
    Find(err, p).Some?
  }

  /** `errors.As(err, &target)`: the first layer of the target's type, which `As` stores in the target. */
  function As(err: Chain, p: Probe): (r: Option<Layer>)
    ensures r.Some? <==> exists i :: 0 <= i < |err| && Matches(err[i], p)
    ensures r.Some? ==> Matches(r.value, p)
    ensures r.Some? ==> exists i :: 0 <= i < |err| && r.value == err[i] && forall j :: 0 <= j < i ==> !Matches(err[j], p)
  {
    match Find(err, p)
    case None => None
    case Some(i) => Some(err[i])
  }
}
