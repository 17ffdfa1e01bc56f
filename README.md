# DecodeJson failure classifier, modelled in Dafny

`DecodeJson(v, w, r, isStrict)` in `JSONDecoder.go` decodes a JSON request
body with `encoding/json`. If the flag is set, it first makes the decoder
reject unknown fields. If decoding fails, an ordered `switch` picks one of
seven outcomes; the first arm whose guard holds wins:

1. a `*json.SyntaxError` anywhere in the error chain gives 400, "Request body contains badly-formed JSON (at position N)";
2. `io.ErrUnexpectedEOF` gives 400, "request body contains badly-formed JSON";
3. a `*json.UnmarshalTypeError` gives 400, "Request body contains an invalid value for the %q field (at position %d)";
4. an error text starting with `json: unknown field ` gives 400, "Request body contains unknown field " followed by the rest of the text;
5. `io.EOF` gives 400, "request body must not be empty";
6. the error text `http: request body too large` gives 413, "request body must not be larger than 1MB";
7. anything else logs the raw error text and gives 500, "internal server error". The error it returns is spelled "internal server errror".

Arms 1 to 6 write a response and return a fresh error with the same
message. Success writes nothing and returns `nil`.

The model is pure, like the source: datatypes, functions and lemmas.

- `Wrappers`: `Option`. `None` stands for Go's `nil`.
- `GoStrings`: `strings.HasPrefix` and `strings.TrimPrefix`.
- `GoFmt`: the `%d` verb (`FormatInt`) and the `%q` verb (`Quote`, Go's `strconv.Quote`). Each has a reader (`ParseInt`, `Unquote`), and round-trip lemmas show that the printed text can be read back.
- `GoErrors`: a non-nil Go error is a non-empty chain of layers, outermost first. The layers are `SyntaxError`, `UnmarshalTypeError`, `UnknownFieldError` (the error `encoding/json` reports in strict mode), `MaxBytesError`, the two sentinels `ErrUnexpectedEOF` and `EOF`, and `Other(text)` for any other error, including wrappers. `errors.Is` and `errors.As` are built on `Find`, which returns the index of the first layer that matches; `Is` tests that there is one and `As` returns that layer. `err.Error()` becomes `ErrorText`, the text of the outermost layer.
- `JsonDecoder`: `Classify` is the `switch`. `Message`, `ResponseFor` and `ReturnedFor` give what each arm builds. `Respond` gives what one arm does, and `Handle` is the whole failure branch. `DecodeJson` ties the strictness flag to the decoder it configures.
- `DecoderProperties`: holds the seven guards as an independent reference table (`Guard`, `Selected`) and the lemmas about each arm. `ReadResponse` is a client-side reader; it proves that every response can be read back to its outcome.

Because `Classify` is a function, repeated calls with the same error give the
same outcome by construction.

Three behaviours of the code that its messages do not make obvious:

- The returned error is a fresh `errors.New` of the arm's message. It does not carry the failure kind and does not wrap the cause (`ReturnedErrorWrapsNothing`).
- In the default arm, the returned text is "internal server errror", not the response's "internal server error".
- `encoding/json` writes the unknown key with `%q`, and the code copies the text after the prefix verbatim. So the message quotes the field name: `Request body contains unknown field "age"` (`StrictUnknownFieldKeepsKey`).

## Model

| member | source | states |
|---|---|---|
| `GoStrings.HasPrefix` | JSONDecoder.go:49 | no contract of its own: `strings.HasPrefix`; `HasPrefixIffConcat` ties it to the sequence prefix relation and `GuardsAgree` to the unknown-field guard |
| `GoStrings.TrimPrefix` | JSONDecoder.go:50 | if `s` starts with the prefix, the prefix followed by the result is `s`; otherwise the result is `s` unchanged |
| `GoStrings.HasPrefixIffConcat` | JSONDecoder.go:49 | `HasPrefix(s, p)` holds exactly when `p` is a prefix of `s` |
| `GoStrings.TrimPrefixOfConcat` | JSONDecoder.go:49-50 | trimming a prefix from `prefix + rest` gives back `rest` unchanged, and the prefix test succeeds |
| `GoFmt.NatDigits` | JSONDecoder.go:29 | the decimal text of a natural number is non-empty, all digits, has no leading zero, and is "0" for zero |
| `GoFmt.FormatInt` | JSONDecoder.go:29 | `%d` output starts with '-' exactly when the number is negative, is otherwise all decimal digits with no leading zero (a lone "0" for zero); with `FormatIntRoundTrip` this fixes the text exactly |
| `GoFmt.ParseNatDigits` | JSONDecoder.go:29 | reading the digits of `n` gives `n` back |
| `GoFmt.FormatIntRoundTrip` | JSONDecoder.go:29 | `ParseInt(FormatInt(n)) == Some(n)` for every integer |
| `GoFmt.FormatIntInjective` | JSONDecoder.go:43 | different offsets print as different text |
| `GoFmt.EscapeRune` | JSONDecoder.go:43 | the escape of one character is non-empty and never starts with an unescaped double quote |
| `GoFmt.Quote` | JSONDecoder.go:43 | `%q` output starts and ends with a double quote |
| `GoFmt.UnescapeRune` | JSONDecoder.go:43 | reading one escaped character gives that character, then continues with the rest |
| `GoFmt.QuoteBodyRoundTrip` | JSONDecoder.go:43 | reading the escaped body up to its closing quote gives the original string and the text after it |
| `GoFmt.UnquotePrefixOfQuote` | JSONDecoder.go:43 | a quoted string at the front of any text can be read back, with what follows it |
| `GoFmt.QuoteRoundTrip` | JSONDecoder.go:43 | `Unquote(Quote(x)) == Some(x)`: `%q` loses nothing |
| `GoErrors.New` | JSONDecoder.go:31 | `errors.New` gives a one-layer error whose text is the given text and which no `errors.Is` or `errors.As` probe matches |
| `GoErrors.LayerText` | JSONDecoder.go:49 | no contract of its own: the `Error()` text of each layer as the standard library writes it; `EOFIsMatchedByIdentity` and `WrappedMaxBytesErrorIsUnclassified` use it to show which guards see text and which see identity |
| `GoErrors.ErrorText` | JSONDecoder.go:49-50 | no contract of its own: `err.Error()` is the text of the outermost layer only; `WrappedMaxBytesErrorIsUnclassified` shows that a wrapper hides the inner text from the text guards |
| `GoErrors.Is` | JSONDecoder.go:34 | `errors.Is` with a sentinel holds exactly when some layer of the chain is that sentinel |
| `GoErrors.Find` | JSONDecoder.go:28 | gives the index of the first layer that matches, or `None` exactly when no layer matches |
| `GoErrors.As` | JSONDecoder.go:21-28 | finds a layer exactly when some layer has the target type; the layer it finds is a layer of the chain, has that type, and no layer before it does |
| `JsonDecoder.NewDecoder` | JSONDecoder.go:15 | a new decoder accepts unknown fields |
| `JsonDecoder.DisallowUnknownFields` | JSONDecoder.go:17 | after the call, the decoder rejects unknown fields |
| `JsonDecoder.Configure` | JSONDecoder.go:15-18 | the decoder rejects unknown fields exactly when `isStrict` is set |
| `JsonDecoder.ResBadRequestJson` | JSONDecoder.go:30 | no contract of its own: the helper answers 400 with the text of the error it is given; `RespondBadRequest` and `StatusByArm` state what the arms get from it |
| `JsonDecoder.ResErrJson` | JSONDecoder.go:64 | no contract of its own: the helper answers with the status it is given and the text of the error; `BodyTooLargeExactly` states the 413 it gives |
| `JsonDecoder.ResInternalErrJson` | JSONDecoder.go:70 | no contract of its own: the helper answers 500 with the text of the error; `OnlyUnclassifiedLogs` and `InternalResponseHidesCause` state what the default arm gets from it |
| `JsonDecoder.Classify` | JSONDecoder.go:24-72 | the syntax outcome happens exactly when some layer is a syntax error; the unknown-field outcome carries the text after the prefix, and the default outcome carries the raw error text; `ClassifyIsFirstMatch` proves it takes the first arm whose guard holds |
| `JsonDecoder.Message` | JSONDecoder.go:29-70 | no contract of its own: the message each arm builds; `ResponseReadBack` proves every message can be read back to its outcome and its values |
| `JsonDecoder.SyntaxMessage` | JSONDecoder.go:29 | no contract of its own: the `fmt.Sprintf` of the syntax arm; `SyntaxErrorWins` shows it is the response of that arm and `ReadBackSyntax` that it reads back to its offset |
| `JsonDecoder.TypeMismatchMessage` | JSONDecoder.go:43 | no contract of its own: the `fmt.Sprintf` of the type arm; `TypeMismatchReportsField` shows it is the response of that arm and `ReadBackTypeMismatch` that it reads back to its field and offset |
| `JsonDecoder.UnknownFieldMessage` | JSONDecoder.go:51 | no contract of its own: the `fmt.Sprintf` of the unknown-field arm; `UnknownFieldIsVerbatim` shows it carries the trimmed text verbatim and `ReadBackUnknownField` that it reads back to that text |
| `JsonDecoder.ResponseFor` | JSONDecoder.go:30-70 | no contract of its own: the response each arm writes through its helper; `StatusByArm` proves the status per arm and `ResponsesDistinguishKinds` that different outcomes answer differently |
| `JsonDecoder.ReturnedFor` | JSONDecoder.go:31-71 | the returned error is a fresh one-layer error that no `errors.Is` or `errors.As` probe matches |
| `JsonDecoder.Respond` | JSONDecoder.go:28-71 | no contract of its own: what one arm writes, returns and logs; `RespondBadRequest` and `OnlyUnclassifiedLogs` state it for each arm |
| `JsonDecoder.Handle` | JSONDecoder.go:20-72 | no contract of its own: the failure branch runs the arm `Classify` picks; the per-arm lemmas (`SyntaxErrorWins` to `OnlyUnclassifiedLogs`) state its effects |
| `JsonDecoder.DecodeJson` | JSONDecoder.go:14-20 | no contract of its own: the configured decoder is run, and only its failure reaches the switch; `DecodeJsonRespondsOnlyOnFailure` proves that success has no effects and that a failure gets exactly what `Handle` gives for its error |
| `DecoderProperties.IsMeansMember` | JSONDecoder.go:34 | `errors.Is` with a sentinel holds exactly when that sentinel is a layer of the chain |
| `DecoderProperties.GuardsAgree` | JSONDecoder.go:28-56 | each guard `Classify` tests equals the reference table's guard for that arm |
| `DecoderProperties.ClassifyIsFirstMatch` | JSONDecoder.go:24-72 | exactly one outcome: the arm `Classify` takes has a true guard, no earlier guard is true, and no other arm has both properties |
| `DecoderProperties.FindFirst` | JSONDecoder.go:28 | if layer `j` is the first match, then `Find` returns `j` |
| `DecoderProperties.SyntaxErrorWins` | JSONDecoder.go:28-31 | a syntax-error layer anywhere in the chain gives 400 with the offset of the first such layer, even when other error kinds are present; no log line |
| `DecoderProperties.RespondBadRequest` | JSONDecoder.go:28-59 | each of the five arms that answer 400 writes its message, returns a fresh error with that same text and logs nothing |
| `DecoderProperties.UnexpectedEOFIsTruncation` | JSONDecoder.go:34-37 | with no syntax error, `io.ErrUnexpectedEOF` gives 400 "request body contains badly-formed JSON", even alongside type errors or `io.EOF` |
| `DecoderProperties.TruncationIsNeverEmptyBody` | JSONDecoder.go:34-59 | a chain holding `io.ErrUnexpectedEOF` gets 400 but never the empty-body message |
| `DecoderProperties.EmptyBodyExactly` | JSONDecoder.go:56-59 | the empty-body outcome happens exactly when `io.EOF` is in the chain and the first four guards fail |
| `DecoderProperties.EOFIsMatchedByIdentity` | JSONDecoder.go:56 | `io.EOF` itself gives an empty body; an error that only has the text "EOF" is unclassified |
| `DecoderProperties.TypeMismatchReportsField` | JSONDecoder.go:42-45 | with no syntax error and no unexpected EOF, the first type error gives 400 with its field (quoted) and its offset, and the same returned text |
| `DecoderProperties.UnknownFieldIsVerbatim` | JSONDecoder.go:49-53 | when the first three guards fail and the outer text is `"json: unknown field " + s`, the message is exactly `"Request body contains unknown field " + s` |
| `DecoderProperties.StrictUnknownFieldKeepsKey` | JSONDecoder.go:49-53 | the strict-mode error for key `k` gives the message prefix followed by `Quote(k)`, and unquoting that part gives `k` back |
| `DecoderProperties.BodyTooLargeExactly` | JSONDecoder.go:62-65 | status 413 happens exactly when the first five guards fail and the outer text is "http: request body too large"; its message is "request body must not be larger than 1MB" |
| `DecoderProperties.WrappedMaxBytesErrorIsUnclassified` | JSONDecoder.go:62 | a bare size-limit error gives 413; the same error wrapped under an outer text that is neither the size-limit text nor starts with the unknown-field prefix gives 500, because only the outer text is compared |
| `DecoderProperties.StatusByArm` | JSONDecoder.go:30-70 | every failure writes one response: status 400 exactly for the first five arms, 413 exactly for the size limit, 500 exactly for the default arm |
| `DecoderProperties.OnlyUnclassifiedLogs` | JSONDecoder.go:68-71 | only the default arm logs; it logs the raw error text once, answers 500 "internal server error" and returns "internal server errror" |
| `DecoderProperties.InternalResponseHidesCause` | JSONDecoder.go:70-71 | two unclassified failures with different causes write the same response and return the same error |
| `DecoderProperties.ReturnedMatchesResponse` | JSONDecoder.go:30-71 | the returned error's text equals the response message in every arm except the default |
| `DecoderProperties.ReturnedErrorWrapsNothing` | JSONDecoder.go:31 | no `errors.Is` or `errors.As` target matches the returned error, so it does not wrap the cause |
| `DecoderProperties.DecodeJsonRespondsOnlyOnFailure` | JSONDecoder.go:19-74 | a response is written and an error returned exactly when the decode fails; on success there is no response, no error and no log line; on failure the effects are those of `Handle` for the decode error |
| `DecoderProperties.ReadBackSyntax` | JSONDecoder.go:29 | the syntax message can be read back to its offset |
| `DecoderProperties.ReadBackTypeMismatch` | JSONDecoder.go:43 | the type-mismatch message can be read back to its field name and offset |
| `DecoderProperties.ReadBackUnknownField` | JSONDecoder.go:51 | the unknown-field message can be read back to its field text |
| `DecoderProperties.ReadBackConstant` | JSONDecoder.go:35-70 | the fixed messages (truncated, empty, too large, internal) read back to their outcomes; the internal one carries no cause |
| `DecoderProperties.ResponseReadBack` | JSONDecoder.go:29-70 | every response can be read back to its outcome with all its values; for the default arm, the cause cannot be recovered |
| `DecoderProperties.ResponsesDistinguishKinds` | JSONDecoder.go:29-70 | two outcomes with the same response are the same outcome, apart from an unclassified cause |
| `DecoderProperties.NonStrictNeverReportsUnknownField` | JSONDecoder.go:16-17 | if the JSON library reports unknown fields only in strict mode, a non-strict call never answers with an unknown-field message |

## Left out

- JSON parsing and binding. `decoder.Decode(&v)` (JSONDecoder.go:19) is reflective work inside `encoding/json`. `DecodeJson` takes it as a parameter `decode`, which maps the configured decoder to success or an error chain. The destination value `v` is not modelled.
- The strictness flag only configures the decoder. That unknown fields are reported only in strict mode is an assumption about `encoding/json`: it is the hypothesis `ReportsUnknownFieldsOnlyWhenStrict` of `NonStrictNeverReportsUnknownField`.
- The response helpers of the `media-services/res` package are not part of this model. Each one becomes a recorded `(status, message)` pair, with no JSON envelope and no writes to `http.ResponseWriter`.
- `log.Print` is I/O. It becomes the optional `logged` text, which is the string passed to `log.Print`. The logger's timestamp prefix and newline are not modelled.
- Reading the body stream, blocking and cancellation are not modelled. A read failure is just one more error chain.
- gzipping.go is not part of this model. It is response-compression plumbing on HTTP streams and has no decision logic.
- Errors with several wrapped errors (`errors.Join`) are not modelled as trees. `errors.Is` and `errors.As` visit such a tree depth-first, and the chain stands for that visiting order. Custom `Is` and `As` methods on error types are not modelled.
- GoFmt.Quote: Go's `unicode.IsPrint` is approximated. Below U+00A1 it is exact. U+00AD is escaped. Every other code point above U+00A0 is taken as printable. Go escapes some of these with `\u` or `\U`, for example unassigned code points and format characters such as U+200B. Invalid UTF-8 cannot occur in a Dafny string.
- GoFmt.EscapeRune: escapes one character with the same approximated `IsPrint`, so above U+00A0 it writes raw some characters Go writes as `\u` or `\U` escapes.
- Order of effects: the default arm logs before it writes the response (JSONDecoder.go:69-70). `Effects` records what is logged, written and returned, not the order.
- Error texts are Go byte strings. The model's texts are Dafny strings of code points, so `err.Error()`, the verbatim unknown-field copy and the logged cause are covered only for texts that are valid UTF-8.
- GoFmt.Unquote: reads back only the escapes `Quote` writes. It is the round-trip partner of `Quote`, not a full model of `strconv.Unquote`.
