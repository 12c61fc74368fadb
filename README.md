# send-to-sheet proxy route, modelled in Dafny

The repository is a small expense form whose server route `POST /api/send-to-sheet`
relays a submitted amount and note to a spreadsheet endpoint. The route guards itself
with a shared secret: the expected value comes from the `SHARED_SECRET` environment
variable, the caller sends it in the `X-Shared-Secret` header, and the two are compared
by `constantTimeEqual`, which XOR-accumulates over the UTF-8 bytes of both strings
without an early exit on content.

This project models that route:

- `ConstantTime.ConstantTimeEqual` is the comparison as a method with the source's
  loop. It is proved to decide exactly "the expected secret is non-empty and the provided
  secret is the same string". A ghost trace of the loop's indices shows that, once the
  two length checks pass, every byte index is read in order, whatever the bytes are.
- `Utf8.Encode` models `TextEncoder.encode` on strings of Unicode scalar values and is
  proved injective. Comparing encodings is therefore comparing strings.
- `Bytes.Xor` and `Bytes.Or` are JavaScript's `^` and `|` on operands below 2^31 (the
  route applies them only to bytes).
  Bytes combine into bytes under both, so JavaScript's 32-bit conversion never matters.
- `Text.Trim` is `String.prototype.trim` with ECMAScript's white-space and
  line-terminator set. `Text.Decimal` is the `${status}` rendering of a status code.
- `SendToSheet.Post` is the handler's chain of early returns as a total function:
  - Inputs: the raw environment value, the raw header, the outcome of reading the body
    and the outcome of the upstream call.
  - Output: the response (status and JSON body) and the payload sent upstream, if any.
  - So "nothing was sent upstream" is stated directly as `forwarded == None`.

I/O is abstracted into inputs:
- `process.env` becomes `Option<string>` arguments.
- `req.headers.get` becomes an `Option<string>`.
- `req.json()` and the destructuring of its result become a `RequestBody`.
- `fetch`, `gsRes.text()` and `JSON.parse` become an `Upstream` outcome.
- Serialisation by `JSON.stringify` is left abstract: bodies are `Json` values.

Two behaviours of the code worth stating outright:
- An unset, empty or all-white-space `SHARED_SECRET` fails closed with 500
  "Server misconfigured" (src/app/api/send-to-sheet/route.ts:25-29).
- The 400 message is "`value` must be a finite number", backticks included
  (src/app/api/send-to-sheet/route.ts:40).

## Model

| member | source | states |
|---|---|---|
| Bytes.Xor | src/app/api/send-to-sheet/route.ts:17 | XOR (`^`) of two numbers is zero exactly when the operands are equal |
| Bytes.Or | src/app/api/send-to-sheet/route.ts:17 | OR of two numbers is zero exactly when both operands are zero |
| Bytes.XorBelow | src/app/api/send-to-sheet/route.ts:17 | XOR sets no bit above the operands' highest bit |
| Bytes.OrBelow | src/app/api/send-to-sheet/route.ts:17 | OR sets no bit above the operands' highest bit |
| Bytes.ByteOperators | src/app/api/send-to-sheet/route.ts:15-18 | XOR and OR of two bytes are bytes, so `diff` never leaves 0..255 |
| Utf8.Encode | src/app/api/send-to-sheet/route.ts:10-12 | the encoding has between one and four bytes per character, so it is empty exactly when the string is |
| Utf8.LeadAnnouncesLength | src/app/api/send-to-sheet/route.ts:10-12 | the lead byte of a character's encoding determines how many bytes it has |
| Utf8.DecodeEncodeScalar | src/app/api/send-to-sheet/route.ts:10-12 | the bytes of one character decode back to that character's scalar value |
| Utf8.EncodeScalarInjective | src/app/api/send-to-sheet/route.ts:10-12 | distinct characters have distinct encodings |
| Utf8.PrefixFree | src/app/api/send-to-sheet/route.ts:10-13 | a character's encoding followed by anything determines the character and the rest |
| Utf8.EncodeInjective | src/app/api/send-to-sheet/route.ts:10-13 | distinct strings have distinct encodings, so equal bytes mean equal strings |
| Json.IsFiniteNumber | src/app/api/send-to-sheet/route.ts:39 | a definition with no contract: `Number.isFinite(value)` is true only for a finite number |
| Json.Truthy | src/app/api/send-to-sheet/route.ts:55-56 | a definition with no contract: JavaScript truthiness of a parsed value (`null`, `false`, 0 and "" are falsy) |
| Json.TruthyProperty | src/app/api/send-to-sheet/route.ts:55-56 | a definition with no contract: truthiness of a property that may be `undefined` |
| Json.Property | src/app/api/send-to-sheet/route.ts:55-56 | a definition with no contract: `data?.error` is an own property of a parsed object, otherwise `undefined` |
| ConstantTime.Diff | src/app/api/send-to-sheet/route.ts:15-18 | after n steps the accumulator is a byte, and it is 0 exactly when the first n byte pairs agree |
| ConstantTime.ConstantTimeEqual | src/app/api/send-to-sheet/route.ts:5-20 | result is true iff the expected secret is non-empty and equals the provided one; false for an empty expected value, even against an empty input; false on an encoded-length mismatch whatever the content; for non-empty equal-length encodings, true iff every byte pair agrees; the loop reads exactly indices 0..n-1 in order, with no early exit |
| Text.Trim | src/app/api/send-to-sheet/route.ts:25 | `s.trim()` (also route.ts:31): never longer than its input, and neither end of the result is white space; the lemmas below characterise it fully |
| Text.TrimStartDropsLeadingWhiteSpace | src/app/api/send-to-sheet/route.ts:25 | the start-trimmed string is a suffix of the input; everything dropped is white space; it does not start with white space |
| Text.TrimEndDropsTrailingWhiteSpace | src/app/api/send-to-sheet/route.ts:25 | the end-trimmed string is a prefix of the input; everything dropped is white space; it does not end with white space |
| Text.TrimKeepsMiddle | src/app/api/send-to-sheet/route.ts:31 | `trim` keeps one contiguous slice of the input, removes only white space around it, and the slice neither starts nor ends with white space |
| Text.TrimEmptyIff | src/app/api/send-to-sheet/route.ts:25-26 | a string trims to "" exactly when it is all white space |
| Text.TrimIdempotent | src/app/api/send-to-sheet/route.ts:31 | trimming twice is trimming once |
| Text.Decimal | src/app/api/send-to-sheet/route.ts:56 | `${status}` is a non-empty digit string without leading zeros whose value is the status |
| SendToSheet.Relay | src/app/api/send-to-sheet/route.ts:53-69 | the handling of the upstream outcome answers only 200, 500 or 502 |
| SendToSheet.Post | src/app/api/send-to-sheet/route.ts:22-71 | every response is 200, 400, 401, 500 or 502; a payload goes upstream iff the secret check passes and `value` is a finite number; a 200 or 502 only ever follows a forwarded payload |
| SendToSheet.MisconfiguredFailsClosed | src/app/api/send-to-sheet/route.ts:25-29 | an unset, empty or all-white-space `SHARED_SECRET` gives 500 "Server misconfigured" with nothing sent, whatever the header, body and upstream |
| SendToSheet.UnauthorizedIff | src/app/api/send-to-sheet/route.ts:31-35 | the status is 401 iff a secret is configured and the trimmed header differs from it; then the response is "Unauthorized" and nothing is sent |
| SendToSheet.MissingHeaderUnauthorized | src/app/api/send-to-sheet/route.ts:31-35 | with a secret configured, a request without the header gets 401 whatever its body |
| SendToSheet.NonFiniteRejected | src/app/api/send-to-sheet/route.ts:38-43 | an authorized request whose `value` is absent or not a finite number gets 400 with nothing sent |
| SendToSheet.ForwardsPayload | src/app/api/send-to-sheet/route.ts:38-51 | an authorized request with a finite `value` sends exactly `{ value, note }`, with `note` "" when absent, and answers with the relayed upstream outcome |
| SendToSheet.UpstreamFailureIs502 | src/app/api/send-to-sheet/route.ts:53-59 | a non-2xx reply, or one with a truthy `error`, gives 502 carrying that error, else "HTTP <status>" |
| SendToSheet.UpstreamSuccessRelayed | src/app/api/send-to-sheet/route.ts:53-64 | a 2xx reply without a truthy `error` gives 200 with the parsed body, or `{}` for empty text |
| SendToSheet.ExceptionsAre500 | src/app/api/send-to-sheet/route.ts:65-70 | an exception while reading the body or calling upstream gives 500 with its non-empty message, else "Server error"; a failed body read sends nothing |
| SendToSheet.Relay502CarriesError | src/app/api/send-to-sheet/route.ts:55-58 | every 502 body carries a truthy `error` |
| SendToSheet.FailuresCarryError | src/app/api/send-to-sheet/route.ts:22-71 | every non-200 response carries a truthy `error`, and every 500 carries a non-empty string |
| SendToSheet.SuccessIff | src/app/api/send-to-sheet/route.ts:22-64 | the status is 200 iff the secret check passes, `value` is finite and upstream answered 2xx without a truthy `error` |
| SendToSheet.Upstream500Example | src/app/api/send-to-sheet/route.ts:55-58 | an upstream HTTP 500 with an empty body gives 502 with error "HTTP 500" |
| SendToSheet.CoffeeExample | src/app/api/send-to-sheet/route.ts:38-64 | with the right secret, `{ value: 12.5, note: "coffee" }` is sent exactly and a 200 reply is relayed verbatim |

## Left out

- src/app/page.tsx, the browser form: React state, the secret dialog, `localStorage`,
  `fetch` to the route and the timed status reset. This is UI code with no logic that
  the route depends on.
- Building the upstream URL from `SHEET_URL` and `SHEET_TOKEN`, the request headers,
  and the `JSON.stringify` text of bodies. The model keeps the JSON values that would be
  serialised.
- The `console.log` of the provided secret. It leaks sensitive data and does not change
  any response.
- The `runtime` export and the response headers. A response is only its status and body.
- Floating point. `JSON.parse` numbers are `real`s, and `Number.isFinite` is modelled by
  a separate `JInfinite` case for literals that overflow a double.
- The exact texts of the messages thrown by `JSON.parse`, by destructuring a `null`
  request body and by network errors. The model takes each exception's optional message
  as an input.
- Exception messages that are not strings, passed through by `e.message || ...`. The
  model has only string messages.
- JavaScript strings holding lone UTF-16 surrogates. `TextEncoder` turns each of them
  into U+FFFD, so two such distinct strings can compare equal. Dafny strings hold only
  Unicode scalar values, so the model does not cover this.
- ConstantTime.ConstantTimeEqual: "constant time" is stated as "the loop reads every
  index, and the set of indices read depends only on the lengths". Real timing is not
  modelled: the JIT, caches, and the early return on a length mismatch, which leaks the
  encoded length.
- The handler's call to `constantTimeEqual` is modelled by its specification
  `ConstantTime.SecretsEqual`. `ConstantTime.ConstantTimeEqual` is proved to compute
  that specification.
- Status codes are assumed to be non-negative integers, as `fetch` reports them.
