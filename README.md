# bookstore-oauth-go: the request-authentication interceptor

This project models `oauth/oauth.go`, the interceptor that backend services of the bookstore
run on each inbound request before anything that depends on identity. The interceptor
first removes any `X-Client-Id` and `X-Caller-Id` headers the request arrived with. It then
trims the `access_token` query parameter. When a token is present, it looks the token up at the
OAuth service and stamps the resolved client and caller ids into those two headers. A remote 404
leaves the request anonymous. Any other failure is returned to the caller. Three accessors read
the result back: `IsPublic`, `GetCallerId` and `GetClientId`. They never fail: they default to
`true` (public) and `0` (ids).

Modules:

- `Results`: `Option` and `Result`, standing for Go's nil pointers and `(value, err)` pairs.
- `GoStrings`: `strings.TrimSpace` over Go's `unicode.IsSpace` characters. As in Go, it is
  `TrimFunc(s, unicode.IsSpace)`, and `TrimLeftFunc`/`TrimRightFunc` find a cut index and slice.
- `GoStrconv`: `strconv.ParseInt(s, 10, 64)` and `fmt.Sprintf("%v", n)` for an int64, with their
  round trip. `ParseInt` follows Go's own steps. It strips the sign, reads the digits left to
  right and stops at the first non-digit or uint64 overflow, then applies the int64 cutoff.
  It is proved equal to a reference reading of the numeral (`Denotes`).
- `Http`: a header or query as a string-keyed multimap. `Lookup` is `Header.Get`/`Values.Get`.
  `Header` is a class whose `Add` and `Del` update its map in place. `Request` holds a header
  object and a decoded query.
- `RestErrors`: the repository's `RestErr`, kept to its status and message.
- `OAuth`: the accessors and the classification in `getAccessToken`. `Cleaned` and
  `Authenticate` are the specification functions. `CleanRequest` and `AutenticationRequest` are
  the methods that change the header, each proved equal to its specification function. The
  lemmas state the interceptor's promises.

The network call is a parameter `resolve: string -> Exchange`. It maps the token id that would be
sent to what the POST returns: a transport failure, an error response with its decoded body, or
a success response with its decoded token. "The resolver is never consulted" is stated as "the
outcome is the same for every `resolve`".

The not-found/internal-fault split uses the `status` field decoded from the error body
(oauth/oauth.go:108), not the HTTP status of the response. A second run of the interceptor gives
the same result only when the token lookup answers the same way both times, which is how
`AuthenticateIdempotent` states it.

## Model

| member | source | states |
|---|---|---|
| `OAuth.IsPublic` | oauth/oauth.go:31-36 | an absent request is public; otherwise public exactly when the first `X_Public` value is `"true"` |
| `OAuth.IsPublicExactMatch` | oauth/oauth.go:35 | an absent `X_Public` header, `"True"`, `"1"` and similar near-misses all give not public |
| `OAuth.IdentityOf` | oauth/oauth.go:42-46 | the id read from a header is the int64 its first value spells, and 0 when it spells none or the key is absent |
| `OAuth.GetCallerId` | oauth/oauth.go:38-47 | 0 for an absent request; otherwise the int64 the first `X-Caller-Id` value spells, 0 when it spells none |
| `OAuth.GetClientId` | oauth/oauth.go:49-58 | 0 for an absent request; otherwise the int64 the first `X-Client-Id` value spells, 0 when it spells none |
| `GoStrconv.ParseUint` | oauth/oauth.go:42 | Go's left-to-right digit loop with its overflow check gives the numeral's value exactly when the string is one or more digits whose value fits in a uint64, and fails otherwise |
| `GoStrconv.AccumulateUintValue` | oauth/oauth.go:42 | continuing the digit loop after a prefix already read gives the value of the whole string, or fails exactly when it is not all digits or exceeds the largest uint64 |
| `GoStrconv.NumeralMonotone` | oauth/oauth.go:42 | appending digits never decreases a numeral's value, so an early overflow exit loses no success |
| `GoStrconv.ParseInt` | oauth/oauth.go:42 | a parse that succeeds returns the value the optional sign and digits denote; a parse that fails means no int64 is denoted |
| `GoStrconv.ParseIntComplete` | oauth/oauth.go:42 | every signed decimal whose value lies in [-2^63, 2^63-1] is parsed to that value |
| `GoStrconv.FormatUint` | oauth/oauth.go:79-80 | the rendering of a natural number is a non-empty digit string with no leading zero whose value is that number |
| `GoStrconv.FormatInt` | oauth/oauth.go:79-80 | the rendering of an int64 starts with `-` exactly when the number is negative; the rest is one or more digits, with no leading zero, whose value is the number's absolute value |
| `GoStrconv.FormatIntRoundTrip` | oauth/oauth.go:79-80 | what `fmt.Sprintf("%v", n)` writes, `strconv.ParseInt` reads back as n, for every int64 n |
| `GoStrconv.FormatIntInjective` | oauth/oauth.go:79-80 | distinct ids are written as distinct header values |
| `GoStrings.FirstNot` | oauth/oauth.go:67 | the cut point of `TrimLeftFunc`: every character before it satisfies the predicate, and the character at it, if any, does not |
| `GoStrings.EndOfLastNot` | oauth/oauth.go:67 | the cut point of `TrimRightFunc`: every character from it on satisfies the predicate, and the one just before it, if any, does not |
| `GoStrings.TrimFunc` | oauth/oauth.go:67 | the result is the contiguous piece of s starting at the first character not satisfying the predicate, with only satisfying characters before and after it; it neither starts nor ends with one, and it is empty exactly when all of s satisfies the predicate |
| `GoStrings.TrimSpace` | oauth/oauth.go:67 | the trimmed token is the contiguous piece of the parameter left once the white space before and after it is removed: it neither starts nor ends with white space, and it is empty exactly when the parameter is all white space |
| `GoStrings.TrimSpaceKeepsTrimmed` | oauth/oauth.go:67 | a string without surrounding white space is left unchanged |
| `GoStrings.TrimSpaceIdempotent` | oauth/oauth.go:67 | trimming twice is trimming once |
| `Http.Appended` | oauth/oauth.go:79-80 | `Header.Add` appends the value to the key's values and leaves every other key as it was |
| `Http.Header.Add` | oauth/oauth.go:79-80 | the header map afterwards is the old one with the value appended under the key |
| `Http.Header.Del` | oauth/oauth.go:89-90 | the header map afterwards is the old one without the key |
| `OAuth.GetAccessToken` | oauth/oauth.go:103-115 | a success response yields its token; a transport failure yields a 500 carrying the transport message; a remote 404 yields a 404 and any other remote status a 500, each carrying the remote message |
| `OAuth.Cleaned` | oauth/oauth.go:85-91 | the two identity keys are gone and every other key keeps its values |
| `OAuth.CleanRequest` | oauth/oauth.go:85-91 | a non-nil request's header becomes its cleaned form; a nil request is left alone |
| `OAuth.AutenticationRequest` | oauth/oauth.go:60-83 | nil request: no error, nothing changed; otherwise header and error equal `Authenticate`'s, `IsPublic` is unchanged, the accessors return the resolved ids on success and 0 on every other path |
| `OAuth.AuthenticateKeepsOtherHeaders` | oauth/oauth.go:85-91 | every header other than the two identity headers, including `X_Public`, is exactly as before, whatever the outcome |
| `OAuth.AuthenticateClearsStaleIdentity` | oauth/oauth.go:65-80 | no identity value present before the call survives: each identity header is absent, or holds exactly the one value a successful lookup supplied |
| `OAuth.EmptyTokenSkipsLookup` | oauth/oauth.go:67-70 | an empty or all-white-space token gives no error and both ids 0, and the outcome is the same whatever the lookup would have answered |
| `OAuth.AuthenticateErrorIsFatal` | oauth/oauth.go:71-77 | an error comes back exactly when there is a token and the lookup failed in transport or with a remote status other than 404, and it is the classified error unchanged |
| `OAuth.NotFoundDegradesToAnonymous` | oauth/oauth.go:72-74 | a remote 404 gives no error and both ids read back as 0 |
| `OAuth.StampedIdentity` | oauth/oauth.go:79-80 | after a successful lookup the client and caller ids read back exactly as the token's `ClientId` and `UserId` |
| `OAuth.CleanedIdempotent` | oauth/oauth.go:85-91 | cleaning an already cleaned header changes nothing |
| `OAuth.CleanedUndoesStamp` | oauth/oauth.go:79-80 | cleaning a header the interceptor stamped gives back the header it stamped |
| `OAuth.AuthenticateIdempotent` | oauth/oauth.go:65-80 | running the interceptor again with the same lookup outcome gives the same header and the same error |

## Left out

- The resty client, its POST to `/oauth/access_token/{id}` and the 150 ms timeout (oauth/oauth.go:23, 97-100) are network I/O. The lookup's outcome is the input `resolve` instead. A timeout is one of its `TransportFailure` values.
- JSON decoding of the success and error bodies (oauth/oauth.go:25-29, 98-99) is library behaviour. `Exchange` carries the decoded record or `RestErr`. A success body that fails to decode reaches the code as a transport error. An error body that fails to decode is `ErrorResponse(RestErr(0, ""))`.
- The model assumes every request has a non-nil header map and a non-nil URL, as every request a server receives has. It therefore does not express the two panics Go would raise otherwise. A nil `URL` panics at `request.URL.Query()` (oauth/oauth.go:67). A nil header map panics at `Header.Add` after a successful lookup (oauth/oauth.go:79), while `Get` and `Del` on a nil map do nothing.
- Parsing the raw URL query (`request.URL.Query()`) is left out. The request carries the decoded query as a multimap, and `Values.Get` is modelled.
- Go's header-key canonicalisation is left out. The three header names are used as map keys as they are. Go canonicalises them the same way on read and on write, so the lookups agree.
- GoStrconv.ParseInt: the error's kind (syntax or range) and the clamped value Go returns with a range error are reduced to `None`, because the accessors only test `err != nil`.
- GoStrings.TrimSpace: works on Unicode characters. Go's byte-level handling of invalid UTF-8 is not modelled.
- The `errors` package is not part of this model. `RestErr` keeps only `status` and `message`. `NewNotFoundError` is taken to set 404 and `NewInternalServerError` to set 500.
- The process-wide shared client and any concurrency are left out. Each request is processed on its own and shares no state.
