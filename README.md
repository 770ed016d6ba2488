# Ticket service request dispatch, in Dafny

This project models how the HTTP handlers of the ticket CRUD service decide what to do with a request. The service has two handlers:

- `allTicketsHandler`, registered for `/tickets`: creates a ticket (POST) or lists all tickets through the cache (GET).
- `ticketHandler`, registered for `/ticket/`: reads (GET), updates (PUT) or deletes (DELETE) one ticket. The ticket id comes from the URL path.

Each handler is modelled as a total, pure function. It takes whether the request is authorized, the URL path and the HTTP method, and returns an `Outcome`:

- `HttpError(code, message)`: the handler answers through `http.Error` with that status code and error message.
- `Reply(code, status)`: the handler sets the status code, and possibly the status message, of its response object, which is then sent.
- `Dispatch(call)`: the request goes to one repository operation. The operations are `CreateTicket`, `GetAllTickets(cache)`, `UpdateTicket(id)`, `DeleteTicketById(id)` and `GetTicketById(cache, id)`.
- `NoReply`: the handler returns without writing anything.

`ticketHandler` finds the id in three steps, each modelled on its own:

1. `strings.Trim(path, "/")` (`GoStrings.Trim`).
2. `strings.Split(…, "/")` (`GoStrings.Split`).
3. `strconv.Atoi` of the second segment (`Strconv.Atoi`, for a 64-bit `int`).

What each step computes is stated by lemmas, each paired with an inverse or a reference definition:

- Trim is characterized uniquely (`TrimSpec`, `TrimUnique`).
- Split and `strings.Join` are inverses (`JoinSplit`, `SplitJoin`).
- Atoi accepts exactly the decimal integers in range (`AtoiCorrect`) and reads back what `Itoa` writes (`AtoiItoa`).

Modules: `Wrappers` (Option, Result), `GoStrings` (Trim, Split, Join), `Strconv` (Atoi), `Server` (the two handlers).

The 405 message of `ticketHandler` says "expect method GET or DELETE", but the handler also accepts PUT. The model keeps the message exactly as written.

## Model

| member | source | states |
|---|---|---|
| `Server.AllTicketsHandler` | cmd/server/server.go:35-55 | No contract of its own. The handler for `/tickets`; its behaviour is stated by `AllTicketsUnauthorized`, `AllTicketsWrongPath`, `AllTicketsMethods` and `AllTicketsDispatchOnly`. |
| `Server.UnsupportedMethod` | cmd/server/server.go:51 | No contract of its own. The 405 text "Method <m> is not supported" of `allTicketsHandler`; stated by `AllTicketsMethods`. |
| `Server.AllTicketsUnauthorized` | cmd/server/server.go:36-39 | An unauthorized request to `/tickets` gets `http.Error` 401 with the message "Unauthorized", whatever its path or method. Authorization is checked before the path. |
| `Server.AllTicketsWrongPath` | cmd/server/server.go:40-43 | An authorized request whose path is not exactly `/tickets` gets no response from the handler and no repository call. |
| `Server.AllTicketsMethods` | cmd/server/server.go:44-54 | On `/tickets`, the outcome is Create exactly for POST and GetAll with the cache exactly for GET. Any other method gets 405 with "Method <m> is not supported". |
| `Server.AllTicketsDispatchOnly` | cmd/server/server.go:35-55 | A repository call happens if and only if the request is authorized, the path is `/tickets`, and the method is POST or GET. |
| `Server.TicketHandler` | cmd/server/server.go:56-89 | No contract of its own. The handler for `/ticket/`; its behaviour is stated by `TicketUnauthorized`, `TicketMissingId`, `TicketBadId`, `TicketMethods`, `TicketDispatchExactly` and `TicketSecondSegmentOnly`. |
| `Server.Segments` | cmd/server/server.go:63-64 | No contract of its own. The path trimmed of `/` and split on `/`; stated by the Trim and Split lemmas below. |
| `Server.IdSegment` | cmd/server/server.go:63-65 | No contract of its own. The second segment when there are at least two; stated by `IdSegmentPresent` and `SecondSegment`. |
| `Server.TicketById` | cmd/server/server.go:71-87 | No contract of its own. Atoi of the segment, then the method switch; stated by `TicketBadId`, `TicketMethods` and `TicketByIdNotMissing`. |
| `Server.ExpectGetOrDelete` | cmd/server/server.go:84 | No contract of its own. The 405 text "expect method GET or DELETE at /ticket/<id>, got <m>" of `ticketHandler`; stated by `TicketMethods` and `TicketByIdNotMissing`. |
| `Server.TicketUnauthorized` | cmd/server/server.go:59-62 | An unauthorized request to `/ticket/` gets 401 with no status message and no repository call, whatever its path or method. |
| `Server.IdSegmentPresent` | cmd/server/server.go:63-65 | The path has an id segment, meaning at least two segments after trimming and splitting, if and only if the trimmed path still contains a `/`. |
| `Server.TicketMissingId` | cmd/server/server.go:65-69 | An authorized request gets 400 "expect /ticket/<id> in task handler" if and only if the trimmed path contains no `/`. |
| `Server.TicketByIdNotMissing` | cmd/server/server.go:71-87 | Once an id segment exists, no outcome equals the missing-id rejection: a bad id carries Atoi's error rather than text, and a bad method gets 405 rather than 400. |
| `Server.TicketBadId` | cmd/server/server.go:71-76 | An id segment that Atoi rejects gives 400 whose status message is Atoi's error, and no repository call. |
| `Server.TicketMethods` | cmd/server/server.go:77-87 | With a valid id, PUT goes to Update(id), DELETE to Delete(id) and GET to GetById(cache, id), with the parsed id. Any other method gets 405 "expect method GET or DELETE at /ticket/<id>, got <m>". |
| `Server.TicketDispatchExactly` | cmd/server/server.go:56-89 | A repository call happens if and only if all of these hold: the request is authorized; the second segment is an optional sign and at least one digit; its value is within 64-bit int range; the method is PUT, DELETE or GET. The call is Update, Delete or GetById and carries that value. |
| `Server.SecondSegment` | cmd/server/server.go:63-64 | For `/<a>/<b><tail>`, the id segment is `b`. Here `a` and `b` are non-empty and slash-free, and `tail` is empty or starts with `/`. |
| `Server.TicketSecondSegmentOnly` | cmd/server/server.go:63-71 | With `a`, `b` and `tail` as in `SecondSegment`, the handler treats `/<a>/<b><tail>` exactly like `/ticket/<b>`. The first segment is never checked, and later segments are ignored. |
| `Server.ExampleTrailingSlashOnly` | cmd/server/server.go:63-69 | `/ticket/` trims to one segment and gets the missing-id 400. |
| `Server.ExampleEmptySecondSegment` | cmd/server/server.go:63-76 | `/ticket//5` has an empty second segment. It gets 400 carrying Atoi's syntax error for "". |
| `Server.ExampleTrailingSegment` | cmd/server/server.go:63-82 | GET `/ticket/5/x` reads ticket 5 through the cache. |
| `Server.ExampleSignedId` | cmd/server/server.go:71-80 | DELETE `/ticket/-3` deletes ticket -3, because Atoi accepts a leading `-`. |
| `Server.ExamplePlusSignedId` | cmd/server/server.go:71-78 | PUT `/ticket/+5` updates ticket 5, because Atoi accepts a leading `+`. |
| `GoStrings.Trim` | cmd/server/server.go:63 | No contract of its own. `strings.Trim` with the one-character cutset `/`, as TrimLeft of TrimRight; stated by `TrimSpec`, `TrimUnique` and `TrimIdempotent`. |
| `GoStrings.TrimLeft` | cmd/server/server.go:63 | No contract of its own. The leading half of `strings.Trim` with a one-character cutset; stated by `TrimLeftSpec`. |
| `GoStrings.TrimRight` | cmd/server/server.go:63 | No contract of its own. The trailing half of `strings.Trim` with a one-character cutset; stated by `TrimRightSpec`. |
| `GoStrings.TrimLeftSpec` | cmd/server/server.go:63 | Trimming the leading run keeps a suffix and removes only `/` characters. What remains does not start with `/`. |
| `GoStrings.TrimRightSpec` | cmd/server/server.go:63 | Trimming the trailing run keeps a prefix and removes only `/` characters. What remains does not end with `/`. |
| `GoStrings.TrimSpec` | cmd/server/server.go:63 | The input is a run of `/`, then the result, then another run of `/`. The result neither starts nor ends with `/`. |
| `GoStrings.TrimUnique` | cmd/server/server.go:63 | Trim takes any run + middle + run decomposition to its middle part, so Trim is unique. |
| `GoStrings.TrimIdempotent` | cmd/server/server.go:63 | Trimming twice is the same as trimming once. |
| `GoStrings.TrimAroundSegments` | cmd/server/server.go:63 | Trimming `/a/b<tail>` keeps `a/b` whole and trims only the tail. |
| `GoStrings.Split` | cmd/server/server.go:64 | `strings.Split` on the one-character separator `/`: there is always at least one segment. The rest is stated by `JoinSplit`, `SplitJoin`, `SplitCount` and the Split lemmas below. |
| `GoStrings.Find` | cmd/server/server.go:64 | The separator search inside `strings.Split` never returns a position past the end of the string; the rest is stated by `FindSpec`. |
| `GoStrings.FindSpec` | cmd/server/server.go:64 | The separator search returns the first `/`, or the string's length when there is none. |
| `GoStrings.SplitNoSeparator` | cmd/server/server.go:64 | A string without `/` splits into itself alone. In particular the empty string splits into `[""]`. |
| `GoStrings.SplitAfterSeparator` | cmd/server/server.go:64 | A slash-free prefix followed by `/` is the first segment, and the rest is split on. |
| `GoStrings.SplitSegments` | cmd/server/server.go:64 | No segment contains `/`. |
| `GoStrings.SplitSingle` | cmd/server/server.go:64-65 | Split gives exactly one segment if and only if the string contains no `/`. |
| `GoStrings.SplitCount` | cmd/server/server.go:64 | There is one more segment than there are `/` characters. |
| `GoStrings.JoinSplit` | cmd/server/server.go:64 | Joining the segments with `/` gives back the string. |
| `GoStrings.SplitJoin` | cmd/server/server.go:64 | Splitting a join of slash-free parts gives back the parts. |
| `GoStrings.SplitSecondSegment` | cmd/server/server.go:64 | In `a/b` followed by nothing or by `/…`, with `a` and `b` slash-free, the second segment is `b`. |
| `GoStrings.SplitFirstSegment` | cmd/server/server.go:64 | In `b` followed by nothing or by `/…`, with `b` slash-free, the first segment is `b`. |
| `Strconv.Unsigned` | cmd/server/server.go:71 | Atoi's sign step: one leading `+` or `-` is always dropped when present, and otherwise the input is kept whole. |
| `Strconv.ScanDigits` | cmd/server/server.go:71 | No contract of its own. The digit loop of `strconv.ParseUint`: a non-digit is a syntax error, and a value past 2^64-1 stops it with a range error; stated by `ScanDigitsCorrect` and `ScanDigitsOverflow`. |
| `Strconv.ParseUint` | cmd/server/server.go:71 | No contract of its own. The unsigned parse under Atoi, where the empty string is a syntax error; stated by `ParseUintCorrect`. |
| `Strconv.Atoi` | cmd/server/server.go:71 | A parsed value lies in the 64-bit int range. Every error names "Atoi" and carries the whole input. |
| `Strconv.ScanDigitsCorrect` | cmd/server/server.go:71 | The digit loop succeeds if and only if the rest is all digits and the whole value fits in 64 unsigned bits. It then returns that value, and reports a syntax error only on a non-digit. |
| `Strconv.ParseUintCorrect` | cmd/server/server.go:71 | The unsigned parse accepts exactly the non-empty digit strings up to 2^64-1, and returns their value. |
| `Strconv.AtoiCorrect` | cmd/server/server.go:71 | Atoi succeeds if and only if the input is one optional `+` or `-` and at least one digit whose signed value is in [-2^63, 2^63-1], and returns that value. |
| `Strconv.AtoiErrorKind` | cmd/server/server.go:71-73 | A syntax error means the input is not a decimal integer. A decimal integer that Atoi rejects is out of range. |
| `Strconv.AtoiPlusSign` | cmd/server/server.go:71 | A leading `+` before digits changes nothing: Atoi accepts `+d` exactly when it accepts `d`, with the same value. |
| `Strconv.ScanDigitsOverflow` | cmd/server/server.go:71 | Once the digits read so far exceed 2^64-1, the loop stops with a range error. |
| `Strconv.AtoiOverflowBeforeSyntax` | cmd/server/server.go:71-73 | Digits worth more than 2^64-1 give a range error whatever follows them, even non-digits. |
| `Strconv.DecimalValuePrefix` | cmd/server/server.go:71 | A digit string's value is at least that of each of its prefixes. |
| `Strconv.FormatNat` | cmd/server/server.go:71 | Not at a source line: the digits of a non-negative value, used by `Itoa`. The decimal text of `n` is non-empty, all digits, and denotes `n`. |
| `Strconv.Itoa` | cmd/server/server.go:71 | Not at a source line: stands in for `strconv.Itoa`, the inverse of the Atoi at this line, as a minus sign for negative values followed by `FormatNat`. No contract of its own; stated by `AtoiItoa`. |
| `Strconv.AtoiItoa` | cmd/server/server.go:71 | Atoi reads back every 64-bit int that decimal formatting writes. |

## Left out

- `RunServer`, the `http.ServeMux` registration and `ListenAndServe` (cmd/server/server.go:27-33) are network I/O. The mux's prefix matching and path-cleaning redirects are not modelled, so the path is an input of each handler.
- `init` (cmd/server/server.go:19-25) starts one-time cache initialization in a goroutine under `sync.Once`. That is concurrency and is not modelled.
- The cache (`cache.New(time.Minute)`, `c.Init()`, pkg/cache) is not part of this model. This covers its time-to-live, freshness and invalidation. `c` appears only as the opaque token `TicketCache` in the read calls.
- `auth.Authorized` (pkg/auth) is not part of this model. Its verdict is the `authorized` input.
- The repository functions (pkg/repos) are not part of this model. A call to one appears as the `Dispatch` outcome, and nothing it does to the response is modelled.
- `response.New` and `Send` (pkg/response) are not part of this model. The `Reply` outcome records only the status code and status message the handler sets. `None` means the message keeps whatever default `response.New` gives it.
- `http.Error` writes the error message followed by a newline as the body, and sets content-type headers. Only its status code and the message are recorded.
- When `allTicketsHandler` returns without writing on a wrong path, net/http then sends its default reply. That default is framework behaviour and is not modelled.
- `log.Print` on a wrong path is not modelled.
- The text that `strconv.NumError.Error()` produces is not modelled. Its quoting of the input is left out. The status message carries the error value itself: function name, input and error kind.
- `Strconv.Atoi` models a 64-bit `int` only. On a 32-bit platform Atoi's range would be [-2^31, 2^31-1].
- The conversion `int64(id)` is the identity on a 64-bit platform, so the calls carry the parsed `int` unchanged.
- Go strings are byte sequences, and the model works on characters. Every character the handlers test (`/`, signs, digits) is ASCII and cannot occur inside a multi-byte UTF-8 sequence, so Trim, Split and Atoi decide the same way.
- `Strconv.Atoi`: Go's fast path for inputs shorter than 19 bytes is not written out separately. It accepts and rejects the same strings as the general path, and it cannot overflow.
- `GoStrings.Trim` and `GoStrings.Split` cover only the one-character cutset and separator that the handler uses.
