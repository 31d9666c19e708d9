# HTTP server bootstrap — a Dafny model

This project models the `server` package of a Go HTTP bootstrap layer built on gin. It covers:

- the CORS interceptor and its helper functions;
- the bearer-token gates for access and refresh tokens, and `AuthOnly`;
- the uniform JSON error responses and the 404 and 405 handlers;
- the size-based rotating log writer and the plain writers `mustOpen` returns;
- the per-request timeout interceptor;
- the request-id and error-capture interceptors;
- the grouping and ordering behind the route table that `LogRoutes` prints;
- `New`, `Start` and `Shutdown`: configuration defaults, the order of the global chain, the log sinks, the optional access gate on the root group, and the order of events at start and stop.

Each source file is one module:

| module | file | what it holds |
|---|---|---|
| `Common` | `common.dfy` | `Option`, bytes, int64 bounds and wrap-around, `time.Second` |
| `Text` | `text.dfy` | the parts of Go's `strings` package the code uses: ASCII case mapping, `TrimSpace`, `Index`, `Split`/`Join` |
| `Decimal` | `decimal.dfy` | `%d` formatting and the package's own `fmtInt` |
| `Errors` | `errors.dfy` | `RespondError`, the 404/405 handlers, and `Effect` |
| `Cors` | `cors.dfy` | the CORS policy: compiled once from the config, then evaluated per request |
| `CorsExamples` | `cors_examples.dfy` | the example wildcard origin checked against concrete origins |
| `Auth` | `auth.dfy` | `newAuth`, `pickToken`, the two gates, `StubValidator`, `AuthOnly` |
| `Logger` | `logger.dfy` | the rotating writer over an abstract file system, the sinks, and retention |
| `RoutesLog` | `routeslog.dfy` | `crop`, `short`, `first`, `color`, and the grouping and sorting of routes |
| `Timeout` | `timeout.dfy` | `TimeoutMiddleware` and what it does once the race is decided |
| `Middleware` | `middleware.dfy` | `RequestID` with hex encoding, and `ErrorCapture` |
| `Server` | `server.dfy` | `Config`, `New`, the global chain, `Start`, `Shutdown` |

`Effect` (module `Errors`) describes one interceptor's effect on one request. It records:

- what the interceptor wrote: nothing, a bare status, or the JSON error body;
- whether it aborted the chain;
- how many times it called the next handler.

Randomness, the clock, the OS and the network are inputs to the model:

- the twelve random bytes of a request id;
- the rotation timestamp;
- whether an `open` succeeds;
- which side of the timeout race wins;
- what the start hooks, `ListenAndServe` and the HTTP shutdown return.

The file system is a map from path to contents.

Go's `<` on strings compares bytes. The model compares code points, which orders valid UTF-8 the same way. `sort.Slice` is not stable, so the row order is specified as sortedness under the source's comparator plus a multiset permutation, not as one particular sequence.

## Model

| member | source | states |
|---|---|---|
| Errors.RespondError | server/errors.go:9-16 | the response is the JSON body `{ok: false, error: message, code, details}` with the given status, and the chain is aborted without calling the next handler |
| Errors.NotFoundHandler | server/errors.go:18-20 | unknown routes get 404 with code `not_found` and null details, and abort |
| Errors.MethodNotAllowedHandler | server/errors.go:21-23 | a wrong method gets 405 with code `method_not_allowed`, and aborts |
| Decimal.Format | server/cors.go:131-151 | `%d` rendering: a leading `-` exactly for negatives, then digits with no leading zero; `0` exactly for zero |
| Decimal.DigitsRoundTrip | server/cors.go:141-145 | the digit loop renders a natural number whose decimal value is that number |
| Decimal.FormatRoundTrip | server/cors.go:131-151 | parsing the rendering of any integer gives the integer back |
| Decimal.FormatInjective | server/cors.go:131-151 | distinct integers render differently |
| Decimal.FmtInt | server/cors.go:131-151 | `fmtInt` as written: `0` exactly for zero, and a leading `-` exactly for negatives |
| Decimal.FmtIntMatchesFormat | server/cors.go:131-151 | on every int64 except the most negative, `fmtInt` agrees with `%d` |
| Decimal.FmtIntMinInt64 | server/cors.go:135-145 | the most negative int64 renders as a lone `-`, unlike `%d` |
| Text.JoinSplit | server/cors.go:109-115 | splitting on `-` and re-joining with `-` gives the string back |
| Text.SplitJoin | server/cors.go:109-115 | joining segments that contain no `-` and splitting again gives the segments back |
| Text.TrimSpaceIdempotent | server/cors.go:87 | trimming a trimmed string changes nothing |
| Cors.Normalize | server/cors.go:84-92 | no more entries than the input, and each kept entry is non-empty and already trimmed |
| Cors.NormalizeMembers | server/cors.go:84-92 | a string is kept exactly when it is non-empty and some input entry trims to it |
| Cors.NormalizeAppend | server/cors.go:84-92 | entry by entry: normalising a concatenation concatenates the normalised parts, so input order is kept |
| Cors.NormalizeIdempotent | server/cors.go:84-92 | normalising twice is normalising once |
| Cors.DefaultIfEmpty | server/cors.go:93-98 | the default list exactly when the configured list is empty |
| Cors.UpperAll | server/cors.go:99-105 | same length, and each entry is the trimmed entry upper-cased |
| Cors.UpperAllIdempotent | server/cors.go:99-105 | applying it twice changes nothing, and no lower-case letter survives |
| Cors.UpperAllOfUpperWords | server/cors.go:99-105 | a list of upper-case words is left unchanged |
| Cors.Capitalize | server/cors.go:112 | a segment keeps its length, its `-` positions and its letters up to case; its first character is not a lower-case letter and no later one is upper-case (ASCII; see Left out for the byte slice) |
| Cors.HeaderCaseAll | server/cors.go:106-118 | same length; each result folds to its trimmed entry, so only the case of letters changes, and each of its `-`-separated segments is capitalised |
| Cors.HeaderCaseSegments | server/cors.go:109-115 | the segments of the header-cased entry are, one for one, the capitalised segments of the trimmed entry |
| Cors.HeaderCaseFolds | server/cors.go:106-118 | header-casing an entry changes only the case of its letters: lower-cased, it equals the trimmed entry lower-cased |
| Cors.Unique | server/cors.go:119-129 | no entry appears twice, and the entries are exactly those of the input |
| Cors.UniqueKeepsFirstOrder | server/cors.go:119-129 | entries come in the order of their first appearance in the input |
| Cors.UniqueOfDistinct | server/cors.go:119-129 | a list without duplicates is returned unchanged |
| Cors.UniqueIdempotent | server/cors.go:119-129 | de-duplicating twice is de-duplicating once |
| Cors.OriginAllowed | server/cors.go:51-72 | false for an empty origin or an empty list; otherwise true exactly when some entry admits the origin |
| Cors.WildcardIndex | server/cors.go:59-61 | for `http://*.` and `https://*.` entries, `://*.` is found at positions 4 and 5, so the guard `i > 0` always holds |
| Cors.FoldMatchIsWildcardMatch | server/cors.go:56-67 | when a wildcard entry with a lower-case scheme equals the origin up to case, the wildcard test also admits the origin |
| Cors.HttpsWildcardEntry | server/cors.go:55-67 | an `https://*.d` entry admits an origin exactly when the origin, lower-cased, starts with `https://` and ends with `.` plus `d` lower-cased |
| Cors.HttpWildcardEntry | server/cors.go:55-67 | the same for `http://*.d` entries |
| Cors.SoleEntry | server/cors.go:51-72 | with a one-entry list, a non-empty origin is allowed exactly when that entry admits it |
| Cors.AllowValue | server/cors.go:73-80 | `*` when the list contains `*`, otherwise the origin echoed back |
| Cors.MaxAgeValue | server/cors.go:18-21 | empty exactly when the max age is not positive; otherwise digits whose value is the whole seconds |
| Cors.MaxAgeViaFmtInt | server/cors.go:18-21 | for a positive max age, the value equals what the package's own `fmtInt` renders for the whole seconds |
| Cors.Compile | server/cors.go:12-21 | origins are the normalised list; methods, headers and exposed headers are the defaulted, re-cased, de-duplicated lists joined with `, `; the credentials flag is copied; max-age is `MaxAgeValue` |
| Cors.DefaultMethodsAdvertised | server/cors.go:13-14 | with no methods configured, the methods header is the default list joined with `, `, in order and without change |
| Cors.OriginHeaders | server/cors.go:25-33 | the allow-origin, credentials and expose-headers headers, each present exactly when the origin is allowed and its setting is on, with its value; no other header |
| Cors.PreflightHeaders | server/cors.go:34-43 | the origin headers are kept, and methods, headers and max-age are added exactly when non-empty, with their values; nothing else is added |
| Cors.Evaluate | server/cors.go:23-48 | allow-origin is set iff the origin is allowed; it is `*` iff the list has `*` or the origin is `*`, else the origin. Credentials (`true`) and expose-headers (the exposed list) are set iff the origin is allowed and their setting is on. Methods, headers and max-age are set iff the request is OPTIONS and the value is non-empty, each to its compiled value. No other header is set. OPTIONS aborts with 204 without calling next; every other method passes through |
| Cors.CORSMiddleware | server/cors.go:11-49 | allow-origin is set iff the origin passes the normalised list, with `allowValue`'s value; credentials go with it when enabled; expose-headers go with it when the compiled list is non-empty. Methods and headers are sent on OPTIONS when non-empty, max-age on OPTIONS with a positive max age, each with its compiled value. No other header. OPTIONS ends with 204; other methods call next once and write nothing |
| Cors.PreflightAdvertisesDefaults | server/cors.go:13-14 | with no methods configured, every preflight carries the methods header with the default list joined by `, ` |
| CorsExamples.WildcardExample | server/cors.go:59-67 | `https://*.example.com` admits `https://a.example.com` but not `http://a.example.com` or `https://example.com` |
| Auth.NewAuth | server/auth.go:24-32 | an empty header name becomes `Authorization` and an empty prefix becomes `Bearer `; every other field and the validator are kept |
| Auth.NewAuthIdempotent | server/auth.go:24-32 | defaulting an already defaulted configuration changes nothing |
| Auth.PickToken | server/auth.go:70-88 | a header with the bearer prefix gives its trimmed remainder; otherwise the gate's own configured cookie when present and non-empty; otherwise nothing |
| Auth.HeaderBeatsCookies | server/auth.go:72-75 | with a bearer header, cookies are irrelevant, even when the header's token is blank |
| Auth.OtherCookieIgnored | server/auth.go:77-86 | changing any cookie except the gate's own does not change the token |
| Auth.Run | server/auth.go:34-68 | No token: 401 `no_token` with the kind's message, and no validator call. A rejected token: one call of the gate's own kind, the validator's error attached, and 401 `invalid_token`. An accepted token: the claims are stored under the kind's key and next is called once |
| Auth.ThreeOutcomes | server/auth.go:34-50 | every run is exactly one of: missing token, invalid token, or continued with claims stored |
| Auth.ErrorTextNotExposed | server/auth.go:41-45 | the validator's error text does not affect the response |
| Auth.StubValidator | server/auth.go:91-104 | both checks accept exactly the token `ok` |
| Auth.StubVerdicts | server/auth.go:93-104 | the stub's claims (`sub`, plus `role` for access) and its `bad token` error |
| Auth.AuthOnly | server/auth_helpers.go:7-13 | standard header and prefix, no cookie names, the given validator, and the access kind iff `access` |
| Auth.AuthOnlyCallsOwnValidator | server/auth_helpers.go:9-12 | the gate calls only the validator of the requested kind |
| Auth.AuthOnlyIgnoresCookies | server/auth_helpers.go:8 | without a bearer header it rejects with `no_token` and calls no validator, whatever cookies are sent |
| Logger.Rename | server/logger.go:46 | the destination takes the source's contents and the source disappears; a missing source changes nothing; no other file changes |
| Logger.Shift | server/logger.go:45-47 | only numbered backups are touched |
| Logger.ShiftMoves | server/logger.go:45-47 | `path.1` is gone; each `path.j` takes the old `path.(j-1)`; the top slot takes the old top backup if there was one and otherwise keeps its contents |
| Logger.ShiftWithoutBackups | server/logger.go:45-47 | with no numbered backups present, the shift changes nothing |
| Logger.NumberedInjective | server/logger.go:46 | different backup numbers give different names |
| Logger.StampedIsNotNumbered | server/logger.go:46-49 | a timestamped archive name is neither a numbered backup nor the log itself |
| Logger.Open | server/logger.go:29-39 | on success the file exists (created empty if it was missing), is held open, and the counter equals its size; on failure nothing changes |
| Logger.Rotate | server/logger.go:40-55 | `rotate` as written: the old log becomes the timestamped archive; `path.(backups+1)` is removed; on a successful reopen the log is empty and the counter is zero, and on a failed one no log file is left |
| Logger.RotateKeepsOthers | server/logger.go:45-52 | a rotation touches only the log, its timestamped archive and the backups `path.1` .. `path.(backups+1)` |
| Logger.RotateMovesBackups | server/logger.go:45-47 | the numbered backups move up one slot: `path.1` is vacated, `path.j` takes `path.(j-1)`, and `path.backups` takes `path.(backups-1)` when it exists |
| Logger.Ready | server/logger.go:57-61 | an open is attempted only when no file is held |
| Logger.Write | server/logger.go:56-70 | If the open fails, nothing changes and 0 is reported. If the bytes would not fit, the log is rotated as written: the old contents go to the timestamped archive and the log holds just the new bytes, or, when the reopen fails, the write reports 0 and no log is left. Otherwise the bytes are appended and counted. A closed file accepts nothing |
| Logger.WriteRotationOnlyAdds | server/logger.go:56-70 | a write that rotates, with no numbered backups around, adds exactly its timestamped archive and leaves no numbered backup |
| Logger.WritesPileUpArchives | server/logger.go:56-70 | with one backup configured, two overflowing writes at different times leave two archives |
| Logger.WriteRetaining | server/logger.go:56-70 | the corrected write: as `Write`, but a rotation moves the old contents to `path.1` when backups are kept |
| Logger.Close | server/logger.go:71-76 | a held file is closed; a writer without a file is unchanged |
| Logger.CloseOk | server/logger.go:71-76 | closing fails only on a file that is already closed |
| Logger.WriteKeepsWithinLimit | server/logger.go:62-69 | a successful write of at most the limit leaves the counter within the limit |
| Logger.WritePreservesInv | server/logger.go:56-70 | the counter keeps matching the size of the held file |
| Logger.CloseKeepsInv | server/logger.go:71-76 | closing keeps that agreement |
| Logger.NewSink | server/logger.go:19-28 | An empty path gives standard output. A size limit ≤ 0 gives a plain append-only file, or a panic when it cannot be opened. Otherwise a rotating writer is returned with its file open and counted, or the open error |
| Logger.SinkWrite | server/logger.go:56-80 | plain sinks accept every byte; a file sink appends to its own file only; standard output leaves the file system alone |
| Logger.SinkClose | server/logger.go:71-80 | plain sinks close as a no-op; a rotating sink ends without an open file |
| Logger.PlainSinkNeverRotates | server/logger.go:20-21 | over any number of writes, a plain file sink only grows its own file and touches no other |
| Logger.RotateOnlyAdds | server/logger.go:45-52 | with no numbered backups present, a rotation as written only adds its timestamped archive |
| Logger.RetentionIgnored | server/logger.go:45-52 | with one backup configured, two rotations as written leave two archives |
| Logger.RotateRetaining | server/logger.go:40-55 | the corrected rotation: the old log becomes `path.1` when backups are configured and is dropped otherwise; the log is then empty with the counter at zero |
| Logger.RetainingKeepsAtMostBackups | server/logger.go:45-52 | under the corrected rotation, archives stay among `path.1` .. `path.backups`, so there are at most `backups` of them |
| Logger.WriteKeepsAtMostBackups | server/logger.go:45-52 | with the corrected rotation, no write takes the archives outside `path.1` .. `path.backups` |
| Timeout.TimeoutMiddleware | server/timeoutmw.go:12-20 | pass-through exactly when the deadline is not positive; otherwise the deadline is enforced with the configured status, or 504 when that is 0 |
| Timeout.AfterRace | server/timeoutmw.go:21-42 | The handlers run once in every case. The chain is aborted exactly when the deadline wins. A JSON `timeout` body with the chosen status is written exactly when the deadline wins before anything was written |
| Timeout.CompletionIsTransparent | server/timeoutmw.go:31-33 | when the handlers finish first, the outcome is that of having no interceptor |
| Timeout.DeadlineStatus | server/timeoutmw.go:17-20 | an unanswered request past its deadline gets the configured status, or 504 |
| Timeout.LateDeadlineOnlyAborts | server/timeoutmw.go:34-40 | a deadline after a response was written adds no status but still aborts |
| Middleware.EncodeHex | server/middleware.go:24 | two lower-case hex digits per byte |
| Middleware.HexRoundTrip | server/middleware.go:22-24 | decoding an encoded id gives back the random bytes |
| Middleware.HexInjective | server/middleware.go:22-24 | different bytes give different ids |
| Middleware.IdHeader | server/middleware.go:16-18 | the configured header name, or `X-Request-Id` when empty |
| Middleware.RequestID | server/middleware.go:15-30 | a non-empty incoming id is reused; otherwise the id is 24 hex digits that decode to the random bytes; it is stored under `request_id`, echoed in the same header, and next is called once |
| Middleware.FreshIdsDiffer | server/middleware.go:20-24 | two requests without an id get different ids when their random bytes differ |
| Middleware.ErrorCapture | server/middleware.go:42-54 | the rest of the chain runs first, then one log line per error |
| Middleware.CaptureLogsEachError | server/middleware.go:46-52 | exactly the attached errors are logged, each once, in order |
| RoutesLog.Crop | server/routeslog.go:78-87 | the length is the smaller of the text's length and the width; a cropped text keeps its prefix and ends in `…` when the width is at least 2 |
| RoutesLog.CropIdempotent | server/routeslog.go:78-87 | cropping twice to the same width is cropping once |
| RoutesLog.Short | server/routeslog.go:88-93 | the text after the last dot, or the whole name when there is no dot |
| RoutesLog.First | server/routeslog.go:94-99 | `/` for the root; otherwise the first segment after an optional leading slash, which contains no `/` |
| RoutesLog.FirstOfSingleSegment | server/routeslog.go:94-99 | the group of `/seg` is `seg` |
| RoutesLog.Color | server/routeslog.go:113-130 | a colour escape exactly for GET, POST, PUT, DELETE, PATCH and HEAD |
| RoutesLog.ColorsDistinct | server/routeslog.go:113-130 | different coloured methods get different colours |
| RoutesLog.Rank | server/routeslog.go:25 | GET, POST, PUT, PATCH and DELETE get ranks 1 to 5 in that order, and any other method 0 |
| RoutesLog.StrLessIrreflexive | server/routeslog.go:55 | no path sorts before itself |
| RoutesLog.StrLessTransitive | server/routeslog.go:55 | path order is transitive |
| RoutesLog.StrLessTotal | server/routeslog.go:55 | any two different paths are ordered one way or the other |
| RoutesLog.StrLessAsymmetric | server/routeslog.go:55 | path order is asymmetric |
| RoutesLog.RowLessTransitive | server/routeslog.go:51-56 | the row comparator is transitive |
| RoutesLog.InsertRow | server/routeslog.go:51-56 | inserting into sorted rows keeps them sorted and adds exactly the new row |
| RoutesLog.SortRows | server/routeslog.go:51-56 | the result is sorted by the comparator and is a permutation of the input |
| RoutesLog.SortedByPathThenRank | server/routeslog.go:51-56 | in sorted rows, paths ascend, and within one path the method rank does not decrease |
| RoutesLog.SamePathListedByRank | server/routeslog.go:51-56 | within one path, a row whose method comes earlier in GET, POST, PUT, PATCH, DELETE is listed before a row with a later one |
| RoutesLog.InsertKey | server/routeslog.go:19-23 | keeps the keys strictly sorted, and adds exactly the new key |
| RoutesLog.GroupKeys | server/routeslog.go:14-23 | strictly sorted, and exactly the groups of the routes |
| RoutesLog.RowsOf | server/routeslog.go:14-18 | a group holds no more rows than there are routes, and each row's path belongs to the group |
| RoutesLog.RowsOfMembers | server/routeslog.go:14-18 | a row is in a group exactly when some route in that group has that method, path and shortened handler name |
| RoutesLog.LogRoutes | server/routeslog.go:11-74 | group keys are strictly sorted and are exactly the routes' groups; each group's rows are sorted and are a permutation of that group's routes |
| RoutesLog.EveryRouteListed | server/routeslog.go:14-18 | every route appears as a row in its group |
| RoutesLog.GroupsNonEmpty | server/routeslog.go:14-23 | no group is empty |
| Server.OrDefault | server/server.go:44-55 | a timeout left at 0 takes the default; any other value is kept |
| Server.WithDefaults | server/server.go:38-55 | address and shutdown wait are positive (defaults replace values ≤ 0); the four timeouts are defaulted only when 0; every other field is untouched |
| Server.WithDefaultsIdempotent | server/server.go:38-55 | defaulting twice is defaulting once |
| Server.CompleteConfigKept | server/server.go:38-55 | a configuration that sets every defaulted field is kept as is |
| Server.GlobalChain | server/server.go:80-88 | access log, recovery, error capture, request id, CORS, then the timeout interceptor exactly when the deadline is positive |
| Server.ChainTimeoutAgrees | server/server.go:86-88 | the chain enforces exactly the deadline `TimeoutMiddleware` would, so skipping the interceptor loses nothing |
| Server.ChainOrder | server/server.go:81-87 | the request id is assigned after error capture is in place and before CORS and the deadline |
| Server.RootGate | server/server.go:107-113 | an access gate is on the root group exactly when enabled, with the given validator or the stub |
| Server.RootGateDefaultsToStub | server/server.go:107-113 | without a validator of its own, the root gate lets a request through exactly when its token is `ok` |
| Server.New | server/server.go:37-148 | New succeeds exactly when every configured log file opens. Otherwise it reports a panic when rotation is off, and the open error when rotation is on. A built server has the defaulted config, the global chain, the 404/405 handlers, the base path, the root gate and `:` plus the port as address. Each sink is the standard stream for an empty name, else a plain file when rotation is off, else an open rotating writer with the configured limit and backups. Only the two log files may change, and a file that opened exists afterwards |
| Server.StartFrom | server/server.go:165-183 | hooks run in order until one fails, and its error is returned; the server listens exactly when none fails |
| Server.Start | server/server.go:164-184 | hooks run in order; when none fails the server listens and returns the listener's error |
| Server.StartStopsAtFirstFailure | server/server.go:165-169 | when hook `f` is the first to fail, hooks 0 .. `f` ran, nothing else happened, and `f`'s error is returned |
| Server.Shutdown | server/server.go:186-196 | stop hooks, then the HTTP shutdown, then the access and error sinks are closed; the shutdown's error is returned |
| Server.SinksClosedRegardless | server/server.go:190-195 | the sinks are closed the same way whatever the HTTP shutdown returns |

## Left out

- Case mapping and whitespace follow Go on ASCII letters and the Unicode spaces `TrimSpace` knows. Non-ASCII case folding (`EqualFold`, `ToLower`, `ToUpper`) is not modelled, and neither is invalid UTF-8.
- Cors.Capitalize: Go takes the first byte of a segment (`p[:1]`), not its first character. For a segment that starts with a multi-byte character (`Ñame`), Go splits the character and produces U+FFFD replacement characters; the model upper-cases the whole first character instead.
- Auth.Validator: a Go `TokenValidator` also receives the request context and could read or write the response (abort, set a status). The model's validator is a pure function of the token, so `Auth.Run` and `Auth.ErrorTextNotExposed` assume validators that leave the response alone.
- Header lookup uses the exact name. Go's header canonicalisation is not modelled.
- Cookies are given already unescaped. Cookie parse errors are not modelled.
- The timeout goroutine, the context deadline and cancellation are not modelled. Which side wins the race is an input, and so is whether a response was already written.
- File I/O:
  - writes are assumed to complete in full;
  - a failed `Stat` is not modelled;
  - `MkdirAll` is not modelled;
  - a file renamed while open is not modelled.
- One `openOk` flag covers every `open` within a single `Write` call.
- Logger.Write: the byte counter is an unbounded integer; int64 overflow of `written` is not modelled.
- Errors.RespondError: gin's response writer, JSON rendering and panic recovery (`RecoveryJSON`) are reduced to the `Effect` record.
- Log line formats and table layout are not modelled (access log, error log, `[server]` lines, the route table's padding and borders in server/routeslog.go:27-73).
- Signal handling and `ListenAndServe` are not modelled. What the listener returns is an input.
- `gin.SetMode` for release mode is left out. It sets global gin state that the model has no counterpart for.
- `Health`, `SysEndpoints`, route registrars, engine mutators, options, the route-table print at start, and the `GET`/`POST`/`Group` helpers are not modelled. Registering them is routing-table plumbing that the model has no counterpart for.
- server/sys.go, server/register.go, server/options.go and main.go are not part of this model.
- Cors.DefaultMethodsAdvertised: states the methods header as the join of the default list, not as the literal string `GET, POST, PUT, PATCH, DELETE, OPTIONS`.

## Findings

| source | as written | input that shows it | evidently intended | confidence | as-written member | corrected member |
|---|---|---|---|---|---|---|
| server/logger.go:45-52 | `rotate` archives the log as `path.<timestamp>.1` but shifts and prunes only `path.1` .. `path.(backups+1)`, which it never creates, so archives pile up without limit | `backups = 1`, two writes that each overflow the size limit, at different times: two archives remain | the backup count bounds what is kept; the log moves to `path.1` so the shift and the removal of `path.(backups+1)` take effect | medium, not executed | Logger.WritesPileUpArchives | Logger.WriteKeepsAtMostBackups |
| server/cors.go:135-145 | `fmtInt` takes the magnitude by 64-bit negation, which wraps for the most negative value; the digit loop then runs zero times | `fmtInt(-9223372036854775808)` returns `"-"` | the `%d` rendering `-9223372036854775808` | low (unreachable from `CORSMiddleware`, which only passes positive seconds), not executed | Decimal.FmtIntMinInt64 | Decimal.FormatRoundTrip |
