# blob-system, modelled in Dafny

blob-system is a small file-sharing service. A FastAPI server keeps users,
file records and access grants in a relational store, the file bytes on
disk (gzip-compressed), and refresh tokens in a Redis key store. A
command-line client logs in, uploads, downloads, renames, shares and
deletes files. The repository holds three generations of the server: the
first flat-directory endpoints under `server/`, the earlier multi-user
server under `server/server_src/`, and the current one under
`server/src/`. It also holds two generations of the client.

This project models the core of that system:

- Access control over files. The ledger of file records and grants, the
  ownership rule (one owner grant per file), and every file endpoint's
  guard chain, ledger updates and disk effects.
- Authentication. Token construction, signature and expiry checks, the
  refresh-token key store with its TTLs, the per-user session epoch that
  logout-all moves forward, and the two request guards.
- Transport details the two sides must agree on. The
  `Content-Disposition` header the server writes and the client parses
  back (percent-encoding included), chunked streaming of the
  decompressed bytes, the error-detail format of the server's exceptions
  and the client's response validator.
- The client's file chooser, in both generations.

Values (user rows, records, tokens, headers) are datatypes. The stores the
source updates in place are classes: `FileService.Ledger` (the `files` and
`userfile` tables), `UserService.UserStore` (the `users` table),
`TokenService.KeyStore` (Redis), `Storage.Disk` (the file system) and
`FlatFileRouter.FlatStore` (the first server's directory). Each endpoint is
a method over them, and its `ensures` state its whole effect on them. The
loops of the source (the 4096-byte read loop, the chunk writers, the grant
deletion loop, the chooser's listing loops) are `while`/`for` loops with
their invariants.

The environment is made explicit:

- The clock is an integer number of seconds, passed as `now`.
- Ids are natural numbers handed out by a counter, standing in for the
  uuid column defaults.
- Signing is the value `Signed(alg, key, claims)`.
- gzip is a fixed 10-byte member header followed by the payload. What the
  model relies on is that a gzip object is never empty (a real one holds at
  least an 18-byte header and trailer), so its recorded size is truthy.
- `FILE_BASE_PATH + id` is the value `Path(base, id)`.

## Model

| member | source | states |
|---|---|---|
| Common.ConcatAppend | server/src/routers/file.py:62-63 | appending one more written chunk extends the concatenation by exactly that chunk |
| PercentEncoding.HexValue | server/src/routers/file.py:83 | a hexadecimal digit denotes a value below 16 |
| PercentEncoding.HexDigit | server/src/routers/file.py:83 | the digit `quote` writes is a hexadecimal digit that denotes the value it encodes |
| PercentEncoding.Quote | server/src/routers/file.py:83 | `quote` never shortens a name, and its output consists only of unreserved bytes and `%` |
| PercentEncoding.Unquote | client/src/webapi/api.py:127 | `unquote` never lengthens a text, and a non-empty text stays non-empty |
| PercentEncoding.QuoteLength | server/src/routers/file.py:83 | `quote` never shortens a name, and strictly lengthens every name with a reserved byte |
| PercentEncoding.QuoteIdentity | server/src/routers/file.py:83-84 | `quote(n) == n` holds exactly when every byte of `n` is unreserved (both directions) |
| PercentEncoding.UnquoteWithoutPercent | client/src/webapi/api.py:127 | `unquote` leaves a text without `%` unchanged |
| PercentEncoding.UnquoteQuote | client/src/webapi/api.py:127 | `unquote(quote(n)) == n` for every name |
| ContentDisposition.Header | server/src/routers/file.py:83-87 | the header is always an `attachment; ` disposition, longer than that prefix |
| ContentDisposition.Bytes | server/src/routers/file.py:85-87 | a literal's byte form has the literal's length |
| ContentDisposition.HeaderForm | server/src/routers/file.py:83-87 | the plain `filename="n"` form is written exactly for names with only unreserved bytes; otherwise the `filename*=utf-8''` form with the quoted name |
| ContentDisposition.RunLength | client/src/webapi/api.py:13-14 | `(.+)` runs to the next newline or the end of the header, never past a newline |
| ContentDisposition.Backtrack | client/src/webapi/api.py:13 | the greedy group of `filename="(.+)"` gives back bytes up to the last `"` it covered, so the capture ends just before a quote |
| ContentDisposition.ParseDisposition | client/src/webapi/api.py:119-128 | the extended expression is tried first; the name is the percent-decoded capture of the first expression that matches; no match is the client's APIException |
| ContentDisposition.FindEncodedNone | client/src/webapi/api.py:122-123 | the search for the extended expression finds nothing exactly when no position matches (both directions) |
| ContentDisposition.FindEncodedLeftmost | client/src/webapi/api.py:122-127 | what the extended search finds is the capture at the leftmost matching position, as `findall(...)[0]` takes |
| ContentDisposition.FindPlainNone | client/src/webapi/api.py:124-125 | the search for the plain expression finds nothing exactly when no position matches (both directions) |
| ContentDisposition.FindPlainLeftmost | client/src/webapi/api.py:124-127 | what the plain search finds is the capture at the leftmost matching position |
| ContentDisposition.SkipEncoded | client/src/webapi/api.py:122 | the search for the extended expression skips every position that does not start a match |
| ContentDisposition.SkipPlain | client/src/webapi/api.py:124 | the search for the plain expression skips every position that does not start a match |
| ContentDisposition.NoEncodedWithoutStar | client/src/webapi/api.py:122 | a header without `*` never matches the extended expression |
| ContentDisposition.LiteralFacts | server/src/routers/file.py:85-87 | the header literals start with `attachment; `, hold no `*` or newline, and have the lengths the search relies on |
| ContentDisposition.PlainHasNoEncoded | server/src/routers/file.py:85 | a plain-form header contains no extended match, so the client falls through to the plain expression |
| ContentDisposition.PlainLayout | server/src/routers/file.py:85 | in a plain-form header the literal `filename="` sits after `attachment; `, the name follows it and a closing `"` ends the header, with no newline after the literal |
| ContentDisposition.PlainSearch | client/src/webapi/api.py:124 | on a header of the plain layout the plain expression captures the bytes between the quotes when there is at least one, and finds nothing otherwise |
| ContentDisposition.PlainMatch | client/src/webapi/api.py:124-127 | on a plain-form header for a non-empty name the plain expression captures exactly that name |
| ContentDisposition.PlainRoundTrip | server/src/routers/file.py:84-85 | the client reads a plain-form header back as the stored name |
| ContentDisposition.EncodedSearch | client/src/webapi/api.py:122 | on a header of the extended layout the extended expression captures the whole newline-free value after `utf-8''` |
| ContentDisposition.ExtendedRoundTrip | server/src/routers/file.py:86-87 | the client reads an extended-form header back as the stored name, by way of `unquote(quote(n)) == n` |
| ContentDisposition.DispositionRoundTrip | client/src/webapi/api.py:119-128 | the file name survives the header for every non-empty name; the empty name matches neither expression |
| Storage.Compress | server/src/routers/file.py:44 | a gzip object is never empty, so its size is truthy and gets recorded |
| Storage.DecompressCompress | server/src/routers/file.py:91 | reading back a compressed object gives its payload |
| Storage.Decompress | server/src/routers/file.py:91 | only a compressed object decompresses, and then to the payload it is the compression of; an empty object does not decompress |
| Storage.StoragePath | server/src/routers/file.py:47 | the storage path of a file is determined by its id |
| Storage.Read | server/src/routers/file.py:92 | a read returns at most 4096 bytes, continues the content from the offset, is short only at the end, and is empty exactly at the end |
| Storage.IterFile | server/src/routers/file.py:90-96 | the yielded pieces are non-empty, at most 4096 bytes, all full except the last, and concatenate to the content |
| Storage.Disk.constructor | server/src/routers/file.py:44 | no objects are stored |
| Storage.Disk.WriteCompressed | server/src/routers/file.py:44 | the object at the path becomes the compression of the upload; other objects are untouched |
| Storage.Disk.WriteCompressedChunks | server/src/routers/file.py:60-63 | the object becomes the compression of the chunks in arrival order; other objects are untouched |
| Storage.Disk.WriteLines | server/server_src/routers/file.py:27-29 | the object becomes the lines in order, uncompressed; other objects are untouched |
| Storage.Disk.Remove | server/src/routers/file.py:277-281 | only that object is removed, and failure is reported exactly when it was absent |
| FileService.Edited | server/src/services/file.py:22-40 | a field is replaced only by a truthy value; an omitted field, a size of 0 and an empty name keep the old value |
| FileService.GrantsOfUser | server/src/services/file.py:47-48 | exactly the grants of that user, with their tiers |
| FileService.GrantsOnFile | server/src/services/file.py:43-44 | exactly the grants on that file, with their tiers |
| FileService.WithoutFile | server/src/services/file.py:84-93 | exactly the grants on other files remain, unchanged |
| FileService.WithoutFileKeepsInvariant | server/src/services/file.py:84-93 | deleting a file with all its grants keeps every grant on an existing file and one owner per file |
| FileService.CreateKeepsInvariant | server/src/services/file.py:9-19 | a new file with one owner grant keeps the ownership rule |
| FileService.Ledger.constructor | server/src/services/file.py:9-19 | the ledger starts empty and satisfies the ownership rule |
| FileService.Ledger.CreateUserFile | server/src/services/file.py:9-19 | a fresh id, a record with the name and no size or path, one owner grant for the creator, nothing else; the ownership rule is kept |
| FileService.Ledger.EditUserFile | server/src/services/file.py:22-40 | only that record changes, to its truthy-field update; grants are untouched |
| FileService.Ledger.GetFileInfo | server/src/services/file.py:43-44 | the record with exactly its grants, or None exactly when there is no such file |
| FileService.Ledger.GetUserFiles | server/src/services/file.py:47-48 | exactly the caller's grants |
| FileService.Ledger.GetUserFile | server/src/services/file.py:51-52 | the grant of that pair, or None exactly when there is none |
| FileService.Ledger.ChangeFileAccess | server/src/services/file.py:55-64 | only the tier of that grant changes |
| FileService.Ledger.AddFileAccess | server/src/services/file.py:67-72 | exactly one grant is inserted |
| FileService.Ledger.RemoveFileAccess | server/src/services/file.py:75-81 | exactly that grant is deleted, and its tier is returned |
| FileService.Ledger.DeleteUserFile | server/src/services/file.py:84-93 | all grants on the file and then the record are deleted, the record is returned, and the ownership rule is kept |
| UserService.FindById | server/src/services/user.py:9-10 | a row with that id, no earlier row having it (`.first()`); None exactly when no row has it |
| UserService.FindByUsername | server/src/services/user.py:13-14 | a row with that username, no earlier row having it (`.first()`); None exactly when no row has it |
| UserService.UniqueLookup | server/src/services/user.py:13-14 | when usernames are unique, looking up a row's username finds exactly that row |
| UserService.FindByIdPositional | server/src/services/user.py:9-10 | with ids assigned in insertion order, lookup by id is the row at that position |
| UserService.WithEpoch | server/src/services/user.py:26-32 | only the epoch of that one user changes |
| UserService.UserStore.constructor | server/src/services/user.py:17-23 | no users are stored |
| UserService.UserStore.GetUser | server/src/services/user.py:9-10 | the user with that id, or None exactly when there is none |
| UserService.UserStore.GetUserByUsername | server/src/services/user.py:13-14 | a user with that name; None exactly when no user has it |
| UserService.UserStore.PasswordIgnored | server/src/services/user.py:13-14 | the password argument never changes the lookup's answer |
| UserService.UserStore.CreateUser | server/src/services/user.py:17-23 | one row is appended with a fresh id, the name, the password as given and the current time as epoch; adding a name not yet taken keeps usernames unique |
| UserService.UserStore.LogoutAllUsers | server/src/services/user.py:26-32 | the user's epoch becomes now; no other row changes |
| Jwt.Encode | server/src/middleware/jwt.py:21 | a signed token verifies only under the key it was signed with and HS256, and then yields the claims it was given |
| Jwt.CreateAccessToken | server/src/middleware/jwt.py:14-22 | an access token verifies only under the access secret, and then yields the access claims |
| Jwt.CreateRefreshToken | server/src/middleware/jwt.py:25-34 | a refresh token verifies only under the refresh secret, and then yields the refresh claims |
| Jwt.Decode | server/src/middleware/auth.py:29 | a token decodes only when it is signed with that key and algorithm, and its claims are then unexpired |
| Jwt.DecodeEncode | server/src/middleware/jwt.py:21-22 | an unexpired token decodes to its claims under its own key with HS256, and under no other algorithm |
| Jwt.Expiry | server/src/middleware/jwt.py:16-20 | a truthy explicit lifetime wins; otherwise the configured lifetime in minutes applies |
| Jwt.AccessClaims | server/src/middleware/jwt.py:14-22 | the claims are the caller's data plus `exp`, with the data otherwise unchanged |
| Jwt.RefreshClaims | server/src/middleware/jwt.py:25-34 | the claims are the caller's data plus `exp` and `created_at = now` |
| Jwt.TokenKindsSeparate | server/src/middleware/jwt.py:22 | with distinct secrets, an access token never passes as a refresh token or the reverse |
| Jwt.IssuedTokensDecode | server/src/middleware/jwt.py:14-34 | both fresh tokens decode to their claims under their own secret until their expiry, when the configured algorithm is HS256 |
| TokenService.SetKey | server/src/services/token.py:6 | SET makes the key live with no deadline and maps it to the user; other keys are unchanged |
| TokenService.ExpireKey | server/src/services/token.py:7 | EXPIRE on a missing key changes nothing; a non-positive lifetime deletes the key; otherwise the key stays live exactly until now plus the lifetime; other keys are unchanged |
| TokenService.Registered | server/src/services/token.py:5-7 | registering a token leaves every other key unchanged |
| TokenService.RegisteredSpec | server/src/services/token.py:5-7 | after registration the token is live for the refresh lifetime and maps to the user (a non-positive lifetime deletes it); other keys are unchanged |
| TokenService.RemoveSpec | server/src/services/token.py:10-11 | after removal the token is not live; removal is idempotent; other keys are unaffected |
| TokenService.KeyStore.constructor | server/src/services/token.py:5-7 | the store starts empty |
| TokenService.KeyStore.SetRefreshToken | server/src/services/token.py:5-7 | SET followed by EXPIRE with the refresh lifetime in seconds |
| TokenService.KeyStore.RemoveRefreshToken | server/src/services/token.py:10-11 | exactly that key is deleted |
| TokenService.KeyStore.CheckRefreshToken | server/src/services/token.py:14-17 | true exactly when the key exists and has not passed its deadline |
| AuthMiddleware.UserIdClaim | server/src/middleware/auth.py:31-34 | a row id exactly when the `user_id` claim is a non-negative number |
| AuthMiddleware.VerifyRefreshToken | server/src/middleware/auth.py:19-40 | a missing or unregistered token is rejected before decoding; errors are InvalidCredentials, or a server error for an unreadable `created_at`; an accepted user is a stored row |
| AuthMiddleware.RefreshAcceptance | server/src/middleware/auth.py:19-40 | a refresh token is accepted for a user exactly when it is live, correctly signed, unexpired, names the stored user, and was created no earlier than the user's epoch |
| AuthMiddleware.EpochRevokes | server/src/middleware/auth.py:38-40 | after logout-all moves the epoch to t, every refresh token created before t is rejected |
| AuthMiddleware.VerifyAccessToken | server/src/middleware/auth.py:43-59 | accepted exactly when the token decodes and names a stored user; TokenExpired exactly for a missing or undecodable token, InvalidCredentials otherwise |
| AuthMiddleware.AccessIgnoresEpoch | server/src/middleware/auth.py:43-59 | moving a user's epoch changes neither the acceptance nor the user of any access token |
| AuthMiddlewareEarly.VerifyAccessToken | server/middleware/auth.py:39-55 | every failure of the earlier access check is InvalidCredentials |
| AuthMiddlewareEarly.SameAcceptance | server/middleware/auth.py:39-55 | the earlier and the current access checks accept the same tokens with the same user, and differ only in the error reported |
| AuthRouter.IdentityClaims | server/src/routers/auth.py:36-37 | the token data carry exactly the username and the user's id |
| AuthRouter.SessionFor | server/src/routers/auth.py:36-37 | the access token is signed with the access secret, the refresh token with the refresh secret and stamped with the issue time; the access token carries no `created_at` |
| AuthRouter.IssuedSessionAccepted | server/src/routers/auth.py:22-43 | a freshly issued session passes both checks within its lifetimes |
| AuthRouter.Login | server/src/routers/auth.py:22-43 | an unknown name is InvalidCredentials and changes nothing; otherwise the session for that user is issued and its refresh token registered |
| AuthRouter.Register | server/src/routers/auth.py:46-66 | a taken name is Forbidden and changes nothing; otherwise exactly one user is appended and a session is issued and registered; unique usernames stay unique |
| AuthRouter.Refresh | server/src/routers/auth.py:69-74 | the refresh check's error, or a new access token for the checked user |
| AuthRouter.Logout | server/src/routers/auth.py:77-83 | after the refresh check, exactly the presented key is deleted |
| AuthRouter.LogoutRevokes | server/src/routers/auth.py:77-83 | after logout the presented refresh token is refused |
| AuthRouter.LogoutAll | server/src/routers/auth.py:87-89 | after the refresh check, exactly that user's epoch moves to now; the key store is untouched |
| FileRouter.AccessGuard | server/src/routers/file.py:206-222 | self-targeting is Forbidden; it passes exactly for the owner acting on an existing other user; Unauthorized exactly for a non-owner grant |
| FileRouter.EditGuard | server/src/routers/file.py:120-127 | NotFound exactly without a grant, Unauthorized exactly for the read tier, passes exactly for the owner and edit tiers |
| FileRouter.DeleteGuard | server/src/routers/file.py:266-275 | NotFound exactly without a grant; it passes exactly for the owner |
| FileRouter.WithGrant | server/src/routers/file.py:224-232 | an ownership transfer demotes the caller to edit; the target's grant gets the tier; all other grants are unchanged |
| FileRouter.GrantKeepsInvariant | server/src/routers/file.py:224-232 | granting keeps one owner per file: a transfer makes the target the owner, any other tier leaves the caller as owner |
| FileRouter.RevokeKeepsInvariant | server/src/services/file.py:75-81 | revoking a grant that is not the owner grant keeps the ownership rule |
| FileRouter.TargetNotOwner | server/src/routers/file.py:206-222 | once the guard has passed, the target is not the owner |
| FileRouter.ChangeAccess | server/src/routers/file.py:198-232 | the guard's error changes nothing; otherwise the grants become the demote-then-promote update; the ownership rule is kept |
| FileRouter.RemoveAccess | server/src/routers/file.py:235-262 | the guard's error, or NotFound without a target grant, changes nothing; otherwise exactly the target's grant is deleted |
| FileRouter.BindEditCall | server/src/services/file.py:22-28 | a keyword call binds exactly when every keyword is a declared parameter; otherwise it is a server error |
| FileRouter.HandlerEditCallsUnbound | server/src/routers/file.py:129 | the handlers' calls with `updated_at` do not bind; the same calls without it do |
| FileRouter.RenameFileAsWritten | server/src/routers/file.py:116-129 | every rename that passes the guard ends in a server error, and the ledger is unchanged |
| FileRouter.RenameFile | server/server_src/routers/file.py:59-68 | past the guard only the record's name changes (a truthy name); the ownership rule is kept |
| FileRouter.EditFileAsWritten | server/src/routers/file.py:132-156 | past the guard the bytes are replaced and then a server error is raised, with the record unchanged |
| FileRouter.EditFile | server/src/routers/file.py:132-156 | past the guard the bytes are replaced and the record takes the new name, the stored size and the path |
| FileRouter.StreamEditFileAsWritten | server/src/routers/file.py:159-190 | past the guard the chunks are written and then a server error is raised, with the record unchanged |
| FileRouter.StreamEditFile | server/src/routers/file.py:159-190 | past the guard the chunks in order become the content and the record is updated |
| FileRouter.UploadFile | server/src/routers/file.py:40-50 | a new owned record whose size and path are filled in, with the compressed bytes at its path |
| FileRouter.StreamUploadFile | server/src/routers/file.py:53-69 | as upload, with the chunks written in arrival order |
| FileRouter.DeleteFile | server/src/routers/file.py:265-285 | the guard's error changes nothing; otherwise the metadata is deleted; a record without a path is a server error, a missing object NotFound, else the record is returned |
| FileRouter.FileAccessInfo | server/src/routers/file.py:105-113 | NotFound exactly without a grant; otherwise the record with all its grants |
| FileRouter.DownloadFileAsWritten | server/src/routers/file.py:77-102 | with a grant the response always starts; a readable object streams as non-empty pieces of at most 4096 bytes that reassemble its payload; a missing or unreadable object aborts the body instead of giving NotFound |
| FileRouter.DownloadFile | server/src/routers/file.py:77-102 | NotFound without a grant or a readable object; otherwise the header for the stored name and the content in pieces of at most 4096 bytes |
| FileRouter.UploadDownloadRoundTrip | server/src/routers/file.py:40-102 | an upload followed by the uploader's download succeeds, streams exactly the uploaded bytes, and carries the header for the uploaded name |
| EarlyFileRouter.CreateUploadFile | server/server_src/routers/file.py:23-32 | a new owned record, the bytes stored uncompressed, and no size recorded for an empty upload |
| EarlyFileRouter.DownloadFile | server/server_src/routers/file.py:40-46 | NotFound exactly without a grant; otherwise the stored path under the record's name |
| EarlyFileRouter.RemoveAccess | server/server_src/routers/file.py:98-119 | the guard's error changes nothing; a target without a grant is a silent success; otherwise exactly that grant is deleted |
| EarlyFileRouter.DeleteFile | server/server_src/routers/file.py:122-134 | owner only; the metadata is deleted, and any failure to remove the bytes is a server error |
| FlatFileRouter.FlatStore.constructor | server/routers/file.py:16-24 | the directory starts empty |
| FlatFileRouter.FlatStore.CreateUploadFile | server/routers/file.py:16-24 | the lines in order become the content under the name, overwriting any old entry |
| FlatFileRouter.FlatStore.GetFiles | server/routers/file.py:27-31 | exactly the stored names |
| FlatFileRouter.FlatStore.DownloadFile | server/routers/file.py:34-39 | NotFound exactly for an absent name; otherwise its content |
| FlatFileRouter.FlatStore.RenameFile | server/routers/file.py:42-47 | NotFound for an absent source; otherwise the content moves to the target name and the source is gone |
| FlatFileRouter.FlatStore.DeleteFile | server/routers/file.py:50-55 | NotFound for an absent name; otherwise only that name is removed |
| FlatFileRouter.RenameMoves | server/routers/file.py:42-47 | after a rename the content is under the target, the source is gone, and other names keep theirs |
| FileChooser.EffectiveFilter | client/src/services/file.py:16-31 | `access_type` takes precedence over `not_access_type`; with neither, every entry is listed |
| FileChooser.IndexOf | client/src/services/file.py:19 | `files.index` is the position of the first equal entry |
| FileChooser.Listed | client/src/services/file.py:15-31 | every collected index lies between 1 and the number of entries |
| FileChooser.ListedMeaning | client/src/services/file.py:15-31 | an index is collected exactly when the filter admits the entry at that position and it is that entry's first occurrence |
| FileChooser.DistinctListed | client/src/services/file.py:15-31 | with distinct entries, the collected indices are exactly the positions the filter admits |
| FileChooser.Collect | client/src/services/file.py:16-31 | one listing loop collects, in order, `files.index(entry) + 1` for every entry its filter admits |
| FileChooser.FilePrompt | client/src/services/file.py:10-44 | an empty listing is FileNotFoundException; a non-integer or uncollected answer is IndexException; a chosen file passes the filter |
| EarlyFileChooser.EarlyListed | client/client_src/services/file.py:14-28 | every collected index lies between 1 and the number of entries |
| EarlyFileChooser.FilePrompt | client/client_src/services/file.py:10-41 | never FileNotFoundException; an answer is accepted exactly when it is among the indices all three loops collect |
| EarlyFileChooser.EarlyAcceptsAll | client/client_src/services/file.py:26-28 | the accepted indices are those of the unfiltered listing, whatever the filters |
| EarlyFileChooser.EarlyAcceptance | client/client_src/services/file.py:14-37 | with distinct entries every index from 1 to the length is accepted; with no entries none is |
| EarlyFileChooser.FiltersIneffective | client/client_src/services/file.py:14-28 | asked for an owner-tier file, the earlier chooser accepts a read-tier entry that the current one rejects |
| ApiExceptions.DefaultInfo | server/server_src/exceptions/api.py:16-81 | every exception class has a non-empty default message |
| ApiExceptions.Status | server/server_src/exceptions/api.py:13-88 | every exception class has a 4xx status |
| ApiExceptions.ErrorCode | server/server_src/exceptions/api.py:13-88 | every exception class has an error code in 4000..4005 |
| ApiExceptions.RaiseIntended | server/server_src/exceptions/api.py:13-88 | raising gives the class's status and code, with the given message or the class's default message |
| ApiExceptions.RaiseAsWritten | server/server_src/exceptions/api.py:26-36 | the token-expired class fails to construct; every other class behaves as intended |
| ApiExceptions.StatusSent | server/server_src/exceptions/api.py:6-10 | a constructed error sends its status; a failed construction sends 500 |
| ApiExceptions.Table | server/server_src/exceptions/api.py:13-88 | the status and code of every class |
| ApiExceptions.CodesDistinct | server/server_src/exceptions/api.py:13-88 | no two classes share an error code |
| ApiExceptions.TokenExpiredDefect | server/server_src/exceptions/api.py:26-36 | as written, the token-expired class sends 500 instead of 401; all other classes are unaffected |
| ResponseValidation.ResponseValidator | client/src/webapi/response_validator.py:5-12 | status 200 passes the response through, exactly; otherwise APIException with the body's `detail`, or the default detail, or a JSON error for a non-JSON body |
| ResponseValidation.ErrorResponse | server/server_src/exceptions/api.py:6-10 | the response carries the status the raise sends |
| ResponseValidation.ClientSeesServerDetail | client/src/webapi/response_validator.py:5-12 | for every class that constructs, the client's exception carries the server's error code and message; the token-expired class as written reaches the client as an undecodable body |

## Left out

- HTTP and FastAPI plumbing are not modelled: routing, cookies, response
  models and logging. The dependency that resolves the caller appears as
  its result, a user id passed to each handler.
- Concurrency between requests and the async streaming are not modelled.
  Each request runs alone, and a multi-commit handler is one atomic step.
- gzip and the JOSE library are abstract. The model keeps the invertible
  gzip transform and unforgeable signatures, not the byte formats or the
  cryptography.
- Datetimes, their ISO-string form and time zones are not modelled. The
  clock is integer seconds, and one reading `now` serves a whole request
  where the source calls `utcnow()` several times.
- The text/bytes boundary of `quote` and `unquote` is not modelled: names
  are their UTF-8 bytes and no decoding error is modelled.
- FileRouter.StreamUploadFile: records the size of the complete
  compressed object. The source calls `path.getsize` while the gzip sink
  is still open (server/src/routers/file.py:60-67), so only the bytes
  flushed so far are counted. For a small upload nothing is flushed yet,
  the size is 0, and `edit_user_file` skips a falsy size
  (server/src/services/file.py:30-31): the record keeps no size at all.
- FileRouter.StreamEditFile: records the size of the complete compressed
  object. The source measures the open file in the same way
  (server/src/routers/file.py:176-185), so for a small edit the size is 0,
  is skipped, and the record keeps the stale size of the old content.
- The current server's settings module `server/src/config.py` defines no
  `ALGORITHM`, which `server/src/middleware/auth.py:11` imports; the model
  takes the verification algorithm as a setting, as `server/config.py:27`
  does.
- ContentDisposition.DispositionRoundTrip: states the round trip only for
  non-empty names. For the empty name, `filename=""` matches neither of
  the client's expressions and the client raises.
- UserService.UserStore.GetUserByUsername: takes a password that plays no
  part. The source's filter compares the password with itself, so login
  checks only the username (UserService.UserStore.PasswordIgnored).
- Password hashing is not modelled. `fake_hashed_password` stores the
  password unchanged, and so does the model.
- Configuration loading is not modelled: the settings are a value passed
  in.
- The command-line client is left out: its commands, the token files on
  disk and the console output. The client's HTTP calls are not modelled
  beyond the header parsing and the response validator.
- Input schemas and their coercion are left out.
- The server's `get_files` list endpoints are not modelled separately:
  they return `FileService.Ledger.GetUserFiles`.
- The earlier server's `rename_file`, `change_access` and
  `file_access_info` are not modelled separately. They coincide with
  `FileRouter.RenameFile`, `FileRouter.ChangeAccess` and
  `FileRouter.FileAccessInfo`.
- The earlier server's refresh check is not modelled separately. It is
  the same sequence as `AuthMiddleware.VerifyRefreshToken`.
- `server/src/exceptions/api.py` is not part of this model. The
  exception classes are modelled on `server/server_src/exceptions/api.py`,
  whose status codes and error codes the current server raises under the
  same names.
- The client's handling of JSON bodies that are not objects is not
  modelled: a body is a JSON object or not JSON at all.

## Findings

| source | as written | input that shows it | evidently intended | confidence | as-written member | corrected member |
|---|---|---|---|---|---|---|
| server/src/routers/file.py:129 | `rename_file`, `edit_file` and `stream_edit_file` call `edit_user_file` with the keyword `updated_at`, which it does not declare (server/src/services/file.py:22-28). The call raises TypeError, so every permitted edit is a 500. `edit_file` has already overwritten the bytes by then. | any rename by the owner, e.g. file 0 renamed to `b"x"` | update the record (name, size, path) and return it | not executed | FileRouter.RenameFileAsWritten, FileRouter.EditFileAsWritten, FileRouter.StreamEditFileAsWritten, FileRouter.HandlerEditCallsUnbound | FileRouter.RenameFile, FileRouter.EditFile, FileRouter.StreamEditFile |
| server/src/routers/file.py:98-102 | the `try`/`except IOError` wraps only the construction of the streaming response. The generator opens the object lazily, after the handler has returned, so a missing object never becomes NotFound. | a record whose object is missing from disk, downloaded by its owner | NotFound when the object is missing or unreadable | not executed | FileRouter.DownloadFileAsWritten | FileRouter.DownloadFile |
| server/server_src/exceptions/api.py:30 | `super(TokenExpiredException).__init__(status_code=..., detail=...)` calls `__init__` on an unbound super object with keyword arguments, which raises TypeError. A 500 is sent instead of 401/4001. | raising `TokenExpiredException()` with its default message | status 401 with `error_code` 4001 | not executed | ApiExceptions.RaiseAsWritten, ApiExceptions.TokenExpiredDefect | ApiExceptions.RaiseIntended |
| client/client_src/services/file.py:26-28 | after the filter loops, a third loop appends every entry's index whatever the filter, so the filters do not restrict the choice | one read-tier entry, `access_type` = owner, answer 1: the file is chosen | only entries admitted by the filter can be chosen | not executed | EarlyFileChooser.FilePrompt, EarlyFileChooser.FiltersIneffective | FileChooser.FilePrompt |
