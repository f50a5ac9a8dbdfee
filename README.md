# lexin-backend core, modelled in Dafny

This project models the bookkeeping core of the lexin-backend FastAPI service:

- **Legal-document ingestion.**
  - A zip upload is checked for its content type and for a `metadata.json` member.
  - The metadata records are processed in order. Each one uploads a blob, extracts the text and indexes the document.
  - Each record ends in `successful_upload` or `failed_upload`, or aborts the whole request.
  - Zip members that no record names are reported as "No metadata detected.".
- **Download path.** The blob name is recovered from the stored URL and returned with its `Content-Disposition` header.
- **Bookmark table.** Bookmarks are created and read by user.
- **Websocket room registry** (`WebSocketManager`).
- **Accounts.**
  - Registration, with the unique columns of `users`.
  - Lookups by email, id and Google subject.
  - Password login, current-user resolution and refresh-token exchange.
  - The Google link-or-create upsert.
- **Token payloads and expiry arithmetic** of the JWT helpers.

Layout, one module per file:

- `Builtins.dfy`: the Python built-ins the services rely on.
  - JSON-like `Value`s and `Dict`s, truthiness, `dict.update`;
  - `str(int)`, `str.split` and `"/".join` on one separator, `list.remove`.
- `Errors.dfy`: `Option`, `Result` and the exceptions that leave a service.
  - An `HttpError` is FastAPI's `HTTPException`.
  - An `Unhandled` error is any other exception, which FastAPI answers with 500.
- `Auth.dfy` (internal/auth.py, pure).
  - A token is a claim set together with the key that signed it.
  - `Decode` makes the checks pyjwt makes for HS256: the key must match, and an `exp` must lie after the clock reading.
- `Tables.dfy`: the PostgreSQL tables behind the sqlmodel `Session`.
  - `Session` is a class. `users` and `legal_document_bookmark` are `seq` fields, and the id sequences are counters that advance even on a failed insert.
  - A commit that breaks the unique columns (email, fullname, google_sub) or the bookmark's foreign key is a 422.
- `UserService.dfy` and `UserGoogleService.dfy`: account services.
  - They are methods where the source commits to the table, and functions where it only reads.
- `WebSocket.dfy`: `WebSocketManager` is a class over `map<int, seq<SocketId>>`.
  - What it does to sockets (accept, `send_json`) is appended to the event log of a `Network` object.
- `LegalDocumentService.dfy`: Elasticsearch and Google Cloud Storage are a `Stores` value (index map, blob map, id generator).
  - The record loop of `parse_legal_document_and_metadata_zip` is a method.
  - Its invariant ties it to the left fold `ProcessRecords`, and the lemmas are about that fold.

The clock is a parameter: one reading, in whole seconds, per request. The following are parameters of `Env`:

- JSON parsing;
- PDF text extraction;
- the pydantic schema check;
- the configured folder, storage URI and bucket.

## Model

| member | source | states |
|---|---|---|
| Builtins.Update | services/LegalDocumentService.py:219-225 | `d.update(other)` on a copy: keys are the union, every key of `other` takes `other`'s value, the rest keep `d`'s |
| Builtins.Split | services/LegalDocumentService.py:258 | `str.split` gives at least one piece, so `[-1]` always exists |
| Builtins.SplitPiecesLackSeparator | services/LegalDocumentService.py:258 | no piece of a split contains the separator |
| Builtins.JoinSplit | services/LegalDocumentService.py:258-259 | joining the pieces of a split with the same separator gives back the string |
| Builtins.SplitAtSeparator | services/LegalDocumentService.py:258 | splitting `a + sep + b` is splitting `a` then `b` |
| Builtins.SplitLastPiece | services/LegalDocumentService.py:260 | `split(sep)[-1]` is a suffix of the string: the whole string when there is a single piece, otherwise preceded by a separator |
| Builtins.SplitWithoutSeparator | services/LegalDocumentService.py:258 | a string without the separator splits into itself alone |
| Builtins.RemoveFirst | services/LegalDocumentService.py:144 | `list.remove` drops exactly one occurrence: length one less, multiset minus that element |
| Builtins.RemoveFirstMembers | services/LegalDocumentService.py:144 | after `remove`, other names keep their membership; the removed name survives only if it occurred more than once |
| Builtins.NatToStringValue | services/LegalDocumentService.py:180 | the decimal digits of `str(status)` in a reported `str(e)` read back to the status code |
| Auth.Decode | internal/auth.py:72 | pyjwt succeeds exactly for a token signed with the key whose `exp`, if any, is an integer after now, and returns the claims unchanged |
| Auth.WithExpiry | internal/auth.py:53-55 | the payload is the caller's dict plus `exp`: an `exp` already there is overwritten, every other claim is kept |
| Auth.LifetimesAsWrittenAreDays | internal/auth.py:54 | `timedelta(30)` and `timedelta(10080)` are 30 and 10080 days, 1440 times the intended minutes |
| Auth.AccessLifetime | internal/auth.py:16 | the intended access lifetime is 30 minutes |
| Auth.RefreshLifetime | internal/auth.py:17 | the intended refresh lifetime is 7 days |
| Auth.CreateAccessToken | internal/auth.py:42-57 | the token decodes, at issue time and with the access secret, to the caller's claims plus `exp` one access lifetime later; the refresh secret accepts it only if the two secrets are equal |
| Auth.CreateRefreshToken | internal/auth.py:61-66 | the token decodes, at issue time and with the refresh secret, to the caller's claims plus `exp` one refresh lifetime later; the access secret accepts it only if the two secrets are equal |
| Auth.DecodeWithSub | internal/auth.py:70-98 | the payload is returned unchanged exactly when it decodes and has a non-None `sub`; every failure is a 401, and a missing `sub` is "Could not validate credentials" |
| Auth.JwtDecodeAccess | internal/auth.py:70-81 | returns the claims exactly for a token signed with the access secret, not expired, with a non-None `sub`; every refusal is a 401 |
| Auth.JwtDecodeRefresh | internal/auth.py:85-98 | returns the claims exactly for a token signed with the refresh secret, not expired, with a non-None `sub`; every refusal is a 401 |
| Auth.AccessTokenRoundTrip | internal/auth.py:42-57 | an access token decodes with the access secret to the caller's claims plus `exp` until its lifetime ends, and is refused as expired after |
| Auth.RefreshTokenRoundTrip | internal/auth.py:61-66 | a refresh token decodes with the refresh secret to the caller's claims plus `exp` exactly during its lifetime |
| Auth.TokensAreNotInterchangeable | internal/auth.py:70-98 | with distinct secrets an access token is refused by the refresh decoder and vice versa, with a 401 |
| Auth.DecodeAccessKeepsClaims | internal/auth.py:70-81 | a live access token passes `jwt_decode_access` exactly when the caller's claims had a `sub`, and every caller claim other than `exp` is returned |
| Tables.FirstIndex | services/UserService.py:38-40 | `.first()` finds the earliest row satisfying the filter, or reports that none does |
| Tables.SelectFirst | services/UserService.py:38-40 | `.first()` returns a row satisfying the filter with no earlier row satisfying it, or None exactly when no row does |
| Tables.SelectAll | services/LegalDocumentService.py:316-318 | `.all()` returns exactly the rows satisfying the filter |
| Tables.SelectAllAppend | services/LegalDocumentService.py:316-318 | in the table order the model gives `.all()`, a row appended to the table comes last when it satisfies the filter |
| Tables.HashPassword | internal/auth.py:32-33 | the hash accepts the password it was made from and no other |
| Tables.Session.AddUser | services/UserService.py:25-30 | the row is appended with a fresh id when no unique column collides; otherwise 422 and no row; the id sequence advances either way |
| Tables.Session.SetGoogleSub | services/UserGoogleService.py:39-41 | the row's google_sub is set unless another row holds it, which is a 422 with the table unchanged |
| Tables.Session.AddBookmark | services/LegalDocumentService.py:299-307 | the bookmark is stored when `user_id` is the id of an existing user; otherwise 422 and no row; bookmark ids stay distinct and below the sequence |
| UserService.CreateUser | services/UserService.py:18-32 | email and fullname stored as given, the password only as its hash; a taken email (or other unique column) is a 422 with no row added |
| UserService.GetUserByEmail | services/UserService.py:36-44 | a row with that email, or None exactly when no row has it |
| UserService.GetUserById | services/UserService.py:48-56 | a row with that id, or None exactly when no row has it |
| UserService.LookupFindsTheRow | services/UserService.py:36-56 | under the unique constraints, looking up a row's own email or id returns that row |
| UserService.AuthenticateUserAsWritten | services/UserService.py:60-71 | as written, an unknown email raises AttributeError; for a known email it agrees with the corrected version |
| UserService.UnknownEmailCrashesAsWritten | services/UserService.py:61-64 | on an empty table the as-written login raises a non-HTTP error where the corrected one answers 401 |
| UserService.AuthenticateUser | services/UserService.py:60-71 | the user is returned exactly when a row has the email and the password verifies against its hash; every refusal is 401 "Incorrect username or password" |
| UserService.GetCurrentUser | services/UserService.py:74-99 | a live access token whose `sub` names a user returns exactly that user; an undecodable token, a missing `sub` or an unknown id is 401 "Could not validate credentials" |
| UserService.LoginForAccessToken | services/UserService.py:103-118 | tokens are issued exactly when authentication succeeds, are "Bearer", and the access token decodes to `sub` = the user's id |
| UserService.IssueTokens | services/UserService.py:110-116 | a "Bearer" pair: the access token decodes with the access secret, and the refresh token with the refresh secret, to the claims plus their own `exp` |
| UserService.LoginThenCurrentUser | services/UserService.py:74-118 | within its lifetime, the access token from login resolves to the user who logged in |
| UserService.RefreshTokenExpired | services/UserService.py:122-133 | an undecodable token is 401 "Could not validate user."; a decoded token with an integer `exp` answers whether now is after it; one without raises TypeError |
| UserService.RefreshTokenNeverReportedExpired | services/UserService.py:124-130 | with one clock reading the function never answers "expired": pyjwt refuses such a token first |
| UserService.GetAccessTokenWithRefreshToken | services/UserService.py:136-155 | new tokens exactly when the refresh token is not reported expired: a fresh access and refresh pair for the refresh token's `sub`; a 401 or TypeError from the expiry check is passed through, and an expired token is 401 "Refresh token is expired." |
| UserService.RefreshAfterLogin | services/UserService.py:136-155 | the refresh token from login works exactly during its lifetime, its access token resolves to the same user, and afterwards the answer is 401 |
| UserGoogleService.GetUserByGoogleSub | services/UserGoogleService.py:15-23 | a row whose google_sub is `str(sub)`, or None exactly when no row has it |
| UserGoogleService.GoogleSubFindsTheRow | services/UserGoogleService.py:15-23 | under the unique constraints, the lookup by a row's Google subject returns that row |
| UserGoogleService.CreateUserFromGoogleInfo | services/UserGoogleService.py:27-55 | links the row with the Google email (no row added) or adds one with name, email, sub and no password; a unique-column clash is 422 with no change; afterwards the lookup by sub returns the row |
| UserGoogleService.GetAuthGoogle | services/UserGoogleService.py:68-89 | bookmarks never change; an OAuth failure is 401 with no change; a row holding the Google subject gets tokens with no change; otherwise the row with that email gets the subject in place (no row added, every other row unchanged) and gets tokens, or a new row is appended and gets tokens, unless its email or fullname is taken, which is 422 with the table unchanged |
| WebSocket.Network.Accept | internal/websocket.py:19 | `accept` is one event appended to the log |
| WebSocket.Network.SendJson | internal/websocket.py:29 | `send_json` is one event appended to the log |
| WebSocket.Members | internal/websocket.py:21-22 | the room's sockets, or the empty list `connect` starts an absent room with |
| WebSocket.Connected | internal/websocket.py:21-23 | after connect the room exists and ends with the socket (an absent room holds just it); other rooms are unchanged |
| WebSocket.Disconnected | internal/websocket.py:26 | after disconnect the room is gone with all its sockets; other rooms are unchanged |
| WebSocket.Deliveries | internal/websocket.py:32-33 | one message per socket of the room, in list order |
| WebSocket.ConnectThenDisconnect | internal/websocket.py:18-26 | connecting to a fresh room and disconnecting it restores the registry |
| WebSocket.DeliveriesPerSocket | internal/websocket.py:31-33 | a broadcast reaches each socket as many times as it occurs in the room |
| WebSocket.DeliveriesStayInRoom | internal/websocket.py:31-33 | a broadcast sends only the given message, and only to sockets of the room |
| WebSocket.WebSocketManager.constructor | internal/websocket.py:7-16 | a new manager has no rooms |
| WebSocket.WebSocketManager.Connect | internal/websocket.py:18-23 | the socket is accepted, then registered as `Connected` states; every registered socket stays accepted |
| WebSocket.WebSocketManager.Disconnect | internal/websocket.py:25-26 | the room is popped and returned; an absent room raises KeyError and changes nothing |
| WebSocket.WebSocketManager.SendMessage | internal/websocket.py:28-29 | exactly one message to that socket |
| WebSocket.WebSocketManager.Broadcast | internal/websocket.py:31-33 | the log grows by exactly `Deliveries` of the room; an absent room raises KeyError before anything is sent |
| LegalDocumentService.Lookup | services/LegalDocumentService.py:172 | `zip_file.open(name)` finds the last member of that name, and fails exactly when no member has it |
| LegalDocumentService.Names | services/LegalDocumentService.py:139 | `namelist()` has one name per member, in archive order, repeats kept |
| LegalDocumentService.BlobName | services/LegalDocumentService.py:206 | the blob name is the folder, '/', then the filename |
| LegalDocumentService.GcsUrl | internal/google_cloud_storage.py:29 | the URL is the storage URI, '/', the bucket, '/', then the blob name, each at its place and nothing else (by length) |
| LegalDocumentService.UrlSegments | internal/google_cloud_storage.py:29 | for a storage URI "scheme//host" and a bucket without '/', the URL splits into scheme, empty, host, bucket, then the blob name's own pieces |
| LegalDocumentService.UploadGcsFileAsWritten | internal/google_cloud_storage.py:25-31 | as written, the upload raises AttributeError exactly for a zip member, storing nothing |
| LegalDocumentService.ZipMemberUploadRaisesAsWritten | services/LegalDocumentService.py:207 | the member the upload path passes always makes the as-written upload raise |
| LegalDocumentService.UploadGcsFile | internal/google_cloud_storage.py:25-31 | the bytes are stored under the blob name, replacing any blob of that name, other blobs and the index untouched; the URL is storage URI / bucket / blob |
| LegalDocumentService.IndexLegalDocument | services/LegalDocumentService.py:50-81 | stored exactly when valid and no document has that filename, under a fresh id, returning id and filename; a valid document whose filename is taken is exactly the 400 with the stores unchanged; an invalid one raises ValidationError |
| LegalDocumentService.IndexLegalDocumentAsWritten | services/LegalDocumentService.py:50-61 | as written, every document the schema accepts raises AttributeError at `legal_document_create.filename`, and nothing is stored |
| LegalDocumentService.NewFilenameRaisesAsWritten | services/LegalDocumentService.py:61 | a valid document with a new filename is stored by the corrected version and raises in the version as written |
| LegalDocumentService.ReindexRejected | services/LegalDocumentService.py:54-71 | once a filename is indexed, indexing it again is the 400 and changes nothing |
| LegalDocumentService.DocumentData | services/LegalDocumentService.py:219-225 | the indexed document has every metadata key with its metadata value, plus `content` and `resource_url` where the metadata does not set them |
| LegalDocumentService.UploadLegalDocumentHelper | services/LegalDocumentService.py:199-237 | the blob is stored whatever follows; it succeeds exactly when the text extracts, the document passes the schema and the filename is new; a taken filename is then the 400, the only HTTP error; on success the result names the record's file and URL and the index gains one document carrying the metadata |
| LegalDocumentService.ProcessRecord | services/LegalDocumentService.py:167-180 | one record is uploaded, refused with "400: An index with this filename already exists.", or aborts; a record that does not abort has a string filename and its blob stored |
| LegalDocumentService.ProcessRecordOutcome | services/LegalDocumentService.py:167-180 | a record naming an archive member is refused exactly when its document is indexable but the filename is taken, and uploaded exactly when it is indexable and the filename is new; a record without a string filename, or naming no member, aborts with the stores unchanged |
| LegalDocumentService.Step | services/LegalDocumentService.py:167-180 | without an abort, the record's name is appended and the two lists together gain one entry; after an abort all three lists are unchanged |
| LegalDocumentService.StepExtendsOneList | services/LegalDocumentService.py:173-180 | without an abort, exactly one of the two lists grows by one entry at its end and the other stays as it was |
| LegalDocumentService.RecordNames | services/LegalDocumentService.py:168 | the records' filenames in order, or None exactly when some record lacks a string filename |
| LegalDocumentService.RecordsAccountedFor | services/LegalDocumentService.py:167-180 | of the fold `ProcessRecords` over the loop: without an abort, successful plus failed entries number exactly the records |
| LegalDocumentService.NamesInMetadataOrder | services/LegalDocumentService.py:164-169 | without an abort, the names collected are the records' filenames in metadata order |
| LegalDocumentService.RefusalsAreDuplicates | services/LegalDocumentService.py:173-180 | every listed upload or refusal belongs to a named record, and every refusal is the duplicate-filename 400 |
| LegalDocumentService.NamedFilesStored | services/LegalDocumentService.py:203-207 | every named record left its blob in the bucket, refused ones included |
| LegalDocumentService.AbortAbsorbs | services/LegalDocumentService.py:167-180 | after an escaping exception no later record has any effect |
| LegalDocumentService.IndexGrowsBySuccesses | services/LegalDocumentService.py:167-180 | the index gains exactly the ids of the successful uploads and keeps every earlier document |
| LegalDocumentService.SuccessIdsFresh | services/LegalDocumentService.py:74 | each successful upload has its own id, none previously in use |
| LegalDocumentService.NoMetadataFailures | services/LegalDocumentService.py:183-188 | one "No metadata detected." entry per name of the difference, each name once, no other name |
| LegalDocumentService.ParseLegalDocumentAndMetadataZip | services/LegalDocumentService.py:158-196 | the stores and lists are those of the fold over the records (an abort raises), followed by the no-metadata entries for exactly the zip members no record names |
| LegalDocumentService.ManifestRecords | services/LegalDocumentService.py:167-168 | a JSON list yields its items; an empty object or string yields no records; anything else raises TypeError |
| LegalDocumentService.Manifest | services/LegalDocumentService.py:147-149 | the records of the parsed metadata.json when it is present, parses and is iterable; a missing member is KeyError, otherwise the parser's or iteration's error |
| LegalDocumentService.GetUploadLegalDocument | services/LegalDocumentService.py:127-155 | a non-zip content type or a missing metadata.json is a 400 with nothing stored; otherwise metadata.json is removed from the member list and the archive is reconciled with its metadata |
| LegalDocumentService.ContentDisposition | services/LegalDocumentService.py:264-269 | the header is "inline; filename=..." in view mode and "attachment; filename=..." otherwise |
| LegalDocumentService.BlobNameAfterFourSegments | services/LegalDocumentService.py:258-259 | `BlobNameOfUrl`: for any URL whose first four segments hold no '/', the blob name is everything after the fourth '/', verbatim |
| LegalDocumentService.FileNameOfUrl | services/LegalDocumentService.py:260 | the file name contains no '/' and is the URL's tail after its last '/', or the whole URL when there is none |
| LegalDocumentService.GetDownloadLegalDocument | services/LegalDocumentService.py:240-275 | an empty document or a falsy `resource_url` is the matching 404; on success the bytes are those of the blob named by URL segments 4 onward, with an inline or attachment header |
| LegalDocumentService.UrlRoundTrip | services/LegalDocumentService.py:257-260 | for a storage URI "scheme//host" and a bucket without '/', the blob name recovered from the URL is the one uploaded, and so is a file name without '/' |
| LegalDocumentService.UploadThenDownload | services/LegalDocumentService.py:199-262 | a document just uploaded downloads as its member's bytes under its own filename |
| LegalDocumentService.CreateLegalDocumentBookmark | services/LegalDocumentService.py:296-309 | the row (token `sub`, document id) is appended without looking at the document or earlier bookmarks; a `sub` naming no user is 422 |
| LegalDocumentService.ReadLegalDocumentBookmarks | services/LegalDocumentService.py:312-322 | exactly the bookmarks whose `user_id` is the token's `sub` |
| LegalDocumentService.BookmarkThenRead | services/LegalDocumentService.py:296-322 | in the modelled table order, a new bookmark is read back last by its owner and changes nobody else's list |

## Left out

- Elasticsearch and GCS are not modelled as network services. Their failures (connection errors, timeouts, quota) are absent.
  - The only failures modelled are NotFoundError from `es_client.get` on an unknown id and NotFound from a missing blob.
- Elasticsearch near-real-time refresh is not modelled.
  - The duplicate search sees every document indexed before it, including earlier records of the same archive.
  - The duplicate check is modelled as the exact filename match the code evidently intends. The `filename` field has no explicit mapping (models/LegalDocumentModel.py:55-136), so Elasticsearch maps it dynamically as analysed text. A `term` query against it likely matches no filename of several tokens, such as "uu-no-53-tahun-2024.pdf", and then the duplicate 400 never fires. `IndexLegalDocument`, `ReindexRejected`, `RefusalsAreDuplicates` and `ProcessRecordOutcome` hold under the exact-match idealisation only.
- The search endpoint, index-mapping creation, `extract_text_pdf` internals and `json.loads` internals are left out. The last two are parameters.
- internal/message_broker.py, services/ChatService.py, the routers, main.py, internal/database.py, internal/elastic.py and internal/authorization_google.py are not part of this model.
  - `get_login_google` (an OAuth redirect) and the redirect URL built by `get_auth_google` are not part of it either.
- internal/authorization.py duplicates the token builders of internal/auth.py. The services import it; the `Auth` module stands for both.
- async execution is not modelled: each websocket method runs without interleaving.
  - A failing `accept` or `send_json` (a socket closed mid-broadcast) is not modelled.
- bcrypt and JWT signing are symbolic.
  - A digest records the password it accepts; bcrypt's 72-byte truncation is not modelled.
  - `Decode` checks only the key and `exp`. Other registered claims (`nbf`, `iat`, `aud`), leeway and algorithm negotiation are left out.
- The ids of Elasticsearch documents are natural numbers from a generator, not random strings.
- A failing zip archive is reduced to one case: an unreadable archive raises BadZipFile. Encrypted or corrupt members are not modelled.
- SQLAlchemy errors on reads are not modelled, and neither is the need to roll back a session after a failed commit.
  - The 422 detail `str(e.orig)` is the constant "IntegrityError".
- `UserGoogle(**user_info)` validation and the OAuth exchange are not modelled: `GetAuthGoogle` receives the parsed userinfo, or None for OAuthError.
- The `WWW-Authenticate` headers of the 401 answers and the `StreamingResponse` plumbing are left out.
- LegalDocumentService.IndexLegalDocument: reads the filename from the document dict. The source reads `legal_document_create.filename`, an attribute the schema at models/LegalDocumentModel.py:8-44 does not declare (it has `filenames`), so as written every valid document raises AttributeError and nothing is ever indexed (see Findings). Whether the schema accepts a document is the `validates` parameter.
- LegalDocumentService.UploadLegalDocumentHelper: requires a string `filename` in the metadata. Its only caller reaches it after `zip_file.open` accepted the name, which takes only strings.
- LegalDocumentService.CreateLegalDocumentBookmark: a `sub` that is not an integer is refused with 422. PostgreSQL might instead coerce a numeric string.
- LoginForAccessToken, CreateAccessToken, CreateRefreshToken, IssueTokens, GetAccessTokenWithRefreshToken, UploadLegalDocumentHelper, ProcessRecord and everything built on them use the corrected halves of the Findings.
  - `LoginForAccessToken` uses `AuthenticateUser`. As written, an unknown email is a 500 (`AuthenticateUserAsWritten`).
  - The token builders use `AccessLifetime` and `RefreshLifetime`. As written, tokens live 30 and 10080 days (`LifetimesAsWrittenAreDays`).
  - `UploadLegalDocumentHelper` uses `UploadGcsFile` and `IndexLegalDocument`. As written, every zip-member upload raises AttributeError (`UploadGcsFileAsWritten`), and so would every index call (`IndexLegalDocumentAsWritten`).
- Tables.SelectAll, Tables.SelectFirst: `.all()` and `.first()` are modelled in insertion (table) order. The queries have no ORDER BY, so PostgreSQL promises no order.
  - The "read back last" of `SelectAllAppend` and `BookmarkThenRead` holds only in that order; membership (`SelectAll`, `ReadLegalDocumentBookmarks`) does not depend on it.
  - The `.first()` lookups by email, id and Google subject match at most one row under the unique columns, so their result does not depend on the order.
- UserService.GetUserById: compares the id with the `sub` claim as a JSON value. Tokens issued by the services carry an integer `sub`.

## Findings

| source | as written | input that shows it | evidently intended | confidence | as-written member | corrected member |
|---|---|---|---|---|---|---|
| services/UserService.py:61-64 | `user.password` is read before `not user` is checked | an email with no row (any email on an empty table) | the unknown email is refused with 401 "Incorrect username or password" | high; not executed | UserService.UnknownEmailCrashesAsWritten | UserService.AuthenticateUser |
| internal/auth.py:54 | `timedelta(JWT_ACCESS_TOKEN_EXPIRE_MINUTES)` passes the minutes as days | any login: the access token's `exp` is 30 days after issue | `timedelta(minutes=...)`: 30 minutes | high; not executed | Auth.LifetimesAsWrittenAreDays | Auth.AccessLifetime |
| internal/auth.py:63 | `timedelta(JWT_REFRESH_TOKEN_EXPIRE_MINUTES)` passes the minutes as days | any login: the refresh token's `exp` is 10080 days after issue | `timedelta(minutes=...)`: 7 days | high; not executed | Auth.LifetimesAsWrittenAreDays | Auth.RefreshLifetime |
| services/LegalDocumentService.py:207 | the open zip member is passed to `upload_gcs_file`, which reads `file.file` (internal/google_cloud_storage.py:27); a `ZipExtFile` has no such attribute | an archive with metadata.json and one record naming a member | the member's bytes are uploaded under the blob name | medium; not executed | LegalDocumentService.ZipMemberUploadRaisesAsWritten | LegalDocumentService.UploadGcsFile |
| services/LegalDocumentService.py:61 | `legal_document_create.filename` is read after validation; `LegalDocumentCreate` (models/LegalDocumentModel.py:8-44) declares only `filenames` and ignores extra keys | any document the schema accepts, e.g. a metadata record with a new filename | the filename of `document_data` is searched for and returned | medium; not executed | LegalDocumentService.NewFilenameRaisesAsWritten | LegalDocumentService.IndexLegalDocument |
