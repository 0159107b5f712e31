# trisiel core, modelled in Dafny

This project models the core of trisiel (formerly wasmcloud), a Rocket web service that stores WebAssembly handler modules. It covers four parts:

- **Multipart ingestion** (`rocket_upload.dfy`, with `utf8.dfy`, `paths.dfy`, `fs.dfy`). The `MultipartDatas` request guard takes the boundary from the Content-Type header. It walks the multipart entries and keeps each entry without a filename as a UTF-8 text part. Each entry with a filename is streamed into the file `Path::join("/tmp/rust_upload/", filename)`, which lies under `/tmp/rust_upload/` only when the filename is relative, and the pushed part records the path `"/tmp/rust_upload/" + filename`. A failure is recorded per entry. On failure the files at the pushed parts' recorded paths are deleted. `FilePart::persist`, `Drop for FilePart` and `try_delete` are modelled as well. The staging directory is a `Disk` object holding a map from path to bytes. The guard is an imperative method proved equal to a fold (`Run`) over the entries. The fold takes which path a part records as a parameter: `Concatenated` is the source as written, `Joined` records the file actually written. The lemmas state the guard's promises about that fold.
- **Content addressing** (`b2.dfy`, with `hex.dfy`). `copy_wide` feeds a hasher and counts bytes. `hash` hex-encodes the BLAKE3 digest. `upload` derives the object name `<hex>.wasm`, the URI `b2://<hex>.wasm`, the size and the millisecond timestamp. It makes its three B2 calls in order.
- **Authentication and authorisation** (`uuid.dfy`, `models.dfy`, `jwt.dfy`, `api.dfy`, `api_token.dfy`, `api_handler.dfy`, `api_user.dfy`). This covers JWT claims and their verification against the tokens and users tables. It also covers the error-to-HTTP-response table and the header-or-cookie request guard. The token and handler routes are modelled with owner-or-admin soft delete, and the self-only user lookup. The database is a `Database` object with one map per table, keyed by primary key.
- **Account provisioning** (`gitea.dfy`). On the Gitea OAuth callback, only admins are admitted. The account is found by email or created, a new session token row is inserted, and the JWT is set in the private `token` cookie.

The following are parameters or inputs rather than code:

- **Cryptography.** BLAKE3, HMAC signing and HMAC verification are function-typed parameters.
- **Multipart framing.** A function from body and boundary to the entry sequence.
- **Read and filesystem answers.** What each read and each filesystem call answers is part of the input: an entry's scripted reads and its create and write errors, a file reader's outcomes, and B2's answers.
- **Time and generated ids.** The current time, file modification times and the ids the database generates are parameters.

## Model

| member | source | states |
|---|---|---|
| RocketUpload.FindFrom | lib/rocket_upload/src/lib.rs:50 | `str::find` from a position: the result is an occurrence of the pattern with none earlier, and `None` means the pattern occurs nowhere at or after the position |
| RocketUpload.Boundary | lib/rocket_upload/src/lib.rs:49-51 | the boundary is the raw suffix of the Content-Type value after `boundary=`, and no earlier `boundary=` starts before it; a missing `boundary=` is a precondition (the source panics) |
| RocketUpload.BoundaryUnique | lib/rocket_upload/src/lib.rs:50-51 | any split `pre + "boundary=" + b` with no occurrence inside `pre` yields exactly `b` |
| RocketUpload.ReadText | lib/rocket_upload/src/lib.rs:69-85 | the text read loop returns the concatenation of all reads before the first zero-length read, or the first read error |
| RocketUpload.TextReadsEveryByte | lib/rocket_upload/src/lib.rs:71-85 | for non-empty reads `ds` followed by end of data, the text bytes are `Flatten(ds)`; a read error right after them is the result |
| RocketUpload.FileStreamsEveryByte | lib/rocket_upload/src/lib.rs:117-141 | for non-empty reads `ds`, each written without error, followed by end of data, the staged file gets `Flatten(ds)`; a read error or write error right after them is the result |
| RocketUpload.TextOfMeaning | lib/rocket_upload/src/lib.rs:67-97 | a text part is pushed iff the entry has no filename, its reads succeed and their bytes are well-formed UTF-8; it is keyed by the entry name and its value encodes back to exactly those bytes; a text entry whose read fails records 422 with the read error's message |
| RocketUpload.MalformedTextFails | lib/rocket_upload/src/lib.rs:87-93 | text bytes that are not well-formed UTF-8 record 422 with ": Data can not read as UTF-8" and push nothing |
| RocketUpload.EntryOutcomes | lib/rocket_upload/src/lib.rs:64-149 | an entry records no failure iff it pushes a part; a text entry never pushes a file part and vice versa |
| RocketUpload.FileFailureStatus | lib/rocket_upload/src/lib.rs:107-139 | a create failure is 500 and leaves the disk unchanged; a read failure is 422 and a write failure 500, and both leave no staged file |
| RocketUpload.ProcessEntry | lib/rocket_upload/src/lib.rs:64-149 | one run of the per-entry closure (create at the joined path, read/write loop, `try_delete`, pushes, `err_out`) leaves exactly the state `Step` gives with `Concatenated`, disk included, so a pushed file part records `TMP_PATH + filename` |
| RocketUpload.RunSucceedsIffNoEntryFails | lib/rocket_upload/src/lib.rs:152-159 | the walk ends with no recorded failure iff no entry fails; a failing entry does not stop later entries |
| RocketUpload.RunReportsLastFailure | lib/rocket_upload/src/lib.rs:62-159 | the reported failure is the one recorded by the last failing entry (later entries overwrite `err_out`) |
| RocketUpload.RunCollectsTexts | lib/rocket_upload/src/lib.rs:97 | `texts` is the start list followed by each entry's text part, for the entries that push one, in entry order |
| RocketUpload.RunCollectsFiles | lib/rocket_upload/src/lib.rs:144-148 | `files` is the start list followed by each entry's file part, for the entries that push one, in entry order |
| RocketUpload.RunPartsInOrder | lib/rocket_upload/src/lib.rs:97-148 | for `texts` and for `files` there is a strictly increasing list of entry positions such that the k-th part is the part of the k-th listed entry, and every entry that pushes a part is listed |
| RocketUpload.RunLeavesOtherPaths | lib/rocket_upload/src/lib.rs:105-141 | a path no file entry targets has the same presence and contents after the walk |
| RocketUpload.RunLastWriterWins | lib/rocket_upload/src/lib.rs:105-107 | the last entry targeting a staged path decides it: its bytes if it streamed, no file if it failed after creating, so a later part with the same filename truncates an earlier one |
| RocketUpload.PushedFilesStaged | lib/rocket_upload/src/lib.rs:144-148 | when parts record the file actually written (`Joined`) and no entry fails, every pushed `FilePart` names a file on the disk, whatever the filenames |
| RocketUpload.RecordedPathIsStagedPath | lib/rocket_upload/src/lib.rs:105-146 | for a relative filename, the recorded `TMP_PATH + filename` is the path the file was written to |
| RocketUpload.RunRelativeAgrees | lib/rocket_upload/src/lib.rs:105-146 | when every filename is relative, the walk as written and the walk recording the written file are the same |
| RocketUpload.RelativeFilesStaged | lib/rocket_upload/src/lib.rs:105-148 | as written, when every filename is relative and no entry fails, every pushed `FilePart` names a file on the disk |
| RocketUpload.AbsoluteFilenameEscapes | lib/rocket_upload/src/lib.rs:105-146 | for any absolute filename the file is written to the filename itself, and the recorded path is a different string |
| RocketUpload.AbsoluteFilenamePartMissing | lib/rocket_upload/src/lib.rs:105-159 | as written, a one-entry upload of `/x.wasm` succeeds with a part recording `/tmp/rust_upload//x.wasm`, a key the disk does not have, while the bytes are at `/x.wasm`; recording the joined path gives `/x.wasm` |
| RocketUpload.FromData | lib/rocket_upload/src/lib.rs:47-161 | the guard's outcome is the verdict on the walk as written over the framed entries; on success the disk is the walk's disk, and on failure the recorded paths of the pushed parts are removed too |
| RocketUpload.Persist | lib/rocket_upload/src/lib.rs:32-35 | `persist(dir)` copies the bytes at the recorded path to `dir` joined with the filename and touches nothing else; the recorded file keeps its bytes unless it is the target, which is then left empty |
| RocketUpload.DropFilePart | lib/rocket_upload/src/lib.rs:37-40 | dropping a part removes the file at its recorded path and nothing else |
| RocketUpload.DropParts | lib/rocket_upload/src/lib.rs:152-153 | returning the failure drops the `files` vector, which removes the file at each part's recorded path and changes nothing else |
| RocketUpload.TryDelete | lib/rocket_upload/src/lib.rs:164-167 | removes the path if present, never fails, and changes nothing else |
| Paths.Join | lib/rocket_upload/src/lib.rs:105 | `Path::join`: an absolute part replaces the base; otherwise the result ends with the part, and with a base ending in `/` it is plain concatenation |
| Utf8.DecodeSucceedsIffWellFormed | lib/rocket_upload/src/lib.rs:87-94 | `String::from_utf8` succeeds exactly on byte strings well-formed under section 4 of RFC 3629 |
| Utf8.DecodeEncode | lib/rocket_upload/src/lib.rs:87-94 | decoding the UTF-8 encoding of any string gives that string back |
| Utf8.EncodeDecode | lib/rocket_upload/src/lib.rs:87-94 | a decoded string encodes back to the original bytes |
| Utf8.EncodeWellFormed | lib/rocket_upload/src/lib.rs:87-94 | the encoding of any string is well-formed UTF-8 |
| Fs.Disk.Create | lib/rocket_upload/src/lib.rs:107 | `File::create` either fails with the disk unchanged or leaves an empty file at the path |
| Fs.Disk.Write | lib/rocket_upload/src/lib.rs:133 | a write either fails with the disk unchanged or appends all the bytes |
| Fs.Disk.RemoveFile | lib/rocket_upload/src/lib.rs:166 | `remove_file` removes the path and reports whether there was a file |
| Fs.Disk.Copy | lib/rocket_upload/src/lib.rs:34 | `fs::copy` sets the target to the source's bytes and nothing else changes; copying a path onto itself leaves it empty, since the target is truncated before it is read |
| B2.Hasher.Update | src/b2.rs:48 | the hasher absorbs exactly the given bytes after those it already has |
| B2.InterruptedIsRetried | src/b2.rs:51 | an `Interrupted` read anywhere changes neither the bytes hashed nor the result |
| B2.CopyCountsEveryByte | src/b2.rs:41-50 | over non-empty reads ending at end of file, `copy_wide` hashes their concatenation and returns its length |
| B2.CopyStopsAtError | src/b2.rs:52 | another read error is returned at once, after hashing only the bytes before it |
| B2.CopyWide | src/b2.rs:41-55 | the loop feeds the hasher exactly the bytes the copy reads, in order, and returns its total or error |
| B2.Hash | src/b2.rs:26-35 | for a reader yielding the file, `hash` returns the hex of BLAKE3 of the whole file and its size, or the open or read error |
| B2.HashShape | src/b2.rs:30-34 | the hex digest is 64 lower-case digits that decode back to the digest, and the size is the file length |
| B2.ParseContentUri | src/b2.rs:68-92 | the returned URI is `b2://` + hex + `.wasm` and names the content's digest, which can be read back from it |
| B2.SameUriIffSameDigest | src/b2.rs:68-92 | two files get the same URI iff their digests agree, so identical contents always share a URI |
| B2.LastModifiedMillis | src/b2.rs:70-75 | the timestamp is a multiple of 1000 and is the whole seconds of the mtime in milliseconds |
| B2.Upload | src/b2.rs:58-93 | calls go authenticate, upload URL, upload; each failure stops the sequence with its own error (B2's message for the three remote calls, `NotFound` for a missing file, the copy error, `BeforeEpoch`), and the upload call is made exactly when authentication, the upload URL, the file, the hash and the mtime all succeed; success returns the content URI with name `<hex>.wasm`, the hashed size and the millisecond mtime |
| Hex.EncodeShape | src/b2.rs:32 | `hex::encode` gives two lower-case digits per byte |
| Hex.DecodeEncode | src/b2.rs:32 | hex decoding inverts hex encoding |
| Hex.EncodeInjective | src/b2.rs:32 | different byte strings have different hex encodings |
| Uuid.ToString | src/jwt.rs:22-23 | a UUID prints as 36 characters |
| Uuid.ParseToString | src/jwt.rs:36-46 | `Uuid::parse_str` reads a printed UUID back |
| Uuid.ToStringInjective | src/jwt.rs:22-23 | different UUIDs print differently |
| Jwt.ClaimsForIdentify | src/jwt.rs:21-23 | `make`'s claims have exactly the keys `sub` and `jti`, holding the user and token ids as UUID strings |
| Jwt.ClaimsForInjective | src/jwt.rs:21-23 | different id pairs give different claims |
| Jwt.VerifyIff | src/jwt.rs:31-59 | `verify` returns user `u` iff the signature checks, `sub` and `jti` are present UUIDs, the token row exists, is not deleted and belongs to `sub`, and `u` is the row of `sub` |
| Jwt.VerifyChecksDeletionFirst | src/jwt.rs:49-55 | a deleted token is rejected as deleted, with its deletion time, before its owner is compared |
| Jwt.VerifyMake | src/jwt.rs:19-59 | round trip: a token made for `(u, t)` passes `verify` as user `u` when `t` exists, is live and belongs to `u`, and `u` exists |
| Api.RespondToStatus | src/api/mod.rs:40-70 | responses are plain text; 400 iff `IncorrectFilecount`, 401 iff `BadOrNoAuth` or `LackPermissions`, 500 iff `Database`, `InternalServerError`, `ExternalDependencyFailed` or `Backblaze` |
| Api.IncorrectFilecountBody | src/api/mod.rs:64-68 | the 400 body is the `Display` text "incorrect number of files uploaded (wanted n)", and `n` can be read back from it |
| Decimal.ParseShow | src/api/mod.rs:35-36 | the decimal rendering of a count parses back to it and has no leading zero |
| Decimal.ShowInjective | src/api/mod.rs:35-36 | different counts render differently |
| Api.FromRequestAuthenticates | src/api/mod.rs:85-119 | a request authenticates as `u` iff a connection is available, it has at most one `authorization` header, and the token presented (the header, or else the `token` cookie) verifies as `u` |
| Api.FromRequestRejects | src/api/mod.rs:86-117 | no connection gives 503; two or more headers give 400 without verifying; no header and no cookie give 401; a token that fails verification gives 401; with one header the cookie is ignored |
| ApiToken.ListIsCallersRows | src/api/token.rs:9-17 | the list holds exactly the caller's token rows, deleted ones included |
| ApiToken.Delete | src/api/token.rs:22-40 | the route answers `DeleteOutcome` and leaves the tokens table as `AfterDelete`; the other tables are untouched |
| ApiToken.DeletePermission | src/api/token.rs:26-33 | an unknown id gives the `NotFound` database error; a caller who is neither owner nor admin gets `LackPermissions`; both leave the table unchanged |
| ApiToken.DeleteSetsOnlyDeletedAt | src/api/token.rs:35-37 | a permitted delete keeps every row, and every field of the deleted row except `deleted_at`, which becomes the time of the call |
| ApiToken.DeleteAgainResets | src/api/token.rs:35-37 | deleting an already deleted token is allowed again and moves `deleted_at` |
| ApiToken.DeletedTokenStillListed | src/api/token.rs:12-17 | the owner's list still shows a soft-deleted token |
| ApiToken.DeletedTokenRejected | src/api/token.rs:35-37 | after a permitted delete, `jwt::verify` rejects the token made for that row as deleted |
| ApiToken.Create | src/api/token.rs:44-55 | the route answers `CreateOutcome` and leaves the tokens table as `AfterCreate` |
| ApiToken.CreateInsertsOne | src/api/token.rs:47-52 | `create` inserts exactly one live row owned by the caller, which shows in the caller's list, and keeps every other row |
| ApiToken.CreatedTokenVerifies | src/api/token.rs:54 | the JWT that `create` returns passes `verify` as the caller |
| ApiHandler.ListIsCallersRows | src/api/handler.rs:9-17 | the list holds exactly the caller's handler rows, deleted ones included |
| ApiHandler.GetOwnerOnly | src/api/handler.rs:22-38 | an unknown id is the `NotFound` database error; only the owner gets the row, unchanged; admin status makes no difference |
| ApiHandler.GetIsListed | src/api/handler.rs:29-38 | a handler the caller can get is in the caller's list |
| ApiHandler.Delete | src/api/handler.rs:43-61 | the route answers `DeleteOutcome` and leaves the handlers table as `AfterDelete`; the other tables are untouched |
| ApiHandler.DeletePermission | src/api/handler.rs:47-54 | an unknown id gives the `NotFound` database error; only the owner or an admin may delete; anyone else gets `LackPermissions` and nothing changes |
| ApiHandler.DeleteSetsOnlyDeletedAt | src/api/handler.rs:56-58 | a permitted delete keeps every row, and every field of the deleted row except `deleted_at` |
| ApiHandler.AdminDeletesWhatTheyCannotGet | src/api/handler.rs:34-54 | an admin who does not own a handler cannot get it but may delete it |
| ApiUser.GetSelfOnly | src/api/user.rs:7-13 | `get` succeeds iff the id is the caller's, returns the caller unchanged, otherwise gives `LackPermissions`; there is no admin override |
| ApiUser.WhoamiIsGetSelf | src/api/user.rs:16-19 | `whoami` returns the same record as `get` of the caller's own id |
| Models.Database.InsertToken | src/api/token.rs:47-52 | insert a `NewToken`: a taken id is a primary-key violation with nothing changed; otherwise one row with both timestamps now and no deletion |
| Models.Database.InsertUser | src/gitea.rs:88-91 | insert a `NewUser`: a taken id is a primary-key violation with nothing changed; otherwise exactly that row |
| Models.Database.InsertGiteaToken | src/gitea.rs:99-102 | insert a `NewGiteaToken`: a taken id is a primary-key violation with nothing changed; otherwise exactly that row |
| Gitea.Callback | src/gitea.rs:49-129 | no profile or a non-admin profile changes nothing and gives the matching error; an existing email leaves users and gitea_tokens as they were; a new email inserts one user (name, email, admin flag, unlocked, tier 0) then one Gitea token row, with no rollback; a call that stops before the session token is an error and inserts no token row; one that reaches it, for the account with that email, either hits a key violation on `tokens` with the table unchanged, or inserts one live token row (kept when signing fails) and answers exactly what `jwt::make` gives, mapped to `InternalServerError` on failure, so it succeeds iff signing does; the cookie is set only on success and holds the returned JWT |

## Left out

- `src/api.rs` is an older revision of `src/api/mod.rs`, `src/api/token.rs` and `src/api/user.rs` with the same rules; it is not modelled separately.
- `src/main.rs` is a stale revision that does not compile. `src/bin/executor.rs` spawns a subprocess, and its only logic is string glue around a URL parser; it reads back the `b2://<hex>.wasm` host that `upload` returns. `src/lib.rs`, `src/models.rs` and `src/schema.rs` are declarations, used here only for the row fields.
- Multipart framing (boundary scanning and part headers) is a parameter. No quoted-boundary handling is added, as the code takes the raw suffix.
- Buffering is not modelled: the whole-body read into memory and the 4096- and 65536-byte buffers. Each read's chunk is an input, and only the concatenation matters.
- RocketUpload.FromData: `create_dir_all` of the staging directory is not modelled; staged paths are simply map keys.
- Fs.Disk: the disk is keyed by path strings, so different spellings of one file are different keys (`/tmp/rust_upload//x` and `/tmp/rust_upload/x`, `./a` and `a`); path normalisation and symlinks are not modelled. RunLeavesOtherPaths, RunLastWriterWins and AbsoluteFilenamePartMissing state facts about path strings, not about the files the operating system resolves them to.
- Panics are preconditions or are left out. These are the missing Content-Type header or `boundary=`, the `foreach_entry` unwrap, `persist` on a missing staged file, and the missing refresh token in the callback.
- RocketUpload.DropFilePart: the source unwraps `remove_file`, so dropping a part whose file is already gone panics. Two failed-run parts with the same filename hit this. The model removes the file and does nothing for the second one.
- Fs.Disk.Write: each write writes all bytes or fails. The source ignores the count `write` returns, so short writes are not modelled.
- The B2 and Gitea network calls are left out: B2's authentication and upload answers, the Gitea profile request with its `todo!`, and the OAuth redirect are inputs. B2's SHA1-at-end is only the `HexAtEnd` tag.
- The request framework is left out. Rocket's request, response and cookie encryption are not modelled; the private cookie jar is a map.
- BLAKE3 and HMAC-SHA256 are parameters. The round-trip lemmas assume that verification accepts the claims the same key signed.
- Time is a parameter: `Utc::now()` and file modification times are inputs.
- Database failures other than a missing row and a primary-key collision are not modelled, and neither is concurrency. Any `updated_at` trigger is invisible in the schema, so updates keep `updated_at`.
- ApiToken.List, ApiHandler.List: the queries have no `ORDER BY`, so lists are sets of rows.
- Gitea.Callback: which user `limit(1)` picks among several with the same email is left open; the model picks any.
- Uuid.Parse accepts the hyphenated, simple and `urn:uuid:` forms with digits of either case. The braced form and the parser's error kinds are not modelled.
- B2.Upload: `File::open` and `metadata` errors other than a missing file are not modelled. An mtime before the epoch is the distinct error `BeforeEpoch`.
- Further failures are not modelled: the error `ClientBuilder::build` can return before any call (b2.rs:59-62), the panic in `meta.modified().unwrap()` on a platform without modification times (b2.rs:72), and the panic in `persist` when `fs::copy` fails, for instance because the target directory is missing (lib.rs:34). The disk has no directories, so RocketUpload.Persist always succeeds.

## Findings

| source | as written | input that shows it | evidently intended | confidence | as-written member | corrected member |
|---|---|---|---|---|---|---|
| lib/rocket_upload/src/lib.rs:105-146 | the file is written to `Path::join(TMP_PATH, filename)`, but the `FilePart` records `String::from(TMP_PATH) + &filename` | a part with filename `/x.wasm`: it is written to `/x.wasm`, and the part records `/tmp/rust_upload//x.wasm`, which the operating system resolves to `/tmp/rust_upload/x.wasm`; that file was not written by this part, so `persist` copies and `drop` deletes whatever an earlier upload of `x.wasm` left there, or panic when there is none | the recorded path is the file that was written | not executed | RocketUpload.AbsoluteFilenamePartMissing | RocketUpload.PushedFilesStaged |
