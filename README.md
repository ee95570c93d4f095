# Blob store: storage backends, SigV4 signer and create/read protocol in Dafny

This project models the core of a small blob store written in Python with FastAPI. Clients
upload base64 payloads under an id and read them back. The bytes live in one of three
backends, and a metadata table records each blob.

- **Storage backends** (`storage.dfy`, module `Storage`):
  - `LocalBackend` keeps one file per blob. The file is named by the hexadecimal SHA-256 of
    the id's UTF-8 bytes. `save` overwrites the file. `delete` answers `True` unless the
    removal raises.
  - `DatabaseBackend` keeps one row per blob, keyed by the id as primary key. A second save
    of the same id fails. `delete` answers `False` when there is no row.
  - `S3Backend` talks to an S3-compatible endpoint over signed HTTP. The endpoint's objects
    are a map keyed by request path, and its reply is an input. `get` succeeds only on
    status 200. `save` raises on any status other than 2xx. `delete` answers whether the
    status was 2xx.
- **AWS Signature Version 4** (`sigv4.dfy`, module `SigV4`):
  - the `amz_date` and `date_stamp` timestamps;
  - the canonical URI and query string, percent-encoded as in sections 2.1 and 2.3 of
    RFC 3986;
  - the three-line header block and the canonical request;
  - the credential scope and the string to sign;
  - the four-step HMAC key chain;
  - the `Authorization` header;
  - the request that is actually transmitted.

  The signer keeps the program's behaviour exactly as written:
  - Every method other than `PUT` is transmitted as a `GET`. A delete is therefore signed
    as `DELETE` but sent as a `GET`, and it never removes an object.
  - The transmitted URL carries the raw path and drops the query, even though the query is
    signed.
- **HTTP layer** (`api.dfy`, module `Api`):
  - the bearer-token check;
  - the choice of backend from `STORAGE_BACKEND`;
  - `create_blob`, in this order: duplicate id, then base64 decoding, then the size limit,
    then the backend save, then the metadata commit with a compensating delete when the
    commit fails;
  - `get_blob`, where "Blob not found" is a different 404 from "Data missing from storage
    backend".
- **Supporting modules**: `text.dfy` (module `Text`) and `pairsort.dfy` (module `PairSort`)
  model the pieces of Python the signer relies on:
  - `str.join`, `str.split` and `str.split(" ", 1)`;
  - zero-padded `strftime` fields and `str(int)`;
  - `hexdigest()`, UTF-8 encoding and `urllib.parse.quote`;
  - ASCII lower-casing;
  - the ordering and sorting of `(key, value)` tuples.

  `results.dfy` (module `Results`) holds `Option` and `Result`.

Inputs rather than code:
- SHA-256 and HMAC-SHA256 (`SigV4.Crypto`);
- `urlparse` and `parse_qsl`;
- the base64 codec;
- `datetime.utcnow()`;
- the text of an exception;
- the outcome of every filesystem, database and HTTP call (`Storage.Env`).

The S3 endpoint is modelled twice. `Storage.Answer` ignores signatures and answers every
request from its objects. `Storage.CheckedAnswer` checks them: it refuses with 403 any
request whose canonical request, rebuilt from what it received, is not the one that was
signed.

The model follows the code where it behaves in ways its own text does not announce:
- The S3 class's docstring calls the signer one "for PUT/GET" (storage.py:117). `_send_signed`
  sends every method other than `PUT` as a `GET` (storage.py:202-205), so `delete` signs a
  `DELETE` and transmits a `GET`. It never removes an object. An endpoint that ignores
  signatures answers the `GET`. An endpoint that checks them answers 403, so `delete`
  returns `False` (`Storage.S3Backend.DeleteAgainstCheckingEndpoint`).
- A URL with a query has the query signed (storage.py:153-159) but not transmitted
  (storage.py:200). An endpoint that checks signatures refuses every such request.
- When the backend save raises, the exception text becomes part of the 500 detail
  (main.py:103).
- When the metadata commit fails, the backend delete is attempted, and the caller gets 500
  whatever the delete does (main.py:115-121). The bytes stay on S3, because of the `GET`
  above. They also stay on the local backend when `os.remove` raises.
  `Api.BlobService.CreateBlob` states when the bytes stay and when they are gone.

## Model

| member | source | states |
|---|---|---|
| Text.SplitJoin | storage.py:167-183 | splitting a `"\n".join` (or `"&".join`) on its separator gives back the parts when no part holds the separator |
| Text.JoinAppend | storage.py:157-174 | joining two non-empty lists is joining each with one separator between |
| Text.Join | storage.py:157-183 | `sep.join(parts)`: the parts in order with one separator between neighbours (`Text.SplitJoin` inverts it) |
| Text.SplitOnce | main.py:38 | `split(" ", 1)` gives one part iff there is no space, else the text before the first space (which holds none) and the rest |
| Text.PadDigits | storage.py:147-148 | a zero-padded strftime field has exactly its width and only digits |
| Text.ParsePadDigits | storage.py:147-148 | a zero-padded field reads back as the number when it fits the width |
| Text.Decimal | main.py:97 | `str(n)` is non-empty, all digits, with no leading zero unless n is 0 |
| Text.ParseDecimal | main.py:97 | `str(n)` reads back as n |
| Text.IntToString | main.py:97 | `str(i)` starts with '-' exactly for negative i |
| Text.HexLower | storage.py:46 | `hexdigest()` has two lower-case hex digits per byte |
| Text.HexRoundTrip | storage.py:46 | decoding `hexdigest()` gives back the digest |
| Text.HexInjective | storage.py:46 | different digests have different hex forms |
| Text.Utf8 | storage.py:46 | `encode("utf-8")` has at least one byte per character |
| Text.Utf8CharDecodes | storage.py:130 | each character's UTF-8 sequence announces its length and decodes to the character |
| Text.Utf8Injective | storage.py:46 | different strings have different UTF-8 encodings |
| Text.Utf8Ascii | storage.py:133 | an ASCII string encodes to its own character codes |
| Text.PercentEncode | storage.py:144 | `quote` emits only unreserved characters (plus '/' for the path) and `%XX` escapes with upper-case hex |
| Text.PercentRoundTrip | storage.py:144 | percent-decoding `quote`'s output gives back the bytes |
| Text.CanonicalUnique | storage.py:144 | two canonical percent-encodings of the same bytes are the same string, so `quote`'s output is the only canonical encoding |
| Text.Quote | storage.py:144 | `quote(s, safe)` percent-encodes the UTF-8 bytes of s in the canonical upper-case `%XX` form |
| Text.QuoteRoundTrip | storage.py:158 | percent-decoding `quote(s)` gives back the UTF-8 bytes of s |
| Text.QuoteKeepsLiterals | storage.py:144 | a string made only of kept characters is left unchanged by `quote` |
| Text.AsciiLower | main.py:20 | `lower()` maps each character through ASCII lower-casing and keeps the length |
| Text.AsciiLowerIdempotent | main.py:20 | lower-casing leaves no upper-case ASCII letter and is idempotent |
| PairSort.StrLessTransitive | storage.py:156 | Python's string order is transitive |
| PairSort.StrLessTotal | storage.py:156 | any two strings are equal or ordered one way |
| PairSort.PairTransitive | storage.py:156 | tuple order (key, then value) is transitive |
| PairSort.PairAntisymmetric | storage.py:156 | tuples ordered both ways are equal |
| PairSort.InsertSorted | storage.py:156 | inserting into a sorted list keeps it sorted and adds exactly that element |
| PairSort.Sort | storage.py:155-156 | `params.sort()` yields a sorted permutation of the parsed pairs |
| PairSort.SortedUnique | storage.py:156 | two sorted permutations of the same pairs are equal |
| PairSort.SortIsCanonical | storage.py:156 | any sorted permutation is the result of `Sort` |
| SigV4.DateStamp | storage.py:148 | `date_stamp` is 8 digits |
| SigV4.AmzDate | storage.py:147-148 | `amz_date` has the form YYYYMMDDTHHMMSSZ, and its first 8 characters are the `date_stamp` of the same instant |
| SigV4.AmzDateRoundTrip | storage.py:146-147 | the instant is read back from `amz_date` |
| SigV4.AmzDateInjective | storage.py:146-147 | different instants give different `amz_date` strings |
| SigV4.PayloadHash | storage.py:150 | the payload hash is 64 lower-case hex digits |
| SigV4.CanonicalUri | storage.py:144 | the canonical URI uses only quoted characters, decodes to the UTF-8 of the path (or "/" for an empty path), and equals a path made of unreserved characters and '/' |
| SigV4.CanonicalQuery | storage.py:153-159 | the canonical query string is empty without a query and never holds a newline |
| SigV4.EncodePair | storage.py:158 | an encoded `k=v` holds no '&' and no newline |
| SigV4.DecodeEncodedPairs | storage.py:157-159 | splitting and decoding the encoded pairs gives back each key and value as UTF-8 |
| SigV4.CanonicalQueryDecodes | storage.py:153-159 | a server decoding the canonical query string recovers exactly the sorted pairs |
| SigV4.CanonicalQueryOrderFree | storage.py:155-159 | the canonical query string does not depend on the order of the parsed pairs |
| SigV4.HeaderBlockJoin | storage.py:160-164 | the header block is three newline-terminated lines |
| SigV4.CanonicalHeaders | storage.py:160-164 | the header block is the `host`, `x-amz-content-sha256` and `x-amz-date` lines, each ending in a newline |
| SigV4.CanonicalRequest | storage.py:167-174 | the first line of the canonical request is the method, whenever the method holds no newline |
| SigV4.CanonicalRequestLines | storage.py:160-174 | read line by line, the canonical request is the method, URI, query, the `host`, `x-amz-content-sha256` and `x-amz-date` lines, an empty line, the signed header names and the payload hash |
| SigV4.CredentialScopeFields | storage.py:177 | the scope splits on '/' into date_stamp, region, "s3", "aws4_request" |
| SigV4.CredentialScope | storage.py:177 | the scope splits on '/' into date_stamp, region, "s3" and "aws4_request" when neither date nor region holds a '/' |
| SigV4.StringToSign | storage.py:178-183 | read line by line, the string to sign is the algorithm, `amz_date`, the scope and the hex SHA-256 of the canonical request |
| SigV4.Sign | storage.py:129-130 | `_sign` is HMAC-SHA256 of the message's UTF-8 bytes under the key |
| SigV4.SigningKey | storage.py:132-137 | the signing key is "AWS4"+secret HMAC-chained through date_stamp, region, service and "aws4_request" |
| SigV4.SigningKeyFollowsScope | storage.py:132-137 | the signing key is HMAC chained from "AWS4"+secret through date_stamp, region, "s3", "aws4_request", each output keying the next, in the order of the scope |
| SigV4.Signature | storage.py:186 | the signature is 64 hex digits |
| SigV4.AuthorizationHeader | storage.py:188-191 | the header parses back to the credential `<access>/<scope>` and the 64-character signature |
| SigV4.CredentialFields | storage.py:189 | the credential splits into access key and the four scope components |
| SigV4.RequestHeaders | storage.py:193-198 | the sent headers hold `Host`, `x-amz-date`, `x-amz-content-sha256` and `Authorization` with the given values |
| SigV4.SignRequest | storage.py:139-206 | only "PUT" is sent as PUT with the payload; every other method is sent as a GET without a body; the URL is scheme://host + raw path |
| SigV4.SignedValuesAreSent | storage.py:160-198 | the sent `Host`, `x-amz-date` and `x-amz-content-sha256` headers are exactly the values in the signed canonical request |
| SigV4.SignedStringIsBound | storage.py:176-183 | the string to sign carries the sent `amz_date`, the scope and the hash of the canonical request |
| SigV4.SignedMethod | storage.py:167-168 | the first line of the canonical request is the method asked for |
| SigV4.DeleteIsSentAsGet | storage.py:202-205 | a DELETE is signed as "DELETE" but transmitted as a bodiless GET |
| SigV4.QueryIsSignedButNotSent | storage.py:153-159 | a URL with a query is transmitted like the same URL without it, though its canonical query is not empty |
| SigV4.AuthorizationCarriesSignature | storage.py:185-198 | the Authorization header sent holds HMAC(key chained through the scope, string to sign) and parses back to the credential and that signature |
| SigV4.UnqueriedRequestVerifies | storage.py:139-206 | a PUT or GET without a query reaches the server as signed: the canonical request it rebuilds is the signed one and its signature equals the one sent |
| SigV4.DeleteFailsVerification | storage.py:202-205 | the canonical request rebuilt from a transmitted delete is never the signed one, because it was signed as "DELETE" and sent as a GET |
| SigV4.QueryFailsVerification | storage.py:153-159 | with a non-empty query, the canonical request rebuilt from what was sent is never the signed one, because the query is not transmitted |
| Storage.PathJoin | storage.py:47 | `os.path.join` puts the directory (plus '/' when missing) before the name |
| Storage.LocalBackend.PathFor | storage.py:44-47 | the file is the directory joined with the hex SHA-256 of the id's UTF-8 bytes |
| Storage.LocalBackend.PathForShape | storage.py:44-47 | the path is the directory prefix followed by exactly 64 lower-case hex digits, so no character of the id reaches it |
| Storage.LocalBackend.PathForCollision | storage.py:44-47 | two ids share a file iff their SHA-256 digests are equal |
| Storage.LocalBackend.constructor | storage.py:39-42 | the backend keeps its directory and starts from the files already there |
| Storage.LocalBackend.Save | storage.py:49-52 | save overwrites the id's file with the data, or raises and changes nothing |
| Storage.LocalBackend.Get | storage.py:54-59 | get is `None` without a file, else the file's bytes (or a raise while reading) |
| Storage.LocalBackend.Delete | storage.py:61-69 | delete never raises; it answers False exactly when the file exists and removal raises (the file stays), otherwise True with the file gone |
| Storage.DatabaseBackend.constructor | storage.py:79-80 | the backend starts from the rows already in the table |
| Storage.DatabaseBackend.Save | storage.py:82-89 | save inserts a new row; an existing id raises at commit and leaves the table unchanged |
| Storage.DatabaseBackend.Get | storage.py:91-99 | get is the row's data, or `None` without a row |
| Storage.DatabaseBackend.Delete | storage.py:101-111 | delete answers True and removes the row iff it existed, else False with no change |
| Storage.RStrip | storage.py:123 | `rstrip("/")` is a prefix of the input with no trailing '/', and only '/' was removed |
| Storage.ServerApply | storage.py:201-205 | a GET never changes the endpoint's objects |
| Storage.SaveOutcome | storage.py:208-210 | save succeeds iff the status is 2xx, and raises with the status otherwise |
| Storage.DeleteOutcome | storage.py:212-218 | delete answers True iff the status is 2xx and does not raise on a status |
| Storage.GetOutcome | storage.py:220-224 | get returns the body iff the status is 200, else `None` |
| Storage.S3Backend.Request | storage.py:139-141 | each request goes to the parsed path of `bucket_url/id`, and only PUT is sent as PUT |
| Storage.S3Backend.Save | storage.py:208-210 | save answers by the status; on 2xx the endpoint stores the data under the blob's path, otherwise nothing changes |
| Storage.S3Backend.SaveSendsPut | storage.py:202-203 | the PUT sent by save stores exactly the data under the blob's path when accepted |
| Storage.S3Backend.Delete | storage.py:212-218 | delete answers by the status, and the endpoint's objects are unchanged |
| Storage.S3Backend.Get | storage.py:220-224 | get reports the reply to the GET it sends: the body on 200, `None` on any other status |
| Storage.S3Backend.DeleteRemovesNothing | storage.py:204-205 | whatever the endpoint answers, the delete removes nothing, because it goes out as a GET |
| Storage.S3Backend.DeleteFromHonestEndpoint | storage.py:212-218 | against an endpoint answering from its objects, delete answers True iff the object exists, and the object stays |
| Storage.S3Backend.GetFromHonestEndpoint | storage.py:220-224 | against such an endpoint, get returns the stored object or `None` |
| Storage.S3Backend.SaveThenGet | storage.py:208-224 | an accepted save followed by a get returns the saved bytes |
| Storage.S3Backend.DeleteAgainstCheckingEndpoint | storage.py:212-218 | against an endpoint that checks signatures, delete gets 403, answers False and removes nothing |
| Storage.S3Backend.GetAgainstCheckingEndpoint | storage.py:220-224 | against such an endpoint, get of a blob whose URL has no query returns the stored object or `None` |
| Storage.S3Backend.SaveAgainstCheckingEndpoint | storage.py:208-210 | against such an endpoint, save of a blob whose URL has no query succeeds and stores the data under the blob's path |
| Storage.S3Backend.QueryRefusedByCheckingEndpoint | storage.py:153-206 | a blob id that puts a query into the URL is refused with 403 on every request |
| Storage.S3Backend.constructor | storage.py:122-127 | the bucket URL is stored without trailing '/' |
| Api.VerifyToken | main.py:29-42 | 401 "Invalid auth header format" without the "Bearer " prefix, 401 "Invalid token" when the rest differs, accepted iff the text after "Bearer " is the expected token |
| Api.BearerSplit | main.py:38 | for a header starting with "Bearer ", `split(" ", 1)[1]` is everything after the prefix |
| Api.TokenHeaderAccepted | main.py:29-42 | the only header accepted for a token is "Bearer " + token |
| Api.SelectBackend | main.py:72-83 | lower-cased "db" selects the database and "s3" the S3 backend; anything else selects the local one |
| Api.BackendName | main.py:74-83 | `BACKEND_NAME` is "local", "db" or "s3" |
| Api.BackendNameFollowsSetting | main.py:20 | when the lower-cased setting names a backend, that name is recorded |
| Api.SelectBackendIgnoresCase | main.py:20 | lower-casing the setting again selects the same backend |
| Api.OpenBackend | main.py:72-83 | a fresh backend of the selected kind, configured from the directory, endpoint and credential settings |
| Api.FaithfulGet | main.py:132 | with no failing call and an endpoint answering from its objects, `BACKEND.get` returns what the backend holds |
| Api.SaveTo | main.py:99-103 | the backend save answers as the selected backend does, stores the bytes on success, changes nothing on a raise, and touches no other blob |
| Api.DeleteFrom | main.py:117-120 | the compensating delete answers as the backend's delete does; the blob is gone where the backend can remove it (never on S3) and keeps its bytes otherwise; no other blob is touched |
| Api.BlobService.constructor | main.py:72-83 | the service writes to the given backend |
| Api.BlobService.StorageType | main.py:72-83 | `BACKEND_NAME` is "local", "db" or "s3" exactly when the backend is the local, database or S3 one |
| Api.TooLarge | main.py:96-97 | the 413 detail holds the limit as a decimal number that reads back as the limit |
| Api.BlobService.CreateBlob | main.py:86-123 | 400 duplicate, then 400 bad base64, then 413 when over the limit (equal passes), all without effect; 500 with nothing recorded on a save raise; 500 with a cleanup attempt and nothing recorded on a failed commit, the bytes staying unless the delete removed them; otherwise 201 with id, size, created_at, storage type recorded; no other blob's bytes change; keeps every recorded blob readable |
| Api.BlobService.GetBlob | main.py:126-143 | 404 "Blob not found" without a row, 404 "Data missing from storage backend" when the backend has no bytes, otherwise base64 of the bytes with the recorded size and time |
| Api.BlobService.ReadRecorded | main.py:126-143 | in a consistent service with a faithful backend, every recorded blob reads back with its recorded size |

## Left out

- HTTP via httpx, filesystem calls and SQLAlchemy sessions are not modelled. The stores are maps, and each call's outcome is an `Env` input.
- SHA-256 and HMAC-SHA256 are function-typed inputs (`SigV4.Crypto`). Collision freedom is not assumed by the client side: `Storage.LocalBackend.PathForCollision` states file sharing in terms of digest equality, and `Api.BlobService.Separate` names the non-collision a create needs.
- Storage.CheckedAnswer: the endpoint's signature check compares canonical requests instead of signatures. This treats SHA-256 and HMAC as collision-free for that comparison. The accepting direction is proved with the real signatures (`SigV4.UnqueriedRequestVerifies`).
- `urlparse`, `parse_qsl` and the base64 codec are function-typed inputs. So is `str(e)` for an exception (`describe`).
- `datetime.utcnow()` is an input: the S3 request instant `Env.at` and `created_at`. The signer formats no microseconds. `created_at`'s microseconds, which the stored row and both responses carry (main.py:109, main.py:123, main.py:142), are not represented by `SigV4.DateTime`.
- SigV4.DateStamp: years are written with four digits; years before 1000, where `strftime("%Y")` differs across platforms, are not modelled separately.
- Api.SelectBackend: lower-cases ASCII letters only; Python's full Unicode `lower()` is not modelled.
- Storage.LocalBackend.Save: a failure during `f.write` after `open` has already truncated the file is not modelled; save is all-or-nothing.
- Storage.S3Backend.Get: takes the endpoint's reply as an input; the GET request itself is modelled by `Storage.S3Backend.Request`.
- The in-place `params.sort()` is modelled as the pure function `PairSort.Sort`.
- `os.makedirs` in the local backend's constructor is left out; the directory's existing files are given to the constructor.
- Reading the environment variables and their defaults (main.py:20-26, 39) is left out: the settings, the upload limit and the expected token are parameters (`Api.Settings`, `maxUploadBytes`, `VerifyToken`'s `expected`).
- The engine setup in database.py, FastAPI routing, pydantic models, dependency injection and logging are left out. `verify_token` is modelled as `Api.VerifyToken`, separately from the handlers it guards. `Api.BlobService.GetBlob`'s 500 stands for FastAPI's default answer to an unexpected exception.
- Concurrent creates of the same id are not modelled. The model is sequential, so the race between the existence check (main.py:88) and the commit (main.py:114) is out of its reach.
