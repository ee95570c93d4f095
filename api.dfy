/**
  The HTTP layer of main.py: the bearer-token check, the choice of backend
  from `STORAGE_BACKEND`, and the create and read protocols of
  `POST /v1/blobs` and `GET /v1/blobs/{blob_id}` over two stores, the
  `blobs_metadata` table and the selected backend.

  The base64 codec, the clock, exception texts and the outcome of every
  call that can fail (backend save, metadata commit, compensating delete,
  backend read) are inputs.
*/
module Api {
  import opened Results
  import opened Text
  import opened PairSort
  import opened SigV4
  import opened Storage

  /** An `HTTPException`: status code and detail text. */
  datatype ApiError = ApiError(status: int, detail: string)

  // ---------------------------------------------------------------------
  // verify_token
  // ---------------------------------------------------------------------

  const BearerPrefix: string := "Bearer "

  /**
    `verify_token`: the header must start with "Bearer ", and the text after
    its first space must be the expected token, character for character.
  */
  function VerifyToken(authorization: string, expected: string): (r: Result<bool, ApiError>)
    ensures !StartsWith(authorization, BearerPrefix) ==> r == Err(ApiError(401, "Invalid auth header format"))
    ensures StartsWith(authorization, BearerPrefix) && authorization[|BearerPrefix|..] != expected
            ==> r == Err(ApiError(401, "Invalid token"))
    ensures r.Ok? <==> StartsWith(authorization, BearerPrefix) && authorization[|BearerPrefix|..] == expected
    ensures r.Ok? ==> r.value
  {
    if !StartsWith(authorization, BearerPrefix) then Err(ApiError(401, "Invalid auth header format"))
    else
      BearerSplit(authorization);
      var token := SplitOnce(authorization, ' ')[1];
      if token != expected then Err(ApiError(401, "Invalid token")) else Ok(true)
  }

  /** For a header that starts with "Bearer ", `split(" ", 1)[1]` is everything after that prefix. */
  lemma BearerSplit(authorization: string)
    requires StartsWith(authorization, BearerPrefix)
    ensures SplitOnce(authorization, ' ') == ["Bearer", authorization[|BearerPrefix|..]]
  {
    var parts := SplitOnce(authorization, ' ');
    assert authorization[6] == ' ';
    assert |parts| == 2;
    var n := |parts[0]|;
    assert authorization[n] == ' ' by {
      assert authorization == parts[0] + [' '] + parts[1];
    }
    assert n == 6;
    assert parts[0] == authorization[..6];
    assert authorization[..6] == authorization[..7][..6] == BearerPrefix[..6] == "Bearer";
    assert parts[1] == authorization[7..] by {
      assert authorization == parts[0] + [' '] + parts[1];
    }
  }

  /** The token check accepts exactly one header for each token. */
  lemma TokenHeaderAccepted(token: string)
    ensures VerifyToken(BearerPrefix + token, token) == Ok(true)
    ensures forall other :: VerifyToken(other, token).Ok? ==> other == BearerPrefix + token
  {
    var h := BearerPrefix + token;
    assert h[..|BearerPrefix|] == BearerPrefix;
    assert h[|BearerPrefix|..] == token;
    forall other | VerifyToken(other, token).Ok? ensures other == BearerPrefix + token {
      assert other == other[..|BearerPrefix|] + other[|BearerPrefix|..];
    }
  }

  // ---------------------------------------------------------------------
  // Backend selection
  // ---------------------------------------------------------------------

  datatype BackendKind = LocalKind | DbKind | S3Kind

  /**
    The branch on `STORAGE_BACKEND.lower()`: "local", "db" and "s3" pick
    their backend, and any other value falls back to the local one.
  */
  function SelectBackend(setting: string): (r: BackendKind)
    ensures r == DbKind <==> AsciiLower(setting) == "db"
    ensures r == S3Kind <==> AsciiLower(setting) == "s3"
    ensures r == LocalKind <==> AsciiLower(setting) != "db" && AsciiLower(setting) != "s3"
  {
    var s := AsciiLower(setting);
    if s == "local" then LocalKind
    else if s == "db" then DbKind
    else if s == "s3" then S3Kind
    else LocalKind
  }

  /** `BACKEND_NAME` for the chosen backend. */
  function BackendName(k: BackendKind): (r: string)
    ensures r == "local" || r == "db" || r == "s3"
  {
    match k
    case LocalKind => "local"
    case DbKind => "db"
    case S3Kind => "s3"
  }

  /** The name recorded for a blob is the lower-cased setting whenever that setting names a backend. */
  lemma BackendNameFollowsSetting(setting: string)
    ensures var s := AsciiLower(setting);
      (s == "local" || s == "db" || s == "s3") ==> BackendName(SelectBackend(setting)) == s
    ensures BackendName(SelectBackend(setting)) != AsciiLower(setting) ==> SelectBackend(setting) == LocalKind
  {
  }

  /** Lower-casing the setting again selects the same backend. */
  lemma SelectBackendIgnoresCase(setting: string)
    ensures SelectBackend(AsciiLower(setting)) == SelectBackend(setting)
  {
    AsciiLowerIdempotent(setting);
  }

  // ---------------------------------------------------------------------
  // The selected backend, seen through one interface
  // ---------------------------------------------------------------------

  datatype Backend = Local(local: LocalBackend) | Db(db: DatabaseBackend) | S3(s3: S3Backend)
  {
    function Kind(): BackendKind
    {
      match this
      case Local(_) => LocalKind
      case Db(_) => DbKind
      case S3(_) => S3Kind
    }

    /** The object whose state the backend's calls change. */
    function Target(): object
    {
      match this
      case Local(l) => l
      case Db(d) => d
      case S3(s) => s
    }

    /** Where the backend keeps a blob: a file path, a primary key or a request path. */
    function Key(id: string): string
    {
      match this
      case Local(l) => l.PathFor(id)
      case Db(_) => id
      case S3(s) => s.ObjectPath(id)
    }

    /** The bytes the backend holds for a blob. */
    function Contents(id: string): Option<Bytes>
      reads Target()
    {
      match this
      case Local(l) => l.Contents(id)
      case Db(d) => d.Contents(id)
      case S3(s) => s.Contents(id)
    }

    /** `BACKEND.get(blob_id)`. */
    function Get(id: string, env: Env): Call<Option<Bytes>>
      reads Target()
    {
      match this
      case Local(l) => l.Get(id, env)
      case Db(d) => d.Get(id, env)
      case S3(s) => s.Get(id, env)
    }

    /** The environment in which `get` reports what the backend holds: no failing call, and an endpoint that answers from its bucket. */
    predicate Faithful(id: string, env: Env)
      reads Target()
    {
      match this
      case Local(_) => !env.fails
      case Db(_) => !env.fails
      case S3(s) => env.fails == false && env.reply == Answer(s.bucket, GET, s.ObjectPath(id))
    }

    /**
      What `BACKEND.save(blob_id, data)` answers in `env`: the dispatch view
      of the answers the three backends' `Save` contracts state, which
      `SaveTo` shows it agrees with.
    */
    function SaveResult(id: string, data: Bytes, env: Env): Call<()>
      reads Target()
    {
      match this
      case Local(_) => if env.fails then Raised(OsError) else Returned(())
      case Db(d) => if env.fails then Raised(DatabaseError) else if id in d.rows then Raised(IntegrityError) else Returned(())
      case S3(_) => SaveOutcome(env.reply)
    }

    /**
      What `BACKEND.delete(blob_id)` answers in `env`: the dispatch view of
      the answers the three backends' `Delete` contracts state, which
      `DeleteFrom` shows it agrees with.
    */
    function DeleteResult(id: string, env: Env): Call<bool>
      reads Target()
    {
      match this
      case Local(l) => Returned(!(l.Contents(id) != None && env.fails))
      case Db(d) => if env.fails then Raised(DatabaseError) else Returned(id in d.rows)
      case S3(_) => DeleteOutcome(env.reply)
    }

    /** Whether `BACKEND.delete(blob_id)` in `env` leaves the blob gone: never on S3, whose delete goes out as a GET. */
    predicate CleanupRemoves(env: Env)
    {
      match this
      case Local(_) => !env.fails
      case Db(_) => !env.fails
      case S3(_) => false
    }
  }

  /** The environment variables that choose and configure the backend. */
  datatype Settings = Settings(storageBackend: string, localStorageDir: string, s3Endpoint: string,
                               s3AccessKey: string, s3SecretKey: string, s3Region: string)

  /**
    The module-level branch that builds `BACKEND`: a fresh backend of the
    kind `SelectBackend` names, configured from the settings, over the
    objects already stored.
  */
  method OpenBackend(settings: Settings, crypto: Crypto, urlparse: string -> Url, parseQsl: string -> seq<Pair>,
                     existing: map<string, Bytes>) returns (b: Backend)
    ensures b.Kind() == SelectBackend(settings.storageBackend)
    ensures fresh(b.Target())
    ensures b.Local? ==> b.local.storageDir == settings.localStorageDir && b.local.crypto == crypto && b.local.files == existing
    ensures b.Db? ==> b.db.rows == existing
    ensures b.S3? ==> && b.s3.bucketUrl == RStrip(settings.s3Endpoint, '/')
                      && b.s3.creds == Credentials(settings.s3AccessKey, settings.s3SecretKey, settings.s3Region)
                      && b.s3.crypto == crypto && b.s3.bucket == existing
  {
    var kind := SelectBackend(settings.storageBackend);
    if kind == DbKind {
      var d := new DatabaseBackend(existing);
      b := Db(d);
    } else if kind == S3Kind {
      var s := new S3Backend(settings.s3Endpoint, settings.s3AccessKey, settings.s3SecretKey, settings.s3Region,
                             crypto, urlparse, parseQsl, existing);
      b := S3(s);
    } else {
      var l := new LocalBackend(settings.localStorageDir, crypto, existing);
      b := Local(l);
    }
  }

  /** In a faithful environment `get` returns exactly what the backend holds. */
  lemma FaithfulGet(b: Backend, id: string, env: Env)
    requires b.Faithful(id, env)
    ensures b.Get(id, env) == Returned(b.Contents(id))
  {
    match b
    case Local(l) =>
    case Db(d) =>
    case S3(s) =>
  }

  /** `BACKEND.save(blob_id, data)`: the blob's key gets the data on success, a raise changes nothing, other keys stay. */
  method SaveTo(b: Backend, id: string, data: Bytes, env: Env) returns (r: Call<()>)
    modifies b.Target()
    ensures r == old(b.SaveResult(id, data, env))
    ensures r.Returned? ==> b.Contents(id) == Some(data)
    ensures forall other :: r.Raised? || b.Key(other) != b.Key(id) ==> b.Contents(other) == old(b.Contents(other))
  {
    match b
    case Local(l) =>
      r := l.Save(id, data, env);
      forall other | r.Raised? || l.PathFor(other) != l.PathFor(id) ensures l.Contents(other) == old(l.Contents(other)) {
      }
    case Db(d) =>
      r := d.Save(id, data, env);
    case S3(s) =>
      r := s.Save(id, data, env);
  }

  /**
    `BACKEND.delete(blob_id)` as the compensating step: the blob is gone
    exactly where `CleanupRemoves` says so and otherwise keeps its bytes, and
    no other key is touched.
  */
  method DeleteFrom(b: Backend, id: string, env: Env) returns (r: Call<bool>)
    modifies b.Target()
    ensures r == old(b.DeleteResult(id, env))
    ensures b.CleanupRemoves(env) ==> b.Contents(id) == None
    ensures !b.CleanupRemoves(env) ==> b.Contents(id) == old(b.Contents(id))
    ensures forall other :: b.Key(other) != b.Key(id) ==> b.Contents(other) == old(b.Contents(other))
  {
    match b
    case Local(l) =>
      r := l.Delete(id, env);
      forall other | l.PathFor(other) != l.PathFor(id) ensures l.Contents(other) == old(l.Contents(other)) {
      }
    case Db(d) =>
      r := d.Delete(id, env);
    case S3(s) =>
      r := s.Delete(id, env);
  }

  // ---------------------------------------------------------------------
  // The blob service
  // ---------------------------------------------------------------------

  /** A `blobs_metadata` row. */
  datatype BlobMetadata = BlobMetadata(id: string, size: nat, createdAt: DateTime, storageType: string)

  /** `BlobCreateResponse`. */
  datatype BlobCreated = BlobCreated(id: string, size: nat, createdAt: DateTime, storageType: string)

  /** `BlobResponse`. */
  datatype BlobRead = BlobRead(id: string, data: string, size: nat, createdAt: DateTime)

  const DuplicateId: string := "ID already exists"
  const InvalidBase64: string := "Invalid Base64 data"
  const SavePrefix: string := "Failed to save data: "
  const MetadataFailed: string := "Failed to persist metadata; uploaded data cleaned up when possible"
  const BlobNotFound: string := "Blob not found"
  const DataMissing: string := "Data missing from storage backend"
  /** What FastAPI answers when a handler raises something other than an `HTTPException`. */
  const InternalError: string := "Internal Server Error"

  /** `f"Payload too large (max {MAX_UPLOAD_BYTES} bytes)"`. */
  function TooLarge(maxUploadBytes: int): (r: string)
    ensures StartsWith(r, "Payload too large (max ") && |r| >= 31 && r[|r| - 7..] == " bytes)"
    ensures maxUploadBytes >= 0 ==> AllDigits(r[23..|r| - 7]) && ParseDigits(r[23..|r| - 7]) == maxUploadBytes
  {
    ParseDecimal(if maxUploadBytes < 0 then -maxUploadBytes else maxUploadBytes);
    var r := "Payload too large (max " + IntToString(maxUploadBytes) + " bytes)";
    assert r[23..|r| - 7] == IntToString(maxUploadBytes);
    r
  }

  class BlobService {
    const backend: Backend
    const maxUploadBytes: int
    /** `base64.b64decode(s, validate=True)`, `None` where it raises, and `base64.b64encode(b).decode()`. */
    const b64decode: string -> Option<Bytes>
    const b64encode: Bytes -> string
    /** `str(e)` for an exception raised by the backend. */
    const describe: Fault -> string
    /** The `blobs_metadata` table, by id. */
    var metadata: map<string, BlobMetadata>

    constructor(backend: Backend, maxUploadBytes: int, b64decode: string -> Option<Bytes>,
                b64encode: Bytes -> string, describe: Fault -> string, existing: map<string, BlobMetadata>)
      ensures this.backend == backend && this.maxUploadBytes == maxUploadBytes
      ensures this.b64decode == b64decode && this.b64encode == b64encode && this.describe == describe
      ensures metadata == existing
    {
      this.backend := backend;
      this.maxUploadBytes := maxUploadBytes;
      this.b64decode := b64decode;
      this.b64encode := b64encode;
      this.describe := describe;
      metadata := existing;
    }

    /** `BACKEND_NAME`: always the name of the backend the service writes to. */
    function StorageType(): (r: string)
      ensures r == "local" <==> backend.Local?
      ensures r == "db" <==> backend.Db?
      ensures r == "s3" <==> backend.S3?
    {
      BackendName(backend.Kind())
    }

    /** Every recorded blob is under its own id, names this service's backend, and its bytes are in the backend with the recorded size. */
    predicate Consistent()
      reads this, backend.Target()
    {
      forall id :: id in metadata ==>
        && metadata[id].id == id
        && metadata[id].storageType == StorageType()
        && backend.Contents(id).Some?
        && |backend.Contents(id).value| == metadata[id].size
    }

    /** No recorded blob other than `id` shares `id`'s place in the backend. */
    predicate Separate(id: string)
      reads this
    {
      forall other :: other in metadata && other != id ==> backend.Key(other) != backend.Key(id)
    }

    /** The payload `create_blob` accepts: not a known id, valid base64, within the size limit. */
    predicate Admissible(id: string, data: string)
      reads this
    {
      id !in metadata && b64decode(data).Some? && |b64decode(data).value| <= maxUploadBytes
    }

    /**
      `create_blob`. In order: an id already recorded gives 400 "ID already
      exists"; data that is not base64 gives 400 "Invalid Base64 data"; more
      than `maxUploadBytes` decoded bytes give 413 (exactly `maxUploadBytes`
      is accepted); none of these touches either store. Then the bytes go to
      the backend, and a raise there gives 500 with nothing recorded and the
      backend as it was. Then the metadata row is committed; if the commit
      fails the backend delete is attempted, whatever it answers or raises
      the caller gets 500, nothing is recorded, and the bytes stay in the
      backend unless that delete removed them. Otherwise the row
      {id, size, created_at, storage_type} is recorded and returned with 201.
    */
    method CreateBlob(id: string, data: string, now: DateTime, saveEnv: Env, commitFails: bool, cleanupEnv: Env)
      returns (r: Result<BlobCreated, ApiError>)
      modifies this, backend.Target()
      ensures id in old(metadata) ==> r == Err(ApiError(400, DuplicateId))
      ensures id !in old(metadata) && b64decode(data).None? ==> r == Err(ApiError(400, InvalidBase64))
      ensures id !in old(metadata) && b64decode(data).Some? && |b64decode(data).value| > maxUploadBytes
              ==> r == Err(ApiError(413, TooLarge(maxUploadBytes)))
      ensures !old(Admissible(id, data)) ==> metadata == old(metadata) && unchanged(backend.Target())
      ensures old(Admissible(id, data)) && old(backend.SaveResult(id, b64decode(data).value, saveEnv)).Raised?
              ==> && r == Err(ApiError(500, SavePrefix + describe(old(backend.SaveResult(id, b64decode(data).value, saveEnv)).fault)))
                  && metadata == old(metadata)
                  && forall other :: backend.Contents(other) == old(backend.Contents(other))
      ensures old(Admissible(id, data)) && old(backend.SaveResult(id, b64decode(data).value, saveEnv)).Returned? && commitFails
              ==> && r == Err(ApiError(500, MetadataFailed))
                  && metadata == old(metadata)
                  && (backend.CleanupRemoves(cleanupEnv) ==> backend.Contents(id) == None)
                  && (!backend.CleanupRemoves(cleanupEnv) ==> backend.Contents(id) == Some(b64decode(data).value))
      ensures old(Admissible(id, data)) && old(backend.SaveResult(id, b64decode(data).value, saveEnv)).Returned? && !commitFails
              ==> && r == Ok(BlobCreated(id, |b64decode(data).value|, now, StorageType()))
                  && metadata == old(metadata)[id := BlobMetadata(id, |b64decode(data).value|, now, StorageType())]
                  && backend.Contents(id) == Some(b64decode(data).value)
      ensures forall other :: backend.Key(other) != backend.Key(id) ==> backend.Contents(other) == old(backend.Contents(other))
      ensures r.Ok? <==> old(Admissible(id, data)) && old(backend.SaveResult(id, b64decode(data).value, saveEnv)).Returned? && !commitFails
      ensures old(Consistent()) && old(Separate(id)) ==> Consistent()
    {
      if id in metadata {
        return Err(ApiError(400, DuplicateId));
      }
      var decoded := b64decode(data);
      if decoded.None? {
        return Err(ApiError(400, InvalidBase64));
      }
      var bytes := decoded.value;
      if |bytes| > maxUploadBytes {
        return Err(ApiError(413, TooLarge(maxUploadBytes)));
      }
      var saved := SaveTo(backend, id, bytes, saveEnv);
      if saved.Raised? {
        return Err(ApiError(500, SavePrefix + describe(saved.fault)));
      }
      var row := BlobMetadata(id, |bytes|, now, StorageType());
      if commitFails {
        var _ := DeleteFrom(backend, id, cleanupEnv);
        return Err(ApiError(500, MetadataFailed));
      }
      metadata := metadata[id := row];
      return Ok(BlobCreated(id, |bytes|, now, StorageType()));
    }

    /**
      `get_blob`: 404 "Blob not found" without a metadata row; 404 "Data
      missing from storage backend" when the backend has no bytes for a
      recorded blob; 500 when the backend raises; otherwise the base64 of the
      stored bytes with the recorded id, size and creation time.
    */
    function GetBlob(id: string, env: Env): (r: Result<BlobRead, ApiError>)
      reads this, backend.Target()
      ensures id !in metadata ==> r == Err(ApiError(404, BlobNotFound))
      ensures id in metadata && backend.Get(id, env) == Returned(None) ==> r == Err(ApiError(404, DataMissing))
      ensures id in metadata && backend.Get(id, env).Raised? ==> r == Err(ApiError(500, InternalError))
      ensures r.Ok? <==> id in metadata && backend.Get(id, env).Returned? && backend.Get(id, env).value.Some?
      ensures r.Ok? ==> r.value == BlobRead(metadata[id].id, b64encode(backend.Get(id, env).value.value),
                                             metadata[id].size, metadata[id].createdAt)
    {
      if id !in metadata then Err(ApiError(404, BlobNotFound))
      else
        match backend.Get(id, env)
        case Raised(_) => Err(ApiError(500, InternalError))
        case Returned(None) => Err(ApiError(404, DataMissing))
        case Returned(Some(bytes)) =>
          var m := metadata[id];
          Ok(BlobRead(m.id, b64encode(bytes), m.size, m.createdAt))
    }

    /**
      In a consistent service whose backend answers faithfully, every
      recorded blob reads back as the base64 of bytes of the recorded size,
      and the two 404s are told apart by the metadata alone.
    */
    lemma ReadRecorded(id: string, env: Env)
      requires Consistent() && backend.Faithful(id, env)
      ensures id in metadata ==> && GetBlob(id, env).Ok?
                                 && GetBlob(id, env).value.data == b64encode(backend.Contents(id).value)
                                 && GetBlob(id, env).value.size == |backend.Contents(id).value|
      ensures id !in metadata ==> GetBlob(id, env) == Err(ApiError(404, BlobNotFound))
    {
      FaithfulGet(backend, id, env);
    }
  }
}
