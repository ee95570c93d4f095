/**
  The three storage backends of storage.py as keyed byte stores.

  - `LocalBackend` keeps one file per blob, named by the hex SHA-256 of the
    id, in a directory; the directory's files are the map `files`.
  - `DatabaseBackend` keeps one row per blob in the `blobs_data` table,
    whose primary key is the id; the table is the map `rows`.
  - `S3Backend` sends signed HTTP requests to an S3-compatible endpoint; the
    objects the endpoint holds are the map `bucket`, keyed by request path,
    and the endpoint's reply to each request is an input.

  What the outside world does during a call (an `OSError`, a database error,
  the HTTP reply, the current instant) is given as an `Env`.
*/
module Storage {
  import opened Results
  import opened Text
  import opened PairSort
  import opened SigV4

  /** The exceptions a backend call can raise. */
  datatype Fault =
    | OsError                      // the filesystem call raised
    | IntegrityError               // the insert broke the primary key
    | DatabaseError                // any other database failure
    | HttpStatusError(status: int) // `raise_for_status` on a non-2xx reply
    | TransportError               // httpx could not complete the exchange

  /** A call that either returns a value or raises. */
  datatype Call<+T> = Returned(value: T) | Raised(fault: Fault)

  /** What the S3 endpoint answers: a status and a body, or no answer at all. */
  datatype Reply = Response(status: int, content: Bytes) | TransportFailure

  /**
    The outside world during one backend call: whether the filesystem or
    database call fails, the endpoint's reply, and `datetime.utcnow()`.
  */
  datatype Env = Env(fails: bool, reply: Reply, at: DateTime)

  predicate Success(status: int)
  {
    200 <= status < 300
  }

  // ---------------------------------------------------------------------
  // Local filesystem
  // ---------------------------------------------------------------------

  /** What `os.path.join(dir, name)` puts before a relative `name`. */
  function DirPrefix(dir: string): string
  {
    if dir == [] || dir[|dir| - 1] == '/' then dir else dir + "/"
  }

  /** `os.path.join(dir, name)` for a name that does not start with `/`. */
  function PathJoin(dir: string, name: string): (r: string)
    requires name == [] || name[0] != '/'
    ensures r == DirPrefix(dir) + name
  {
    if dir == [] then name
    else if dir[|dir| - 1] == '/' then dir + name
    else dir + "/" + name
  }

  class LocalBackend {
    const storageDir: string
    const crypto: Crypto
    /** The files of `storageDir`, by full path. */
    var files: map<string, Bytes>

    /** Opens a directory that may already hold files (`os.makedirs` creates it when missing). */
    constructor(storageDir: string, crypto: Crypto, existing: map<string, Bytes>)
      ensures this.storageDir == storageDir && this.crypto == crypto && files == existing
    {
      this.storageDir := storageDir;
      this.crypto := crypto;
      files := existing;
    }

    /** `_filename_for_id`: the directory joined with the hex SHA-256 of the id's UTF-8 bytes. */
    function PathFor(id: string): (r: string)
      ensures r == DirPrefix(storageDir) + HexLower(crypto.sha256(Utf8(id)))
    {
      var name := HexLower(crypto.sha256(Utf8(id)));
      assert IsLowerHexDigit(name[0]);
      PathJoin(storageDir, name)
    }

    /**
      No character of the id reaches the path: it is the directory prefix
      followed by exactly 64 lower-case hex digits.
    */
    lemma PathForShape(id: string)
      ensures var p := PathFor(id);
        && |p| == |DirPrefix(storageDir)| + 64
        && p[..|DirPrefix(storageDir)|] == DirPrefix(storageDir)
        && forall i :: |DirPrefix(storageDir)| <= i < |p| ==> IsLowerHexDigit(p[i])
    {
      var name := HexLower(crypto.sha256(Utf8(id)));
      var p := PathFor(id);
      forall i | |DirPrefix(storageDir)| <= i < |p| ensures IsLowerHexDigit(p[i]) {
        assert p[i] == name[i - |DirPrefix(storageDir)|];
      }
    }

    /** Two ids share a file exactly when their UTF-8 encodings have the same SHA-256 digest. */
    lemma PathForCollision(a: string, b: string)
      ensures PathFor(a) == PathFor(b) <==> crypto.sha256(Utf8(a)) == crypto.sha256(Utf8(b))
    {
      var prefix := DirPrefix(storageDir);
      var da, db := crypto.sha256(Utf8(a)), crypto.sha256(Utf8(b));
      if PathFor(a) == PathFor(b) {
        assert HexLower(da) == PathFor(a)[|prefix|..];
        assert HexLower(db) == PathFor(b)[|prefix|..];
        HexInjective(da, db);
      }
    }

    /** The file a path names, if it exists. */
    function Contents(id: string): Option<Bytes>
      reads this
    {
      if PathFor(id) in files then Some(files[PathFor(id)]) else None
    }

    /** `save`: `open(path, "wb")` creates or truncates the file and the data is written; a failing `open` raises. */
    method Save(id: string, data: Bytes, env: Env) returns (r: Call<()>)
      modifies this
      ensures env.fails ==> r == Raised(OsError) && files == old(files)
      ensures !env.fails ==> r == Returned(()) && files == old(files)[PathFor(id) := data]
    {
      if env.fails {
        return Raised(OsError);
      }
      files := files[PathFor(id) := data];
      return Returned(());
    }

    /** `get`: `None` when the file does not exist, else its bytes; reading an existing file may raise. */
    function Get(id: string, env: Env): (r: Call<Option<Bytes>>)
      reads this
      ensures Contents(id) == None ==> r == Returned(None)
      ensures Contents(id) != None ==> r == if env.fails then Raised(OsError) else Returned(Contents(id))
    {
      var path := PathFor(id);
      if path !in files then Returned(None)
      else if env.fails then Raised(OsError)
      else Returned(Some(files[path]))
    }

    /**
      `delete`: removes the file if it exists. It answers `True` when there was
      nothing to remove and when removal succeeded, and `False` (keeping the
      file) only when `os.remove` raised. It never raises.
    */
    method Delete(id: string, env: Env) returns (r: Call<bool>)
      modifies this
      ensures r.Returned?
      ensures r.value == false <==> old(Contents(id)) != None && env.fails
      ensures r.value ==> files == old(files) - {PathFor(id)}
      ensures !r.value ==> files == old(files)
    {
      var path := PathFor(id);
      if path in files {
        if env.fails {
          return Returned(false);
        }
        files := files - {path};
        return Returned(true);
      }
      return Returned(true);
    }
  }

  // ---------------------------------------------------------------------
  // Database table
  // ---------------------------------------------------------------------

  class DatabaseBackend {
    /** The `blobs_data` table: primary key `id`, column `data`. */
    var rows: map<string, Bytes>

    constructor(existing: map<string, Bytes>)
      ensures rows == existing
    {
      rows := existing;
    }

    function Contents(id: string): Option<Bytes>
      reads this
    {
      if id in rows then Some(rows[id]) else None
    }

    /**
      `save`: inserts a row and commits. The commit of a second row with the
      same id breaks the primary key and raises, leaving the table as it was.
    */
    method Save(id: string, data: Bytes, env: Env) returns (r: Call<()>)
      modifies this
      ensures env.fails ==> r == Raised(DatabaseError) && rows == old(rows)
      ensures !env.fails && id in old(rows) ==> r == Raised(IntegrityError) && rows == old(rows)
      ensures !env.fails && id !in old(rows) ==> r == Returned(()) && rows == old(rows)[id := data]
    {
      if env.fails {
        return Raised(DatabaseError);
      }
      if id in rows {
        return Raised(IntegrityError);
      }
      rows := rows[id := data];
      return Returned(());
    }

    /** `get`: the row's data, or `None` when there is no row. */
    function Get(id: string, env: Env): (r: Call<Option<Bytes>>)
      reads this
      ensures !env.fails ==> r == Returned(Contents(id))
      ensures env.fails ==> r.Raised?
    {
      if env.fails then Raised(DatabaseError)
      else if id in rows then Returned(Some(rows[id]))
      else Returned(None)
    }

    /** `delete`: removes the row and answers `True` when there is one, answers `False` and changes nothing otherwise. */
    method Delete(id: string, env: Env) returns (r: Call<bool>)
      modifies this
      ensures env.fails ==> r == Raised(DatabaseError) && rows == old(rows)
      ensures !env.fails ==> r == Returned(id in old(rows))
      ensures !env.fails ==> rows == old(rows) - {id}
    {
      if env.fails {
        return Raised(DatabaseError);
      }
      if id in rows {
        rows := rows - {id};
        return Returned(true);
      }
      return Returned(false);
    }
  }

  // ---------------------------------------------------------------------
  // S3-compatible endpoint
  // ---------------------------------------------------------------------

  /** `s.rstrip(c)`: the text without its trailing run of `c`. */
  function RStrip(s: string, c: char): (r: string)
    ensures |r| <= |s| && r == s[..|r|]
    ensures r == [] || r[|r| - 1] != c
    ensures forall i :: |r| <= i < |s| ==> s[i] == c
    decreases |s|
  {
    if |s| > 0 && s[|s| - 1] == c then RStrip(s[..|s| - 1], c) else s
  }

  /**
    What an S3-compatible endpoint does with a request when it answers
    `reply`: a successful PUT stores the body under the path, a successful
    DELETE removes it, and anything else (a GET, a failure) changes nothing.
  */
  function ServerApply(bucket: map<string, Bytes>, w: Wire, reply: Reply): (r: map<string, Bytes>)
    ensures w.verb == GET ==> r == bucket
  {
    if reply.TransportFailure? || !Success(reply.status) then bucket
    else match w.verb
      case PUT => bucket[w.path := w.body]
      case DELETE => bucket - {w.path}
      case GET => bucket
  }

  /** An accepted PUT stores its body under its path; a refused one changes nothing. */
  lemma PutStores(bucket: map<string, Bytes>, w: Wire, reply: Reply)
    requires w.verb == PUT
    ensures ServerApply(bucket, w, reply) == if SaveOutcome(reply).Returned? then bucket[w.path := w.body] else bucket
  {
  }

  /**
    The reply an endpoint that keeps its objects in `bucket` gives to a
    request of `verb` on `path` when it does not check signatures: it
    accepts every request, authenticated or not. `CheckedAnswer` is the
    endpoint that checks them.
  */
  function Answer(bucket: map<string, Bytes>, verb: HttpVerb, path: string): Reply
  {
    match verb
    case PUT => Response(200, [])
    case DELETE => Response(204, [])
    case GET => if path in bucket then Response(200, bucket[path]) else Response(404, [])
  }

  /**
    The reply of an endpoint that checks SigV4 signatures and otherwise
    answers from `bucket`. The hash functions are taken as collision-free:
    the signature the endpoint computes over what it received matches the
    one sent exactly when the canonical request it rebuilds is the one that
    was signed (`SigV4.UnqueriedRequestVerifies` shows the match); on a
    mismatch it answers 403.
  */
  function CheckedAnswer(bucket: map<string, Bytes>, r: SignedRequest): Reply
  {
    if ReceivedCanonicalRequest(r.wire) == Some(r.canonicalRequest) then Answer(bucket, r.wire.verb, r.wire.path)
    else Response(403, [])
  }

  /** `save` after `resp.raise_for_status()`. */
  function SaveOutcome(reply: Reply): (r: Call<()>)
    ensures r.Returned? <==> reply.Response? && Success(reply.status)
    ensures reply.Response? && !Success(reply.status) ==> r == Raised(HttpStatusError(reply.status))
  {
    if reply.TransportFailure? then Raised(TransportError)
    else if Success(reply.status) then Returned(())
    else Raised(HttpStatusError(reply.status))
  }

  /** `delete`: `True` on a 2xx status, `False` on any other status; a transport failure still raises. */
  function DeleteOutcome(reply: Reply): (r: Call<bool>)
    ensures r.Returned? <==> reply.Response?
    ensures r.Returned? ==> (r.value <==> Success(reply.status))
  {
    if reply.TransportFailure? then Raised(TransportError)
    else Returned(Success(reply.status))
  }

  /** `get`: the body on status 200 and `None` on any other status, 2xx or not. */
  function GetOutcome(reply: Reply): (r: Call<Option<Bytes>>)
    ensures r.Returned? <==> reply.Response?
    ensures r.Returned? ==> (r.value.Some? <==> reply.status == 200)
    ensures r.Returned? && r.value.Some? ==> r.value.value == reply.content
  {
    if reply.TransportFailure? then Raised(TransportError)
    else if reply.status == 200 then Returned(Some(reply.content))
    else Returned(None)
  }

  class S3Backend {
    /** `bucket_url.rstrip("/")`. */
    const bucketUrl: string
    const creds: Credentials
    const crypto: Crypto
    /** `urllib.parse.urlparse` and `parse_qsl(..., keep_blank_values=True)`. */
    const urlparse: string -> Url
    const parseQsl: string -> seq<Pair>
    /** The objects the endpoint holds, by request path. */
    var bucket: map<string, Bytes>

    /** The region defaults to "us-east-1" at the call site. */
    constructor(bucketUrl: string, accessKey: string, secretKey: string, region: string, crypto: Crypto,
                urlparse: string -> Url, parseQsl: string -> seq<Pair>, existing: map<string, Bytes>)
      ensures this.bucketUrl == RStrip(bucketUrl, '/')
      ensures creds == Credentials(accessKey, secretKey, region)
      ensures this.crypto == crypto && this.urlparse == urlparse && this.parseQsl == parseQsl
      ensures bucket == existing
    {
      this.bucketUrl := RStrip(bucketUrl, '/');
      creds := Credentials(accessKey, secretKey, region);
      this.crypto := crypto;
      this.urlparse := urlparse;
      this.parseQsl := parseQsl;
      bucket := existing;
    }

    /** `urlparse(f"{bucket_url}/{blob_id}")`. */
    function Target(id: string): Url
    {
      urlparse(bucketUrl + "/" + id)
    }

    /** The path a blob's requests are sent to. */
    function ObjectPath(id: string): string
    {
      Target(id).path
    }

    /** `_send_signed(method, blob_id, payload)` at instant `at`. */
    function Request(httpMethod: string, id: string, payload: Bytes, at: DateTime): (r: SignedRequest)
      ensures r.wire.path == ObjectPath(id)
      ensures r.wire.verb == (if httpMethod == "PUT" then PUT else GET)
      ensures r.wire.body == (if httpMethod == "PUT" then payload else [])
    {
      var url := Target(id);
      var params := if url.query == "" then [] else parseQsl(url.query);
      SignRequest(crypto, creds, httpMethod, url, params, payload, at)
    }

    function Contents(id: string): Option<Bytes>
      reads this
    {
      if ObjectPath(id) in bucket then Some(bucket[ObjectPath(id)]) else None
    }

    /** `save`: a signed PUT of the data; any reply but 2xx raises. */
    method Save(id: string, data: Bytes, env: Env) returns (r: Call<()>)
      modifies this
      ensures r == SaveOutcome(env.reply)
      ensures r.Returned? ==> bucket == old(bucket)[ObjectPath(id) := data]
      ensures r.Raised? ==> bucket == old(bucket)
    {
      var w := Request("PUT", id, data, env.at).wire;
      SaveSendsPut(id, data, env.at, env.reply);
      bucket := ServerApply(bucket, w, env.reply);
      return SaveOutcome(env.reply);
    }

    /** The PUT `save` sends stores the data under the blob's path exactly when the endpoint accepts it. */
    lemma SaveSendsPut(id: string, data: Bytes, at: DateTime, reply: Reply)
      ensures ServerApply(bucket, Request("PUT", id, data, at).wire, reply)
           == if SaveOutcome(reply).Returned? then bucket[ObjectPath(id) := data] else bucket
    {
      PutStores(bucket, Request("PUT", id, data, at).wire, reply);
    }

    /** `get`: a signed GET; the body on 200. */
    function Get(id: string, env: Env): (r: Call<Option<Bytes>>)
    {
      GetOutcome(env.reply)
    }

    /**
      `delete`: signed as "DELETE" but transmitted as a GET, so the endpoint
      removes nothing; the answer is whether that GET succeeded.
    */
    method Delete(id: string, env: Env) returns (r: Call<bool>)
      modifies this
      ensures r == DeleteOutcome(env.reply)
      ensures bucket == old(bucket)
    {
      var w := Request("DELETE", id, [], env.at).wire;
      DeleteRemovesNothing(id, env.at, env.reply);
      bucket := ServerApply(bucket, w, env.reply);
      return DeleteOutcome(env.reply);
    }

    /** A delete never removes an object, whatever the endpoint answers. */
    lemma DeleteRemovesNothing(id: string, at: DateTime, reply: Reply)
      ensures ServerApply(bucket, Request("DELETE", id, [], at).wire, reply) == bucket
    {
    }

    /**
      Against an endpoint that answers from its bucket, `get` returns the
      object the bucket holds for the blob's path, and `None` when it holds none.
    */
    lemma GetFromHonestEndpoint(id: string, at: DateTime)
      ensures var w := Request("GET", id, [], at).wire;
        Get(id, Env(false, Answer(bucket, w.verb, w.path), at)) == Returned(Contents(id))
    {
    }

    /**
      Against such an endpoint, `delete` answers `True` exactly when the
      object exists (the GET it sends finds it) and the object stays.
    */
    lemma DeleteFromHonestEndpoint(id: string, at: DateTime)
      ensures var w := Request("DELETE", id, [], at).wire;
        var reply := Answer(bucket, w.verb, w.path);
        && DeleteOutcome(reply) == Returned(Contents(id).Some?)
        && ServerApply(bucket, w, reply) == bucket
    {
    }

    /**
      Against an endpoint that checks signatures, `delete` is refused with
      403 and answers `False`, whether or not the object exists, and the
      object stays: the GET it sends was signed as a DELETE.
    */
    lemma DeleteAgainstCheckingEndpoint(id: string, at: DateTime)
      ensures var r := Request("DELETE", id, [], at);
        && CheckedAnswer(bucket, r) == Response(403, [])
        && DeleteOutcome(CheckedAnswer(bucket, r)) == Returned(false)
        && ServerApply(bucket, r.wire, CheckedAnswer(bucket, r)) == bucket
    {
      var url := Target(id);
      DeleteFailsVerification(crypto, creds, url, if url.query == "" then [] else parseQsl(url.query), at);
    }

    /** Against such an endpoint, `get` of a blob whose URL has no query returns the stored object or `None`. */
    lemma GetAgainstCheckingEndpoint(id: string, at: DateTime)
      requires Target(id).query == ""
      ensures Get(id, Env(false, CheckedAnswer(bucket, Request("GET", id, [], at)), at)) == Returned(Contents(id))
    {
      UnqueriedRequestVerifies(crypto, creds, "GET", Target(id), [], [], at);
    }

    /** Against such an endpoint, `save` of a blob whose URL has no query succeeds and stores the data. */
    lemma SaveAgainstCheckingEndpoint(id: string, data: Bytes, at: DateTime)
      requires Target(id).query == ""
      ensures var r := Request("PUT", id, data, at);
        && SaveOutcome(CheckedAnswer(bucket, r)) == Returned(())
        && ServerApply(bucket, r.wire, CheckedAnswer(bucket, r)) == bucket[ObjectPath(id) := data]
    {
      UnqueriedRequestVerifies(crypto, creds, "PUT", Target(id), [], data, at);
    }

    /**
      A blob id that puts a query into the URL (a `?` followed by pairs) is
      refused on every request by such an endpoint: the query is signed but
      not sent.
    */
    lemma QueryRefusedByCheckingEndpoint(httpMethod: string, id: string, payload: Bytes, at: DateTime)
      requires Target(id).query != "" && |parseQsl(Target(id).query)| > 0
      requires '\n' !in httpMethod && '\n' !in Target(id).netloc
      ensures CheckedAnswer(bucket, Request(httpMethod, id, payload, at)) == Response(403, [])
    {
      QueryFailsVerification(crypto, creds, httpMethod, Target(id), parseQsl(Target(id).query), payload, at);
    }

    /** A PUT the endpoint accepts is what a later honest GET of the same blob returns. */
    lemma SaveThenGet(id: string, data: Bytes, t: DateTime, u: DateTime)
      ensures var put := Request("PUT", id, data, t).wire;
        var get := Request("GET", id, [], u).wire;
        var after := ServerApply(bucket, put, Answer(bucket, put.verb, put.path));
        GetOutcome(Answer(after, get.verb, get.path)) == Returned(Some(data))
    {
    }
  }
}
