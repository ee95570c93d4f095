/**
  AWS Signature Version 4 as the S3 backend computes it for every request
  (storage.py, `_sign`, `_get_signature_key`, `_send_signed`): the timestamp
  strings, the canonical URI, query string and header block, the canonical
  request, the credential scope, the string to sign, the four-step HMAC
  key chain, the `Authorization` header, and the request that is actually
  transmitted. SHA-256 and HMAC-SHA256 are inputs (`Crypto`); so are the
  parsed URL and the parsed query pairs.
*/
module SigV4 {
  import opened Results
  import opened Text
  import opened PairSort

  // ---------------------------------------------------------------------
  // Primitives taken as inputs
  // ---------------------------------------------------------------------

  /** A SHA-256 digest: 32 bytes. */
  type Digest = d: Bytes | |d| == 32 witness seq(32, _ => 0)

  /** `hashlib.sha256(m).digest()` and `hmac.new(key, m, hashlib.sha256).digest()`. */
  datatype Crypto = Crypto(sha256: Bytes -> Digest, hmacSha256: (Bytes, Bytes) -> Digest)

  /** The fields of `urllib.parse.urlparse(url)` that the signer reads. */
  datatype Url = Url(scheme: string, netloc: string, path: string, query: string)

  /** The S3 backend's account settings; the service name is always "s3". */
  datatype Credentials = Credentials(accessKey: string, secretKey: string, region: string)

  const Algorithm: string := "AWS4-HMAC-SHA256"
  const Service: string := "s3"
  const Terminator: string := "aws4_request"
  const SignedHeaders: string := "host;x-amz-content-sha256;x-amz-date"

  // ---------------------------------------------------------------------
  // Timestamp: the instant `datetime.utcnow()` returns, and its strftime forms
  // ---------------------------------------------------------------------

  datatype DateTime = DateTime(year: nat, month: nat, day: nat, hour: nat, minute: nat, second: nat)
  {
    /** The instants Python's `datetime` can represent (microseconds are not formatted and are left out). */
    predicate Valid()
    {
      1 <= year <= 9999 && 1 <= month <= 12 && 1 <= day <= DaysInMonth(year, month)
      && 0 <= hour < 24 && 0 <= minute < 60 && 0 <= second < 60
    }
  }

  predicate LeapYear(y: int)
  {
    y % 4 == 0 && (y % 100 != 0 || y % 400 == 0)
  }

  function DaysInMonth(y: int, m: int): int
  {
    if m == 2 then (if LeapYear(y) then 29 else 28)
    else if m == 4 || m == 6 || m == 9 || m == 11 then 30
    else 31
  }

  /** `t.strftime("%Y%m%d")`. */
  function DateStamp(t: DateTime): (r: string)
    ensures |r| == 8 && AllDigits(r)
  {
    PadDigits(t.year, 4) + PadDigits(t.month, 2) + PadDigits(t.day, 2)
  }

  /** `t.strftime("%Y%m%dT%H%M%SZ")`: its first eight characters are the date stamp of the same instant. */
  function AmzDate(t: DateTime): (r: string)
    ensures AmzDateShape(r)
    ensures r[..8] == DateStamp(t)
  {
    var time := PadDigits(t.hour, 2) + PadDigits(t.minute, 2) + PadDigits(t.second, 2);
    var r := DateStamp(t) + "T" + time + "Z";
    assert r[..8] == DateStamp(t) && r[9..15] == time;
    r
  }

  /** The form `YYYYMMDDTHHMMSSZ`: sixteen characters, digits except for `T` and `Z`. */
  predicate AmzDateShape(s: string)
  {
    |s| == 16 && s[8] == 'T' && s[15] == 'Z' && forall i :: 0 <= i < 16 && i != 8 && i != 15 ==> IsDigit(s[i])
  }

  /** Reads a `YYYYMMDDTHHMMSSZ` string back into an instant. */
  function ParseAmzDate(s: string): Option<DateTime>
  {
    if AmzDateShape(s) then
      assert AllDigits(s[..4]) && AllDigits(s[4..6]) && AllDigits(s[6..8]);
      assert AllDigits(s[9..11]) && AllDigits(s[11..13]) && AllDigits(s[13..15]);
      Some(DateTime(ParseDigits(s[..4]), ParseDigits(s[4..6]), ParseDigits(s[6..8]),
                    ParseDigits(s[9..11]), ParseDigits(s[11..13]), ParseDigits(s[13..15])))
    else None
  }

  /** `amz_date` loses nothing: the instant it was formatted from is read back. */
  lemma AmzDateRoundTrip(t: DateTime)
    requires t.Valid()
    ensures ParseAmzDate(AmzDate(t)) == Some(t)
  {
    var s := AmzDate(t);
    assert s[..4] == PadDigits(t.year, 4) && s[4..6] == PadDigits(t.month, 2) && s[6..8] == PadDigits(t.day, 2);
    assert s[9..11] == PadDigits(t.hour, 2) && s[11..13] == PadDigits(t.minute, 2) && s[13..15] == PadDigits(t.second, 2);
    assert Pow10(2) == 100 && Pow10(4) == 10000;
    ParsePadDigits(t.year, 4);
    ParsePadDigits(t.month, 2);
    ParsePadDigits(t.day, 2);
    ParsePadDigits(t.hour, 2);
    ParsePadDigits(t.minute, 2);
    ParsePadDigits(t.second, 2);
  }

  /** Different instants give different `amz_date` strings. */
  lemma AmzDateInjective(t: DateTime, u: DateTime)
    requires t.Valid() && u.Valid()
    requires AmzDate(t) == AmzDate(u)
    ensures t == u
  {
    AmzDateRoundTrip(t);
    AmzDateRoundTrip(u);
  }

  // ---------------------------------------------------------------------
  // Canonical request
  // ---------------------------------------------------------------------

  /** `hashlib.sha256(payload).hexdigest()`: 64 lower-case hexadecimal digits. */
  function PayloadHash(c: Crypto, payload: Bytes): (r: string)
    ensures |r| == 64
    ensures forall i :: 0 <= i < |r| ==> IsLowerHexDigit(r[i])
  {
    HexLower(c.sha256(payload))
  }

  /** `quote(parsed.path or "/", safe='/-_.~')`: decodes back to the UTF-8 of the path, and a path of unreserved characters and `/` is kept as it is. */
  function CanonicalUri(path: string): (r: string)
    ensures forall i :: 0 <= i < |r| ==> QuotedChar(r[i], true)
    ensures PercentDecode(r) == Some(Utf8(if path == "" then "/" else path))
    ensures AllKept(path, true) ==> r == (if path == "" then "/" else path)
  {
    var p := if path == "" then "/" else path;
    QuoteRoundTrip(p, true);
    assert AllKept(path, true) ==> AllKept(p, true);
    QuoteKeepsLiterals(p, true);
    Quote(p, true)
  }

  /** One query parameter as `f"{quote(k, safe='~')}={quote(v, safe='~')}"`. */
  function EncodePair(p: Pair): (r: string)
    ensures '&' !in r && '\n' !in r
  {
    var k, v := Quote(p.0, false), Quote(p.1, false);
    QuoteAvoids(p.0, '&');
    QuoteAvoids(p.1, '&');
    QuoteAvoids(p.0, '\n');
    QuoteAvoids(p.1, '\n');
    k + "=" + v
  }

  /** A character `quote(..., safe='~')` never writes is absent from its output. */
  lemma QuoteAvoids(s: string, c: char)
    requires !QuotedChar(c, false)
    ensures c !in Quote(s, false)
  {
    var q := Quote(s, false);
    assert forall i :: 0 <= i < |q| ==> QuotedChar(q[i], false);
  }

  function EncodePairs(ps: seq<Pair>): (r: seq<string>)
    ensures |r| == |ps|
    ensures forall i :: 0 <= i < |ps| ==> r[i] == EncodePair(ps[i])
  {
    seq(|ps|, i requires 0 <= i < |ps| => EncodePair(ps[i]))
  }

  /** The canonical query string: empty when the URL has no query, otherwise the parsed pairs, sorted, encoded and joined with `&`. */
  function CanonicalQuery(query: string, params: seq<Pair>): (r: string)
    ensures query == "" ==> r == ""
    ensures '\n' !in r
  {
    if query == "" then ""
    else
      JoinAvoids(EncodePairs(Sort(params)), '&', '\n');
      Join(EncodePairs(Sort(params)), '&')
  }

  /** The decoder a server applies to a canonical query string: split on `&`, then on `=`, then percent-decode. */
  function DecodeQuery(cq: string): Option<seq<(Bytes, Bytes)>>
  {
    DecodeFields(Split(cq, '&'))
  }

  function DecodeFields(fields: seq<string>): Option<seq<(Bytes, Bytes)>>
  {
    if |fields| == 0 then Some([])
    else
      var kv := Split(fields[0], '=');
      if |kv| != 2 then None
      else
        match (PercentDecode(kv[0]), PercentDecode(kv[1]), DecodeFields(fields[1..]))
        case (Some(k), Some(v), Some(rest)) => Some([(k, v)] + rest)
        case _ => None
  }

  /** The UTF-8 bytes of each key and value. */
  function Utf8Pairs(ps: seq<Pair>): (r: seq<(Bytes, Bytes)>)
    ensures |r| == |ps|
  {
    if |ps| == 0 then [] else [(Utf8(ps[0].0), Utf8(ps[0].1))] + Utf8Pairs(ps[1..])
  }

  lemma {:induction false} DecodeEncodedPairs(ps: seq<Pair>)
    ensures DecodeFields(EncodePairs(ps)) == Some(Utf8Pairs(ps))
  {
    if |ps| > 0 {
      DecodeEncodedPair(ps[0]);
      assert EncodePairs(ps)[1..] == EncodePairs(ps[1..]);
      DecodeEncodedPairs(ps[1..]);
    }
  }

  /** One encoded pair splits on its `=` into the quoted key and value, which decode to their UTF-8 bytes. */
  lemma DecodeEncodedPair(p: Pair)
    ensures var kv := Split(EncodePair(p), '=');
      && |kv| == 2
      && PercentDecode(kv[0]) == Some(Utf8(p.0))
      && PercentDecode(kv[1]) == Some(Utf8(p.1))
  {
    var k, v := Quote(p.0, false), Quote(p.1, false);
    QuoteAvoids(p.0, '=');
    QuoteAvoids(p.1, '=');
    SplitJoin([k, v], '=');
    assert Join([k, v], '=') == EncodePair(p);
    QuoteRoundTrip(p.0, false);
    QuoteRoundTrip(p.1, false);
  }

  /** The canonical query string is decodable: a server recovers exactly the sorted pairs, as UTF-8 bytes. */
  lemma CanonicalQueryDecodes(query: string, params: seq<Pair>)
    requires query != "" && |params| > 0
    ensures DecodeQuery(CanonicalQuery(query, params)) == Some(Utf8Pairs(Sort(params)))
  {
    var sorted := Sort(params);
    assert |multiset(sorted)| == |params|;
    var fields := EncodePairs(sorted);
    SplitJoin(fields, '&');
    DecodeEncodedPairs(sorted);
  }

  /** A query with at least one pair has a non-empty canonical query string. */
  lemma CanonicalQueryNonEmpty(query: string, params: seq<Pair>)
    requires query != "" && |params| > 0
    ensures CanonicalQuery(query, params) != ""
  {
    CanonicalQueryDecodes(query, params);
    assert Split("", '&') == [""];
    assert Split("", '=') == [""];
    assert DecodeQuery("") == None;
  }

  /** The canonical query string does not depend on the order the pairs were given in. */
  lemma CanonicalQueryOrderFree(query: string, ps: seq<Pair>, qs: seq<Pair>)
    requires multiset(ps) == multiset(qs)
    ensures CanonicalQuery(query, ps) == CanonicalQuery(query, qs)
  {
    SortedUnique(Sort(ps), Sort(qs));
  }

  lemma {:induction false} JoinAvoids(parts: seq<string>, sep: char, c: char)
    requires c != sep
    requires forall i :: 0 <= i < |parts| ==> c !in parts[i]
    ensures c !in Join(parts, sep)
  {
    if |parts| > 1 {
      JoinAvoids(parts[1..], sep, c);
    }
  }

  /** The three signed header lines, each ending in a newline. */
  function CanonicalHeaders(host: string, payloadHash: string, amzDate: string): (r: string)
    ensures r == Join(["host:" + host, "x-amz-content-sha256:" + payloadHash, "x-amz-date:" + amzDate, ""], '\n')
  {
    var l1, l2, l3 := "host:" + host, "x-amz-content-sha256:" + payloadHash, "x-amz-date:" + amzDate;
    HeaderBlockJoin(l1, l2, l3);
    l1 + "\n" + l2 + "\n" + l3 + "\n"
  }

  /** The canonical request: method, URI, query, header block, signed headers and payload hash joined with newlines. */
  function CanonicalRequest(httpMethod: string, uri: string, query: string, headers: string, payloadHash: string): (r: string)
    ensures '\n' !in httpMethod ==> Split(r, '\n')[0] == httpMethod
  {
    var rest := [uri, query, headers, SignedHeaders, payloadHash];
    assert [httpMethod] + rest == [httpMethod, uri, query, headers, SignedHeaders, payloadHash];
    FirstLine(httpMethod, rest, '\n');
    Join([httpMethod] + rest, '\n')
  }

  /** A header block of three newline-terminated lines is the join of those lines and an empty one. */
  lemma HeaderBlockJoin(l1: string, l2: string, l3: string)
    ensures l1 + "\n" + l2 + "\n" + l3 + "\n" == Join([l1, l2, l3, ""], '\n')
  {
    JoinAppend([l1], [l2, l3, ""], '\n');
    JoinAppend([l2], [l3, ""], '\n');
    JoinAppend([l3], [""], '\n');
    assert [l1] + [l2, l3, ""] == [l1, l2, l3, ""];
    assert [l2] + [l3, ""] == [l2, l3, ""];
    assert [l3] + [""] == [l3, ""];
  }

  /** Joining six parts whose fourth is a header block is joining nine lines. */
  lemma RequestJoin(m: string, uri: string, query: string, l1: string, l2: string, l3: string, sh: string, hash: string)
    ensures Join([m, uri, query, l1 + "\n" + l2 + "\n" + l3 + "\n", sh, hash], '\n')
         == Join([m, uri, query, l1, l2, l3, "", sh, hash], '\n')
  {
    var block := l1 + "\n" + l2 + "\n" + l3 + "\n";
    HeaderBlockJoin(l1, l2, l3);
    var front, back := [m, uri, query], [sh, hash];
    assert [m, uri, query, block, sh, hash] == front + ([block] + back);
    assert [m, uri, query, l1, l2, l3, "", sh, hash] == front + ([l1, l2, l3, ""] + back);
    JoinAppend(front, [block] + back, '\n');
    JoinAppend([block], back, '\n');
    JoinAppend(front, [l1, l2, l3, ""] + back, '\n');
    JoinAppend([l1, l2, l3, ""], back, '\n');
  }

  /**
    Read line by line, the canonical request is the method, URI, query, the three header lines,
    an empty line (the header block's own final newline), the signed header names and the payload
    hash, as long as none of the values holds a newline.
  */
  lemma CanonicalRequestLines(m: string, uri: string, query: string, host: string, hash: string, amz: string)
    requires '\n' !in m && '\n' !in uri && '\n' !in query && '\n' !in host && '\n' !in hash && '\n' !in amz
    ensures Split(CanonicalRequest(m, uri, query, CanonicalHeaders(host, hash, amz), hash), '\n')
         == [m, uri, query, "host:" + host, "x-amz-content-sha256:" + hash, "x-amz-date:" + amz, "", SignedHeaders, hash]
  {
    var l1, l2, l3 := "host:" + host, "x-amz-content-sha256:" + hash, "x-amz-date:" + amz;
    assert CanonicalHeaders(host, hash, amz) == l1 + "\n" + l2 + "\n" + l3 + "\n";
    assert '\n' !in l1 && '\n' !in l2 && '\n' !in l3 && '\n' !in SignedHeaders;
    RequestLines(m, uri, query, l1, l2, l3, SignedHeaders, hash);
  }

  /** The newline split of a request whose fields hold no newline gives back its nine lines. */
  lemma RequestLines(m: string, uri: string, query: string, l1: string, l2: string, l3: string, sh: string, hash: string)
    requires '\n' !in m && '\n' !in uri && '\n' !in query && '\n' !in l1 && '\n' !in l2
    requires '\n' !in l3 && '\n' !in sh && '\n' !in hash
    ensures Split(Join([m, uri, query, l1 + "\n" + l2 + "\n" + l3 + "\n", sh, hash], '\n'), '\n')
         == [m, uri, query, l1, l2, l3, "", sh, hash]
  {
    RequestJoin(m, uri, query, l1, l2, l3, sh, hash);
    SplitJoin([m, uri, query, l1, l2, l3, "", sh, hash], '\n');
  }

  /** Parts without the separator come back from their join one by one. */
  lemma SplitFields(parts: seq<string>, sep: char)
    requires |parts| > 0
    ensures SeparatorFree(parts, sep) ==> Split(Join(parts, sep), sep) == parts
  {
    if SeparatorFree(parts, sep) {
      SplitJoin(parts, sep);
    }
  }

  // ---------------------------------------------------------------------
  // Scope, string to sign, key chain, signature, Authorization
  // ---------------------------------------------------------------------

  /** `f"{date_stamp}/{region}/{service}/aws4_request"`. */
  function CredentialScope(dateStamp: string, region: string): (r: string)
    ensures '/' !in dateStamp && '/' !in region ==> Split(r, '/') == [dateStamp, region, Service, Terminator]
  {
    ScopeJoin(dateStamp, region, Service, Terminator);
    SplitFields([dateStamp, region, Service, Terminator], '/');
    dateStamp + "/" + region + "/" + Service + "/" + Terminator
  }

  /** The scope is the join of its four components with `/`. */
  lemma ScopeJoin(ds: string, region: string, service: string, terminator: string)
    ensures ds + "/" + region + "/" + service + "/" + terminator == Join([ds, region, service, terminator], '/')
  {
    JoinAppend([ds], [region, service, terminator], '/');
    JoinAppend([region], [service, terminator], '/');
    JoinAppend([service], [terminator], '/');
    assert [ds] + [region, service, terminator] == [ds, region, service, terminator];
    assert [region] + [service, terminator] == [region, service, terminator];
    assert [service] + [terminator] == [service, terminator];
  }

  /** The scope splits into its four components when the region holds no `/`. */
  lemma CredentialScopeFields(t: DateTime, region: string)
    requires '/' !in region
    ensures Split(CredentialScope(DateStamp(t), region), '/') == [DateStamp(t), region, Service, Terminator]
  {
    var ds := DateStamp(t);
    assert forall i :: 0 <= i < |ds| ==> IsDigit(ds[i]);
  }

  /** The string to sign: algorithm, `amz_date`, scope and the hex SHA-256 of the canonical request, joined with newlines. */
  function StringToSign(c: Crypto, amzDate: string, scope: string, canonicalRequest: string): (r: string)
    ensures '\n' !in amzDate && '\n' !in scope
            ==> Split(r, '\n') == [Algorithm, amzDate, scope, HexLower(c.sha256(Utf8(canonicalRequest)))]
  {
    var lines := [Algorithm, amzDate, scope, HexLower(c.sha256(Utf8(canonicalRequest)))];
    NoNewlineInHex(c.sha256(Utf8(canonicalRequest)));
    SplitFields(lines, '\n');
    Join(lines, '\n')
  }

  /** `_sign(key, msg)`: HMAC-SHA256 of the UTF-8 message under the key. */
  function Sign(c: Crypto, key: Bytes, msg: string): Digest
  {
    c.hmacSha256(key, Utf8(msg))
  }

  /** `_get_signature_key`: four chained HMACs, each output keying the next. */
  function SigningKey(c: Crypto, secretKey: string, dateStamp: string, region: string, service: string): (r: Digest)
    ensures r == ChainKey(c, Utf8("AWS4" + secretKey), [dateStamp, region, service, Terminator])
  {
    var k0 := Utf8("AWS4" + secretKey);
    var kDate := Sign(c, k0, dateStamp);
    var kRegion := Sign(c, kDate, region);
    var kService := Sign(c, kRegion, service);
    var kSigning := Sign(c, kService, Terminator);
    assert ChainKey(c, kSigning, []) == kSigning;
    assert [Terminator][1..] == [];
    assert ChainKey(c, kService, [Terminator]) == kSigning;
    assert [service, Terminator][1..] == [Terminator];
    assert ChainKey(c, kRegion, [service, Terminator]) == kSigning;
    assert [region, service, Terminator][1..] == [service, Terminator];
    assert ChainKey(c, kDate, [region, service, Terminator]) == kSigning;
    assert [dateStamp, region, service, Terminator][1..] == [region, service, Terminator];
    kSigning
  }

  /** HMAC-chaining a list of messages, each output keying the next. */
  function ChainKey(c: Crypto, key: Bytes, msgs: seq<string>): Bytes
    decreases |msgs|
  {
    if |msgs| == 0 then key else ChainKey(c, Sign(c, key, msgs[0]), msgs[1..])
  }

  /** The signing key is the secret chained through the components of the credential scope, in order. */
  lemma SigningKeyFollowsScope(c: Crypto, secretKey: string, t: DateTime, region: string)
    requires '/' !in region
    ensures SigningKey(c, secretKey, DateStamp(t), region, Service)
         == ChainKey(c, Utf8("AWS4" + secretKey), Split(CredentialScope(DateStamp(t), region), '/'))
  {
    CredentialScopeFields(t, region);
  }

  /** `hmac.new(signing_key, string_to_sign.encode("utf-8"), hashlib.sha256).hexdigest()`. */
  function Signature(c: Crypto, signingKey: Bytes, stringToSign: string): (r: string)
    ensures |r| == 64
    ensures forall i :: 0 <= i < |r| ==> IsLowerHexDigit(r[i])
  {
    HexLower(Sign(c, signingKey, stringToSign))
  }

  const AuthorizationPrefix: string := Algorithm + " Credential="
  const AuthorizationMiddle: string := ", SignedHeaders=" + SignedHeaders + ", Signature="

  /** `f"{algorithm} Credential={access_key}/{credential_scope}, SignedHeaders={signed_headers}, Signature={signature}"`. */
  function AuthorizationHeader(accessKey: string, scope: string, signature: string): (r: string)
    ensures |signature| == 64 ==> ParseAuthorization(r) == Some((accessKey + "/" + scope, signature))
  {
    var cred := accessKey + "/" + scope;
    var h := AuthorizationPrefix + cred + AuthorizationMiddle + signature;
    CredentialSignatureParse(cred, signature);
    h
  }

  /** A header of the prefix, a credential, the fixed middle and a 64-digit signature parses back into the credential and the signature. */
  lemma CredentialSignatureParse(cred: string, signature: string)
    ensures |signature| == 64
            ==> ParseAuthorization(AuthorizationPrefix + cred + AuthorizationMiddle + signature) == Some((cred, signature))
  {
    Slices(AuthorizationPrefix, cred, AuthorizationMiddle, signature);
  }

  /** What a server reads from an `Authorization` value with a 64-digit signature: the credential (access key and scope) and the signature. */
  function ParseAuthorization(h: string): Option<(string, string)>
  {
    var tail := |AuthorizationMiddle| + 64;
    if |h| >= |AuthorizationPrefix| + tail && h[..|AuthorizationPrefix|] == AuthorizationPrefix
       && h[|h| - tail..|h| - 64] == AuthorizationMiddle
    then Some((h[|AuthorizationPrefix|..|h| - tail], h[|h| - 64..]))
    else None
  }

  lemma Slices(a: string, b: string, c: string, d: string)
    ensures var s := a + b + c + d;
      && s[..|a|] == a && s[|a|..|s| - |c| - |d|] == b
      && s[|s| - |c| - |d|..|s| - |d|] == c && s[|s| - |d|..] == d
  {
  }

  /** The credential splits into the access key and the four scope components when neither key nor region holds a `/`. */
  lemma CredentialFields(accessKey: string, t: DateTime, region: string)
    requires '/' !in accessKey && '/' !in region
    ensures Split(accessKey + "/" + CredentialScope(DateStamp(t), region), '/')
         == [accessKey, DateStamp(t), region, Service, Terminator]
  {
    CredentialScopeFields(t, region);
    SplitAfterField(accessKey, '/', CredentialScope(DateStamp(t), region));
  }

  // ---------------------------------------------------------------------
  // The signed request and what is transmitted
  // ---------------------------------------------------------------------

  datatype HttpVerb = PUT | GET | DELETE

  /** The HTTP request httpx sends: verb, URL (scheme, host, raw path), headers and body. */
  datatype Wire = Wire(verb: HttpVerb, scheme: string, host: string, path: string,
                       headers: seq<(string, string)>, body: Bytes)
  {
    function Url(): string { scheme + "://" + host + path }
  }

  /** Everything `_send_signed` computes for one call. */
  datatype SignedRequest = SignedRequest(canonicalRequest: string, stringToSign: string, signature: string,
                                         headers: seq<(string, string)>, wire: Wire)

  /** The value of the first header with this name. */
  function HeaderValue(hs: seq<(string, string)>, name: string): Option<string>
  {
    if |hs| == 0 then None else if hs[0].0 == name then Some(hs[0].1) else HeaderValue(hs[1..], name)
  }

  /** The four headers `_send_signed` sends, in its order. */
  function RequestHeaders(host: string, amzDate: string, payloadHash: string, authorization: string): (hs: seq<(string, string)>)
    ensures HeaderValue(hs, "Host") == Some(host)
    ensures HeaderValue(hs, "x-amz-date") == Some(amzDate)
    ensures HeaderValue(hs, "x-amz-content-sha256") == Some(payloadHash)
    ensures HeaderValue(hs, "Authorization") == Some(authorization)
  {
    var hs := [("Host", host), ("x-amz-date", amzDate), ("x-amz-content-sha256", payloadHash), ("Authorization", authorization)];
    assert hs[1..][1..][1..] == [("Authorization", authorization)];
    assert hs[1..][1..] == [("x-amz-content-sha256", payloadHash), ("Authorization", authorization)];
    assert hs[1..] == [("x-amz-date", amzDate), ("x-amz-content-sha256", payloadHash), ("Authorization", authorization)];
    assert HeaderValue(hs[1..][1..][1..], "Authorization") == Some(authorization);
    assert HeaderValue(hs[1..][1..], "Authorization") == Some(authorization);
    assert HeaderValue(hs[1..], "Authorization") == Some(authorization);
    assert HeaderValue(hs[1..][1..], "x-amz-content-sha256") == Some(payloadHash);
    assert HeaderValue(hs[1..], "x-amz-content-sha256") == Some(payloadHash);
    hs
  }

  /**
    `_send_signed(method, blob_id, payload)` for the parsed URL `url` of `f"{bucket_url}/{blob_id}"`,
    the pairs `params` that `parse_qsl(url.query, keep_blank_values=True)` returns, and the instant `t`.
    Only "PUT" is transmitted as a PUT carrying the payload; every other method is transmitted as a
    GET without a body, to the scheme, host and raw path (the query is not sent).
  */
  function SignRequest(c: Crypto, creds: Credentials, httpMethod: string, url: Url, params: seq<Pair>,
                       payload: Bytes, t: DateTime): (r: SignedRequest)
    ensures r.wire.verb == (if httpMethod == "PUT" then PUT else GET)
    ensures r.wire.verb != DELETE
    ensures r.wire.body == (if httpMethod == "PUT" then payload else [])
    ensures r.wire.Url() == url.scheme + "://" + url.netloc + url.path
    ensures r.wire.scheme == url.scheme && r.wire.host == url.netloc && r.wire.path == url.path
    ensures r.wire.headers == r.headers
  {
    var amzDate := AmzDate(t);
    var dateStamp := DateStamp(t);
    var payloadHash := PayloadHash(c, payload);
    var canonicalRequest := CanonicalRequest(httpMethod, CanonicalUri(url.path), CanonicalQuery(url.query, params),
                                             CanonicalHeaders(url.netloc, payloadHash, amzDate), payloadHash);
    var scope := CredentialScope(dateStamp, creds.region);
    var stringToSign := StringToSign(c, amzDate, scope, canonicalRequest);
    var signature := Signature(c, SigningKey(c, creds.secretKey, dateStamp, creds.region, Service), stringToSign);
    var headers := RequestHeaders(url.netloc, amzDate, payloadHash, AuthorizationHeader(creds.accessKey, scope, signature));
    var wire := if httpMethod == "PUT" then Wire(PUT, url.scheme, url.netloc, url.path, headers, payload)
                else Wire(GET, url.scheme, url.netloc, url.path, headers, []);
    SignedRequest(canonicalRequest, stringToSign, signature, headers, wire)
  }

  lemma NoNewlineInAmzDate(t: DateTime)
    ensures '\n' !in AmzDate(t) && '\n' !in DateStamp(t)
  {
    var a, d := AmzDate(t), DateStamp(t);
    assert forall i :: 0 <= i < |a| ==> a[i] == 'T' || a[i] == 'Z' || IsDigit(a[i]);
    assert forall i :: 0 <= i < |d| ==> IsDigit(d[i]);
  }

  lemma NoNewlineInHex(bs: Bytes)
    ensures '\n' !in HexLower(bs)
  {
    var h := HexLower(bs);
    assert forall i :: 0 <= i < |h| ==> IsLowerHexDigit(h[i]);
  }

  lemma NoNewlineInUri(path: string)
    ensures '\n' !in CanonicalUri(path)
  {
    var uri := CanonicalUri(path);
    assert forall i :: 0 <= i < |uri| ==> QuotedChar(uri[i], true);
  }

  lemma NoNewlineInScope(t: DateTime, region: string)
    requires '\n' !in region
    ensures '\n' !in CredentialScope(DateStamp(t), region)
  {
    NoNewlineInAmzDate(t);
  }

  /**
    The headers sent are the values that were signed: splitting the canonical request into lines
    gives the method, URI, query, the three header lines carrying exactly the sent `Host`,
    `x-amz-content-sha256` and `x-amz-date` values, an empty line, the signed header names and the
    payload hash.
  */
  lemma SignedValuesAreSent(c: Crypto, creds: Credentials, httpMethod: string, url: Url, params: seq<Pair>,
                            payload: Bytes, t: DateTime)
    requires '\n' !in httpMethod && '\n' !in url.netloc
    ensures var r := SignRequest(c, creds, httpMethod, url, params, payload, t);
      && HeaderValue(r.headers, "Host") == Some(url.netloc)
      && HeaderValue(r.headers, "x-amz-date") == Some(AmzDate(t))
      && HeaderValue(r.headers, "x-amz-content-sha256") == Some(PayloadHash(c, payload))
      && Split(r.canonicalRequest, '\n')
         == [httpMethod, CanonicalUri(url.path), CanonicalQuery(url.query, params),
             "host:" + url.netloc, "x-amz-content-sha256:" + PayloadHash(c, payload),
             "x-amz-date:" + AmzDate(t), "", SignedHeaders, PayloadHash(c, payload)]
  {
    var hash := PayloadHash(c, payload);
    NoNewlineInUri(url.path);
    NoNewlineInHex(c.sha256(payload));
    NoNewlineInAmzDate(t);
    CanonicalRequestLines(httpMethod, CanonicalUri(url.path), CanonicalQuery(url.query, params), url.netloc, hash, AmzDate(t));
  }

  /** The string to sign carries the sent `x-amz-date`, the credential scope and the hash of the canonical request. */
  lemma SignedStringIsBound(c: Crypto, creds: Credentials, httpMethod: string, url: Url, params: seq<Pair>,
                            payload: Bytes, t: DateTime)
    requires '\n' !in creds.region
    ensures var r := SignRequest(c, creds, httpMethod, url, params, payload, t);
      Split(r.stringToSign, '\n')
      == [Algorithm, AmzDate(t), CredentialScope(DateStamp(t), creds.region), HexLower(c.sha256(Utf8(r.canonicalRequest)))]
  {
    var r := SignRequest(c, creds, httpMethod, url, params, payload, t);
    NoNewlineInAmzDate(t);
    NoNewlineInScope(t, creds.region);
  }

  /** The first line of a join is its first part when that part holds no separator. */
  lemma FirstLine(x: string, rest: seq<string>, sep: char)
    requires |rest| >= 1
    ensures sep !in x ==> Split(Join([x] + rest, sep), sep)[0] == x
  {
    if sep !in x {
      JoinAppend([x], rest, sep);
      SplitAfterField(x, sep, Join(rest, sep));
    }
  }

  /** The first line of the canonical request is the method that was asked for. */
  lemma SignedMethod(c: Crypto, creds: Credentials, httpMethod: string, url: Url, params: seq<Pair>,
                     payload: Bytes, t: DateTime)
    requires '\n' !in httpMethod
    ensures Split(SignRequest(c, creds, httpMethod, url, params, payload, t).canonicalRequest, '\n')[0] == httpMethod
  {
  }

  /** A DELETE is signed as "DELETE" but transmitted as a bodiless GET. */
  lemma DeleteIsSentAsGet(c: Crypto, creds: Credentials, url: Url, params: seq<Pair>, t: DateTime)
    ensures var r := SignRequest(c, creds, "DELETE", url, params, [], t);
      && Split(r.canonicalRequest, '\n')[0] == "DELETE"
      && r.wire.verb == GET && r.wire.body == []
  {
    SignedMethod(c, creds, "DELETE", url, params, [], t);
  }

  /**
    The query is signed but not sent: a URL with a query is transmitted exactly like the same URL
    without it, while its canonical request carries a non-empty canonical query string.
  */
  lemma QueryIsSignedButNotSent(c: Crypto, creds: Credentials, httpMethod: string, url: Url, params: seq<Pair>,
                                payload: Bytes, t: DateTime)
    requires url.query != "" && |params| > 0
    ensures var withQuery := SignRequest(c, creds, httpMethod, url, params, payload, t);
            var without := SignRequest(c, creds, httpMethod, url.(query := ""), [], payload, t);
      && withQuery.wire.Url() == without.wire.Url()
      && withQuery.wire.verb == without.wire.verb
      && withQuery.wire.body == without.wire.body
      && CanonicalQuery(url.query, params) != ""
      && CanonicalQuery("", []) == ""
  {
    CanonicalQueryNonEmpty(url.query, params);
  }

  /** The `Authorization` header's signature is the HMAC of the string to sign under the key chained through its scope. */
  lemma AuthorizationCarriesSignature(c: Crypto, creds: Credentials, httpMethod: string, url: Url, params: seq<Pair>,
                                      payload: Bytes, t: DateTime)
    requires '/' !in creds.region
    ensures var r := SignRequest(c, creds, httpMethod, url, params, payload, t);
            var scope := CredentialScope(DateStamp(t), creds.region);
      && HeaderValue(r.headers, "Authorization") == Some(AuthorizationHeader(creds.accessKey, scope, r.signature))
      && ParseAuthorization(AuthorizationHeader(creds.accessKey, scope, r.signature))
         == Some((creds.accessKey + "/" + scope, r.signature))
      && r.signature
         == HexLower(c.hmacSha256(ChainKey(c, Utf8("AWS4" + creds.secretKey), Split(scope, '/')), Utf8(r.stringToSign)))
  {
    var r := SignRequest(c, creds, httpMethod, url, params, payload, t);
    SigningKeyFollowsScope(c, creds.secretKey, t, creds.region);
  }

  // ---------------------------------------------------------------------
  // What a server that checks signatures sees
  // ---------------------------------------------------------------------

  /** The method name a verb is transmitted as. */
  function VerbName(v: HttpVerb): string
  {
    match v
    case PUT => "PUT"
    case GET => "GET"
    case DELETE => "DELETE"
  }

  /**
    The canonical request a server that checks signatures rebuilds from the
    request it receives: the method it was sent with, the received path, the
    received query (the transmitted URL carries none) and the three signed
    headers as received; `None` when one of those headers is missing.
  */
  function ReceivedCanonicalRequest(w: Wire): Option<string>
  {
    match (HeaderValue(w.headers, "Host"), HeaderValue(w.headers, "x-amz-content-sha256"), HeaderValue(w.headers, "x-amz-date"))
    case (Some(host), Some(hash), Some(amz)) =>
      Some(CanonicalRequest(VerbName(w.verb), CanonicalUri(w.path), CanonicalQuery("", []), CanonicalHeaders(host, hash, amz), hash))
    case _ => None
  }

  /**
    The signature such a server, holding the same credentials, computes over
    what it received, with the scope taken from the received `x-amz-date`.
  */
  function ServerSignature(c: Crypto, creds: Credentials, w: Wire): Option<string>
  {
    match (ReceivedCanonicalRequest(w), HeaderValue(w.headers, "x-amz-date"))
    case (Some(cr), Some(amz)) =>
      if |amz| < 8 then None
      else
        var scope := CredentialScope(amz[..8], creds.region);
        Some(Signature(c, SigningKey(c, creds.secretKey, amz[..8], creds.region, Service), StringToSign(c, amz, scope, cr)))
    case _ => None
  }

  /** The parts `_send_signed` assembles: the canonical request from its six components and the transmitted request with the four headers. */
  lemma SignRequestParts(c: Crypto, creds: Credentials, httpMethod: string, url: Url, params: seq<Pair>,
                         payload: Bytes, t: DateTime)
    ensures var r := SignRequest(c, creds, httpMethod, url, params, payload, t);
            var hash := PayloadHash(c, payload);
      && r.canonicalRequest == CanonicalRequest(httpMethod, CanonicalUri(url.path), CanonicalQuery(url.query, params),
                                                CanonicalHeaders(url.netloc, hash, AmzDate(t)), hash)
      && r.wire.headers == RequestHeaders(url.netloc, AmzDate(t), hash,
                                          AuthorizationHeader(creds.accessKey, CredentialScope(DateStamp(t), creds.region), r.signature))
      && r.stringToSign == StringToSign(c, AmzDate(t), CredentialScope(DateStamp(t), creds.region), r.canonicalRequest)
      && r.signature == Signature(c, SigningKey(c, creds.secretKey, DateStamp(t), creds.region, Service), r.stringToSign)
  {
  }

  /** What the server rebuilds and computes from a request carrying the four headers `_send_signed` sets. */
  lemma ReceivedFromHeaders(c: Crypto, creds: Credentials, w: Wire, host: string, amzDate: string, hash: string,
                            authorization: string)
    requires w.headers == RequestHeaders(host, amzDate, hash, authorization)
    ensures ReceivedCanonicalRequest(w)
         == Some(CanonicalRequest(VerbName(w.verb), CanonicalUri(w.path), "", CanonicalHeaders(host, hash, amzDate), hash))
    ensures |amzDate| >= 8 ==>
      ServerSignature(c, creds, w)
      == Some(Signature(c, SigningKey(c, creds.secretKey, amzDate[..8], creds.region, Service),
                        StringToSign(c, amzDate, CredentialScope(amzDate[..8], creds.region), ReceivedCanonicalRequest(w).value)))
  {
  }

  /** Canonical requests with different first lines differ. */
  lemma MethodLineDiffers(m1: string, u1: string, q1: string, h1: string, p1: string,
                          m2: string, u2: string, q2: string, h2: string, p2: string)
    requires '\n' !in m1 && '\n' !in m2 && m1 != m2
    ensures CanonicalRequest(m1, u1, q1, h1, p1) != CanonicalRequest(m2, u2, q2, h2, p2)
  {
    assert Split(CanonicalRequest(m1, u1, q1, h1, p1), '\n')[0] == m1;
    assert Split(CanonicalRequest(m2, u2, q2, h2, p2), '\n')[0] == m2;
  }

  /** Canonical requests with different query lines differ. */
  lemma QueryLineDiffers(m1: string, m2: string, uri: string, q1: string, q2: string, host: string, hash: string, amz: string)
    requires '\n' !in m1 && '\n' !in m2 && '\n' !in uri && '\n' !in q1 && '\n' !in q2
    requires '\n' !in host && '\n' !in hash && '\n' !in amz
    requires q1 != q2
    ensures CanonicalRequest(m1, uri, q1, CanonicalHeaders(host, hash, amz), hash)
         != CanonicalRequest(m2, uri, q2, CanonicalHeaders(host, hash, amz), hash)
  {
    CanonicalRequestLines(m1, uri, q1, host, hash, amz);
    CanonicalRequestLines(m2, uri, q2, host, hash, amz);
  }

  /** The server rebuilds the canonical request from the transmitted verb and path, no query, and the signed header values. */
  lemma ReceivedAsSent(c: Crypto, creds: Credentials, httpMethod: string, url: Url, params: seq<Pair>,
                       payload: Bytes, t: DateTime)
    ensures var r := SignRequest(c, creds, httpMethod, url, params, payload, t);
            var hash := PayloadHash(c, payload);
      ReceivedCanonicalRequest(r.wire)
      == Some(CanonicalRequest(VerbName(r.wire.verb), CanonicalUri(url.path), "", CanonicalHeaders(url.netloc, hash, AmzDate(t)), hash))
  {
    var r := SignRequest(c, creds, httpMethod, url, params, payload, t);
    SignRequestParts(c, creds, httpMethod, url, params, payload, t);
    ReceivedFromHeaders(c, creds, r.wire, url.netloc, AmzDate(t), PayloadHash(c, payload),
                        AuthorizationHeader(creds.accessKey, CredentialScope(DateStamp(t), creds.region), r.signature));
  }

  /**
    A PUT or GET to a URL without a query is received as it was signed: the
    server rebuilds the very canonical request that was signed and computes
    the very signature that was sent.
  */
  lemma UnqueriedRequestVerifies(c: Crypto, creds: Credentials, httpMethod: string, url: Url, params: seq<Pair>,
                                 payload: Bytes, t: DateTime)
    requires httpMethod == "PUT" || httpMethod == "GET"
    requires url.query == ""
    ensures var r := SignRequest(c, creds, httpMethod, url, params, payload, t);
      && ReceivedCanonicalRequest(r.wire) == Some(r.canonicalRequest)
      && ServerSignature(c, creds, r.wire) == Some(r.signature)
  {
    var r := SignRequest(c, creds, httpMethod, url, params, payload, t);
    var scope := CredentialScope(DateStamp(t), creds.region);
    SignRequestParts(c, creds, httpMethod, url, params, payload, t);
    ReceivedFromHeaders(c, creds, r.wire, url.netloc, AmzDate(t), PayloadHash(c, payload),
                        AuthorizationHeader(creds.accessKey, scope, r.signature));
    assert VerbName(r.wire.verb) == httpMethod;
    assert AmzDate(t)[..8] == DateStamp(t);
  }

  /**
    A delete is never received as it was signed: the server rebuilds a
    canonical request whose first line is "GET", while the signed one starts
    with "DELETE".
  */
  lemma DeleteFailsVerification(c: Crypto, creds: Credentials, url: Url, params: seq<Pair>, t: DateTime)
    ensures var r := SignRequest(c, creds, "DELETE", url, params, [], t);
      ReceivedCanonicalRequest(r.wire) != Some(r.canonicalRequest)
  {
    var r := SignRequest(c, creds, "DELETE", url, params, [], t);
    var hash := PayloadHash(c, []);
    SignRequestParts(c, creds, "DELETE", url, params, [], t);
    ReceivedAsSent(c, creds, "DELETE", url, params, [], t);
    VerbLineDiffers(r.wire.verb, CanonicalUri(url.path), "", CanonicalQuery(url.query, params),
                    CanonicalHeaders(url.netloc, hash, AmzDate(t)), hash);
  }

  /** A canonical request rebuilt for a PUT or GET is never one signed for "DELETE". */
  lemma VerbLineDiffers(v: HttpVerb, uri: string, q1: string, q2: string, headers: string, hash: string)
    requires v != DELETE
    ensures CanonicalRequest(VerbName(v), uri, q1, headers, hash) != CanonicalRequest("DELETE", uri, q2, headers, hash)
  {
    MethodLineDiffers(VerbName(v), uri, q1, headers, hash, "DELETE", uri, q2, headers, hash);
  }

  /**
    A request to a URL with a query is never received as it was signed: the
    signed canonical request carries the canonical query, the one the server
    rebuilds from the transmitted URL an empty one.
  */
  lemma QueryFailsVerification(c: Crypto, creds: Credentials, httpMethod: string, url: Url, params: seq<Pair>,
                               payload: Bytes, t: DateTime)
    requires url.query != "" && |params| > 0
    requires '\n' !in httpMethod && '\n' !in url.netloc
    ensures var r := SignRequest(c, creds, httpMethod, url, params, payload, t);
      ReceivedCanonicalRequest(r.wire) != Some(r.canonicalRequest)
  {
    var r := SignRequest(c, creds, httpMethod, url, params, payload, t);
    SignRequestParts(c, creds, httpMethod, url, params, payload, t);
    ReceivedAsSent(c, creds, httpMethod, url, params, payload, t);
    QueryLines(c, payload, url, params, httpMethod, r.wire.verb, t);
  }

  /** The query line tells the signed canonical request from the one rebuilt without a query. */
  lemma QueryLines(c: Crypto, payload: Bytes, url: Url, params: seq<Pair>, httpMethod: string, v: HttpVerb, t: DateTime)
    requires url.query != "" && |params| > 0
    requires '\n' !in httpMethod && '\n' !in url.netloc
    ensures var hash := PayloadHash(c, payload);
            var headers := CanonicalHeaders(url.netloc, hash, AmzDate(t));
      CanonicalRequest(VerbName(v), CanonicalUri(url.path), "", headers, hash)
      != CanonicalRequest(httpMethod, CanonicalUri(url.path), CanonicalQuery(url.query, params), headers, hash)
  {
    CanonicalQueryNonEmpty(url.query, params);
    NoNewlineInUri(url.path);
    NoNewlineInAmzDate(t);
    NoNewlineInHex(c.sha256(payload));
    QueryLineDiffers(VerbName(v), httpMethod, CanonicalUri(url.path), "", CanonicalQuery(url.query, params),
                     url.netloc, PayloadHash(c, payload), AmzDate(t));
  }
}
