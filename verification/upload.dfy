/**
 * The `Upload` record and its class-level helpers: provenance, storage keys, the
 * content-type fallback, creation from an uploaded file or from a URL (HEAD
 * pre-check, GET status handling, filename fallback) and the blob purge on destroy.
 */
module Uploads {
  import opened Wrappers
  import opened Text
  import opened Quota

  type byte = x: int | 0 <= x < 256

  /** How an upload entered the system; the enum admits exactly these four values. */
  datatype Provenance = Slack | Web | Api | Rescued

  /** The string stored in the `provenance` column. */
  function ProvenanceValue(p: Provenance): string {
    match p
    case Slack => "slack"
    case Web => "web"
    case Api => "api"
    case Rescued => "rescued"
  }

  /** The validating enum: a column value is accepted only if it is one of the four. */
  function ParseProvenance(s: string): (r: Option<Provenance>)
    ensures r.Some? <==> s in {"slack", "web", "api", "rescued"}
  {
    if s == "slack" then Some(Slack)
    else if s == "web" then Some(Web)
    else if s == "api" then Some(Api)
    else if s == "rescued" then Some(Rescued)
    else None
  }

  /** Every provenance is stored as a value the enum accepts back, and only its own value maps to it. */
  lemma ProvenanceRoundTrip(p: Provenance, s: string)
    ensures ParseProvenance(ProvenanceValue(p)) == Some(p)
    ensures ParseProvenance(s) == Some(p) ==> s == ProvenanceValue(p)
  {
  }

  /** A multipart file as the request delivers it; its size is its byte length. */
  datatype UploadedFile = UploadedFile(originalFilename: string, contentType: Option<string>, content: seq<byte>) {
    function Size(): nat {
      |content|
    }
  }

  /**
   * Library code the upload paths call and that this model does not open:
   * `ActiveStorage::Filename#sanitized`, Marcel's MIME sniffing (`None` when it has
   * no answer), `number_to_human_size`, the path component of `URI.parse`
   * (which raises on a malformed URL), and the identification `create_and_upload!`
   * makes unless told `identify: false`: it sniffs the content once more and uses
   * the type it is given only as the declared type.
   */
  datatype Collaborators = Collaborators(
    sanitize: string -> string,
    sniff: (seq<byte>, string) -> Option<string>,
    humanSize: int -> string,
    uriPath: string -> Result<string, string>,
    identify: (seq<byte>, string, string) -> string)

  /** A persisted upload with the blob metadata it delegates to. */
  datatype UploadRecord = UploadRecord(
    id: string,
    key: string,
    filename: string,
    contentType: string,
    byteSize: nat,
    provenance: Provenance,
    originalUrl: Option<string>)

  /** The blob key: the pre-generated upload id, a slash, the sanitized filename. */
  function StorageKey(uploadId: string, sanitized: string): string {
    uploadId + "/" + sanitized
  }

  /** The part of a key before its first slash (the whole key when there is none). */
  function KeyId(key: string): (r: string)
    ensures |r| <= |key| && r == key[..|r|]
    ensures '/' !in r
  {
    if key == [] || key[0] == '/' then [] else [key[0]] + KeyId(key[1..])
  }

  /** The part of a key after its first slash. */
  function KeyName(key: string): string {
    var id := KeyId(key);
    if |id| < |key| then key[|id| + 1..] else []
  }

  /** A storage key splits back into the upload id and the sanitized filename. */
  lemma {:induction false} StorageKeyRoundTrip(uploadId: string, sanitized: string)
    requires '/' !in uploadId
    ensures KeyId(StorageKey(uploadId, sanitized)) == uploadId
    ensures KeyName(StorageKey(uploadId, sanitized)) == sanitized
  {
    var key := StorageKey(uploadId, sanitized);
    if uploadId == [] {
      assert key[0] == '/';
    } else {
      assert uploadId[0] in uploadId;
      assert key[1..] == StorageKey(uploadId[1..], sanitized);
      assert forall c :: c in uploadId[1..] ==> c in uploadId;
      StorageKeyRoundTrip(uploadId[1..], sanitized);
    }
  }

  const DefaultContentType: string := "application/octet-stream"

  /** The sniffed type, else the declared type, else the generic default. */
  function ContentType(sniffed: Option<string>, declared: Option<string>): (r: string)
    ensures sniffed.Some? ==> r == sniffed.value
    ensures sniffed.None? && declared.Some? ==> r == declared.value
    ensures sniffed.None? && declared.None? ==> r == DefaultContentType
  {
    sniffed.GetOr(declared.GetOr(DefaultContentType))
  }

  /**
   * How storing an upload went: both steps through, the blob upload raised, or the
   * blob was uploaded and the record creation after it raised.
   */
  datatype Persist = Persisted | BlobRaised(message: string) | RecordRaised(message: string)

  /**
   * The shared body of `create_upload` and the API's single upload: sniff the type,
   * derive the key from the pre-generated id, store the blob, create the record. The
   * blob is stored with identification on, so the stored type is the library's
   * answer given the computed type as the declared one.
   */
  function CreateFromFile(file: UploadedFile, uploadId: string, provenance: Provenance, c: Collaborators, persist: Persist): (r: Result<UploadRecord, string>)
    ensures r.Success? <==> persist.Persisted?
    ensures r.Failure? ==> r.error == persist.message
    ensures r.Success? ==>
      && r.value.id == uploadId
      && r.value.key == StorageKey(uploadId, c.sanitize(file.originalFilename))
      && r.value.filename == file.originalFilename
      && r.value.contentType == c.identify(file.content, file.originalFilename, ContentType(c.sniff(file.content, file.originalFilename), file.contentType))
      && r.value.byteSize == file.Size()
      && r.value.provenance == provenance
      && r.value.originalUrl.None?
  {
    var contentType := c.identify(file.content, file.originalFilename, ContentType(c.sniff(file.content, file.originalFilename), file.contentType));
    var key := StorageKey(uploadId, c.sanitize(file.originalFilename));
    match persist
    case Persisted => Success(UploadRecord(uploadId, key, file.originalFilename, contentType, file.Size(), provenance, None))
    case BlobRaised(m) => Failure(m)
    case RecordRaised(m) => Failure(m)
  }

  /**
   * The store after a save that raised: a record creation that raised leaves the
   * blob it came after under `key`, a blob upload that raised leaves nothing.
   */
  function AfterFailedSave(s: Store, key: string, persist: Persist): (s': Store)
    ensures s'.records == s.records
    ensures persist.RecordRaised? ==> s'.blobs == s.blobs + {key}
    ensures !persist.RecordRaised? ==> s' == s
  {
    if persist.RecordRaised? then Store(s.records, s.blobs + {key}) else s
  }

  /** Faraday's `success?`. */
  predicate IsSuccess(status: nat) {
    200 <= status <= 299
  }

  /**
   * Response headers as Faraday's `Utils::Headers` holds them: a name is looked up
   * whatever its case, so the map is keyed by the lower-cased name.
   */
  type Headers = m: map<string, string> | forall k :: k in m ==> Lower(k) == k witness map[]

  /**
   * `response.headers[key]` for a `key` written in lower case, as the source writes
   * all of them: the value stored under that folded name, or nil.
   */
  function Header(headers: Headers, key: string): (r: Option<string>)
    ensures r.Some? <==> key in headers
    ensures r.Some? ==> r.value == headers[key]
  {
    if key in headers then Some(headers[key]) else None
  }

  /**
   * The headers of a response whose fields arrived as `raw`, in order: each name is
   * stored folded, and a later field of the same name replaces an earlier one.
   */
  function Received(raw: seq<(string, string)>): (h: Headers)
    ensures raw != [] ==> Header(h, Lower(raw[|raw| - 1].0)) == Some(raw[|raw| - 1].1)
    ensures |h| <= |raw|
    decreases |raw|
  {
    if raw == [] then map[]
    else
      var name := raw[|raw| - 1].0;
      var earlier := Received(raw[..|raw| - 1]);
      LowerIdempotent(name);
      earlier[Lower(name) := raw[|raw| - 1].1]
  }

  /** The answer to the HEAD request, or a transport error (`Faraday::Error`). */
  datatype HeadOutcome = HeadRaised | HeadReplied(status: nat, headers: Headers)

  /** The answer to the GET request after redirects were followed, or what the client raised. */
  datatype GetOutcome = GetRaised(message: string) | GetReplied(status: nat, headers: Headers, body: seq<byte>)

  /** Why a URL upload failed; the controller turns each into the raised message. */
  datatype FetchError =
    | FileTooLarge(length: nat, limit: nat)
    | ExceedsQuota
    | Redirected(status: nat, location: Option<string>)
    | BadStatus(status: nat)
    | Raised(message: string)

  /** The request headers: `Authorization` only when a present value was supplied. */
  function RequestHeaders(authorization: Option<string>): (h: map<string, string>)
    ensures "Authorization" in h <==> authorization.Some? && IsPresent(authorization.value)
    ensures "Authorization" in h ==> h["Authorization"] == authorization.value
    ensures h.Keys <= {"Authorization"}
  {
    if authorization.Some? && IsPresent(authorization.value) then map["Authorization" := authorization.value] else map[]
  }

  /** `headers["content-length"]&.to_i`. */
  function ContentLength(headers: Headers): Option<int> {
    match Header(headers, "content-length")
    case Some(v) => Some(ToI(v))
    case None => None
  }

  /** The HEAD answer announced a positive length, so the pre-check applies. */
  predicate Announced(head: HeadOutcome) {
    && head.HeadReplied?
    && IsSuccess(head.status)
    && ContentLength(head.headers).Some?
    && ContentLength(head.headers).value > 0
  }

  function AnnouncedLength(head: HeadOutcome): nat
    requires Announced(head)
  {
    ContentLength(head.headers).value
  }

  /** A response whose one field is spelled any way that folds to `key` answers a lookup of `key`. */
  lemma ReceivedOne(field: string, key: string, value: string)
    requires Lower(field) == key
    ensures Header(Received([(field, value)]), key) == Some(value)
  {
  }

  /** A length field holding the numeral of `n` is read as `n`. */
  lemma ContentLengthOfNumeral(h: Headers, n: nat)
    requires Header(h, "content-length") == Some(NatToString(n))
    ensures ContentLength(h) == Some(n as int)
  {
    ToIOfNatToString(n);
  }

  /** A successful HEAD whose one field is a length field holding a positive numeral announces that number. */
  lemma LengthAnnounced(lengthField: string, n: nat)
    requires n > 0 && Lower(lengthField) == "content-length"
    ensures var head := HeadReplied(200, Received([(lengthField, NatToString(n))]));
      Announced(head) && AnnouncedLength(head) == n
  {
    var h := Received([(lengthField, NatToString(n))]);
    ReceivedOne(lengthField, "content-length", NatToString(n));
    ContentLengthOfNumeral(h, n);
  }

  /**
   * `pre_check_quota_via_head`: `None` lets the download go ahead. The check is
   * skipped silently unless a successful HEAD announced a positive length; an
   * announced length above the per-file limit fails "too large" whatever the quota
   * says; otherwise it fails "would exceed" exactly when `can_upload?` refuses it.
   */
  function PreCheckViaHead(head: HeadOutcome, q: QuotaView): (r: Option<FetchError>)
    ensures !Announced(head) ==> r.None?
    ensures Announced(head) && AnnouncedLength(head) > q.policy.maxFileSize ==>
      r == Some(FileTooLarge(AnnouncedLength(head), q.policy.maxFileSize))
    ensures Announced(head) && AnnouncedLength(head) <= q.policy.maxFileSize ==>
      (r.None? <==> q.canUpload(AnnouncedLength(head))) && (r.Some? ==> r.value == ExceedsQuota)
  {
    match head
    case HeadRaised => None
    case HeadReplied(status, headers) =>
      if !IsSuccess(status) then None
      else match ContentLength(headers)
        case None => None
        case Some(length) =>
          if length <= 0 then None
          else if length > q.policy.maxFileSize then Some(FileTooLarge(length, q.policy.maxFileSize))
          else if q.canUpload(length) then None
          else Some(ExceedsQuota)
  }

  /**
   * A HEAD answer that spells the length field `Content-Length` still triggers the
   * pre-check: a 5000-byte announcement fails "too large" under a 10-byte limit.
   */
  lemma CapitalisedLengthIsSeen(q: QuotaView)
    requires q.policy.maxFileSize == 10
    ensures PreCheckViaHead(HeadReplied(200, Received([("Content-Length", "5000")])), q) == Some(FileTooLarge(5000, 10))
  {
    assert Lower("Content-Length") == "content-length";
    assert NatToString(5000) == "5000";
    LengthAnnounced("Content-Length", 5000);
  }

  /**
   * The status handling after the GET: a 3xx answer fails with its status and
   * location, any other non-success fails with its status, a raised client error
   * passes through, and only a success proceeds (`None`).
   */
  function ClassifyGet(get: GetOutcome): (r: Option<FetchError>)
    ensures r.None? <==> get.GetReplied? && IsSuccess(get.status)
    ensures get.GetReplied? && 300 <= get.status <= 399 ==> r == Some(Redirected(get.status, Header(get.headers, "location")))
    ensures get.GetReplied? && !IsSuccess(get.status) && !(300 <= get.status <= 399) ==> r == Some(BadStatus(get.status))
    ensures get.GetRaised? ==> r == Some(Raised(get.message))
  {
    match get
    case GetRaised(m) => Some(Raised(m))
    case GetReplied(status, headers, _) =>
      if 300 <= status <= 399 then Some(Redirected(status, Header(headers, "location")))
      else if !IsSuccess(status) then Some(BadStatus(status))
      else None
  }

  /**
   * A 3xx answer whose one field is a location field, spelled in any case, fails
   * with that status and that location.
   */
  lemma RedirectLocationIsSeen(status: nat, field: string, location: string, body: seq<byte>)
    requires 300 <= status <= 399 && Lower(field) == "location"
    ensures ClassifyGet(GetReplied(status, Received([(field, location)]), body)) == Some(Redirected(status, Some(location)))
  {
    ReceivedOne(field, "location", location);
  }

  const FallbackFilename: string := "download"

  /** `extract_filename_from_url` on the URL's path: its basename, or "download" when that is blank. */
  function ExtractFilename(path: string): (r: string)
    ensures IsPresent(r)
    ensures IsPresent(Basename(path)) ==> r == Basename(path)
    ensures IsBlank(Basename(path)) ==> r == FallbackFilename
  {
    var base := Basename(path);
    FallbackIsPresent();
    if IsPresent(base) then base else FallbackFilename
  }

  lemma FallbackIsPresent()
    ensures IsPresent(FallbackFilename)
  {
    var c := FallbackFilename[0];
    assert c == 'd';
    assert c !in LeadingSpace;
    assert !IsSpace(c);
  }

  /** A path ending in a present, slash-free name yields that name. */
  lemma ExtractFilenameOfPath(dir: string, name: string)
    requires IsPresent(name) && '/' !in name
    ensures ExtractFilename(dir + "/" + name) == name
  {
    BasenameOfJoin(dir, name);
  }

  /** The explicit filename when one is given, else the one derived from the URL path. */
  function ResolveFilename(filename: Option<string>, url: string, c: Collaborators): (r: Result<string, FetchError>)
    ensures filename.Some? ==> r == Success(filename.value)
    ensures filename.None? && c.uriPath(url).Success? ==> r == Success(ExtractFilename(c.uriPath(url).value))
    ensures filename.None? && c.uriPath(url).Failure? ==> r == Failure(Raised(c.uriPath(url).error))
  {
    match filename
    case Some(f) => Success(f)
    case None =>
      match c.uriPath(url)
      case Success(path) => Success(ExtractFilename(path))
      case Failure(m) => Failure(Raised(m))
  }

  /**
   * The HTTP answers and the pre-generated id a URL upload works with. The HEAD and
   * GET answers carry their headers folded to lower case, so a lookup finds a field
   * whatever case the server spelled it in.
   */
  datatype FetchEnv = FetchEnv(
    head: (string, map<string, string>) -> HeadOutcome,
    get: (string, map<string, string>) -> GetOutcome,
    uploadId: string,
    persist: Persist)

  /**
   * `Upload.create_from_url`: pre-check via HEAD, GET, classify the status, pick
   * the filename and content type, then store the blob under `id/sanitized` and
   * create the record with that id.
   */
  function CreateFromUrl(url: string, provenance: Provenance, originalUrl: Option<string>, authorization: Option<string>,
                         filename: Option<string>, q: QuotaView, c: Collaborators, env: FetchEnv): (r: Result<UploadRecord, FetchError>)
    ensures PreCheckViaHead(env.head(url, RequestHeaders(authorization)), q).Some? ==>
      r == Failure(PreCheckViaHead(env.head(url, RequestHeaders(authorization)), q).value)
    ensures PreCheckViaHead(env.head(url, RequestHeaders(authorization)), q).None? && ClassifyGet(env.get(url, RequestHeaders(authorization))).Some? ==>
      r == Failure(ClassifyGet(env.get(url, RequestHeaders(authorization))).value)
    ensures r.Success? ==>
      var get := env.get(url, RequestHeaders(authorization));
      && get.GetReplied? && IsSuccess(get.status)
      && ResolveFilename(filename, url, c) == Success(r.value.filename)
      && r.value.contentType == ContentType(c.sniff(get.body, r.value.filename), Header(get.headers, "content-type"))
      && r.value.byteSize == |get.body|
      && r.value.id == env.uploadId
      && r.value.key == StorageKey(env.uploadId, c.sanitize(r.value.filename))
      && r.value.provenance == provenance
      && r.value.originalUrl == originalUrl
    ensures r.Success? <==>
      && PreCheckViaHead(env.head(url, RequestHeaders(authorization)), q).None?
      && ClassifyGet(env.get(url, RequestHeaders(authorization))).None?
      && ResolveFilename(filename, url, c).Success?
      && env.persist.Persisted?
    ensures
      && PreCheckViaHead(env.head(url, RequestHeaders(authorization)), q).None?
      && ClassifyGet(env.get(url, RequestHeaders(authorization))).None?
      && ResolveFilename(filename, url, c).Failure? ==>
      r == Failure(ResolveFilename(filename, url, c).error)
    ensures
      && PreCheckViaHead(env.head(url, RequestHeaders(authorization)), q).None?
      && ClassifyGet(env.get(url, RequestHeaders(authorization))).None?
      && ResolveFilename(filename, url, c).Success? && !env.persist.Persisted? ==>
      r == Failure(Raised(env.persist.message))
  {
    var headers := RequestHeaders(authorization);
    match PreCheckViaHead(env.head(url, headers), q)
    case Some(e) => Failure(e)
    case None =>
      var get := env.get(url, headers);
      match ClassifyGet(get)
      case Some(e) => Failure(e)
      case None =>
        match ResolveFilename(filename, url, c)
        case Failure(e) => Failure(e)
        case Success(name) =>
          var contentType := ContentType(c.sniff(get.body, name), Header(get.headers, "content-type"));
          var key := StorageKey(env.uploadId, c.sanitize(name));
          match env.persist
          case BlobRaised(m) => Failure(Raised(m))
          case RecordRaised(m) => Failure(Raised(m))
          case Persisted => Success(UploadRecord(env.uploadId, key, name, contentType, |get.body|, provenance, originalUrl))
  }

  /**
   * The key a URL upload stores its blob under once the pre-check, the download and
   * the filename went through; `None` when it stopped before the blob upload.
   */
  function UrlBlobKey(url: string, authorization: Option<string>, filename: Option<string>, q: QuotaView,
                      c: Collaborators, env: FetchEnv): (k: Option<string>)
    ensures k.Some? <==>
      && PreCheckViaHead(env.head(url, RequestHeaders(authorization)), q).None?
      && ClassifyGet(env.get(url, RequestHeaders(authorization))).None?
      && ResolveFilename(filename, url, c).Success?
    ensures k.Some? ==> k.value == StorageKey(env.uploadId, c.sanitize(ResolveFilename(filename, url, c).value))
  {
    var headers := RequestHeaders(authorization);
    if PreCheckViaHead(env.head(url, headers), q).None? && ClassifyGet(env.get(url, headers)).None?
       && ResolveFilename(filename, url, c).Success?
    then Some(StorageKey(env.uploadId, c.sanitize(ResolveFilename(filename, url, c).value)))
    else None
  }

  /** A successful URL upload's record is keyed by the blob key the download reached. */
  lemma UrlRecordKeyed(url: string, provenance: Provenance, originalUrl: Option<string>, authorization: Option<string>,
                       filename: Option<string>, q: QuotaView, c: Collaborators, env: FetchEnv)
    ensures var r := CreateFromUrl(url, provenance, originalUrl, authorization, filename, q, c, env);
      r.Success? ==> UrlBlobKey(url, authorization, filename, q, c, env) == Some(r.value.key)
  {
  }

  /** The identification of a blob stored with `identify: false`: the given type is kept. */
  function KeepDeclared(content: seq<byte>, filename: string, declared: string): string {
    declared
  }

  /**
   * A URL upload stores what a file upload of the downloaded body would store, under
   * the resolved name and the answer's `content-type` as the declared type, except
   * that identification is off and the original URL is recorded.
   */
  lemma UrlAndFileAgree(url: string, provenance: Provenance, originalUrl: Option<string>, authorization: Option<string>,
                        filename: Option<string>, q: QuotaView, c: Collaborators, env: FetchEnv)
    ensures var r := CreateFromUrl(url, provenance, originalUrl, authorization, filename, q, c, env);
      var get := env.get(url, RequestHeaders(authorization));
      r.Success? ==>
        var asFile := CreateFromFile(UploadedFile(r.value.filename, Header(get.headers, "content-type"), get.body),
                                     env.uploadId, provenance, c.(identify := KeepDeclared), env.persist);
        && asFile.Success?
        && r.value == asFile.value.(originalUrl := originalUrl)
  {
  }

  /** The message a URL-upload failure is raised with. */
  function FetchErrorMessage(e: FetchError, humanSize: int -> string): (m: string)
    ensures e.FileTooLarge? ==> m == "File too large: " + humanSize(e.length) + " exceeds limit of " + humanSize(e.limit)
    ensures e.ExceedsQuota? ==> m == "File would exceed storage quota"
    ensures e.Redirected? ==> m == "Failed to download: " + NatToString(e.status) + " redirect to " + e.location.GetOr("")
    ensures e.BadStatus? ==> m == "Failed to download: " + NatToString(e.status)
    ensures e.Raised? ==> m == e.message
  {
    match e
    case FileTooLarge(length, limit) => "File too large: " + humanSize(length) + " exceeds limit of " + humanSize(limit)
    case ExceedsQuota => "File would exceed storage quota"
    case Redirected(status, location) => "Failed to download: " + NatToString(status) + " redirect to " + location.GetOr("")
    case BadStatus(status) => "Failed to download: " + NatToString(status)
    case Raised(m) => m
  }

  /** The status in a "Failed to download" message reads back as the status that failed. */
  lemma BadStatusReadBack(status: nat, humanSize: int -> string)
    ensures var m := FetchErrorMessage(BadStatus(status), humanSize);
      var prefix := "Failed to download: ";
      |prefix| <= |m| && m[..|prefix|] == prefix && ToI(m[|prefix|..]) == status
  {
    var m := FetchErrorMessage(BadStatus(status), humanSize);
    var prefix := "Failed to download: ";
    assert m[|prefix|..] == NatToString(status);
    ToIOfNatToString(status);
  }

  /** Upload records by id and the keys of the blobs the object store holds. */
  datatype Store = Store(records: map<string, UploadRecord>, blobs: set<string>)

  /** The store after a blob upload and a record creation for `u`. */
  function Save(s: Store, u: UploadRecord): (s': Store)
    ensures u.id in s'.records && s'.records[u.id] == u && u.key in s'.blobs
  {
    Store(s.records[u.id := u], s.blobs + {u.key})
  }

  /** What the object store answers to a purge. */
  datatype PurgeResponse = Purged | NoSuchKey | PurgeRaised(message: string)

  /** `purge_blob`: the error that escapes the callback; a missing key is only logged. */
  function PurgeBlob(response: PurgeResponse): (escaped: Option<string>)
    ensures escaped.None? <==> !response.PurgeRaised?
  {
    match response
    case PurgeRaised(m) => Some(m)
    case _ => None
  }

  /**
   * `destroy!` with its `after_destroy` purge. The store answers "no such key" when
   * the blob is already gone, which does not fail the destroy; any other purge error
   * (`fault`) aborts it and leaves the store as it was.
   */
  function Destroy(s: Store, u: UploadRecord, fault: Option<string>): (r: Result<Store, string>)
    ensures r.Success? <==> fault.None?
    ensures r.Failure? ==> r.error == fault.value
    ensures r.Success? ==> r.value.records == s.records - {u.id} && r.value.blobs == s.blobs - {u.key}
  {
    var response := if fault.Some? then PurgeRaised(fault.value) else if u.key in s.blobs then Purged else NoSuchKey;
    match PurgeBlob(response)
    case Some(m) => Failure(m)
    case None => Success(Store(s.records - {u.id}, s.blobs - {u.key}))
  }

  /** Destroying a freshly saved upload gives back the store as it was before the save. */
  lemma DestroyUndoesSave(s: Store, u: UploadRecord)
    requires u.id !in s.records && u.key !in s.blobs
    ensures Destroy(Save(s, u), u, None) == Success(s)
  {
    assert s.records[u.id := u] - {u.id} == s.records;
    assert (s.blobs + {u.key}) - {u.key} == s.blobs;
  }

  /** Destroying an upload whose blob is already gone succeeds like one whose blob is present. */
  lemma DestroyToleratesMissingBlob(s: Store, u: UploadRecord)
    requires u.key !in s.blobs
    ensures Destroy(s, u, None) == Destroy(Store(s.records, s.blobs + {u.key}), u, None)
  {
    assert (s.blobs + {u.key}) - {u.key} == s.blobs - {u.key};
  }
}
