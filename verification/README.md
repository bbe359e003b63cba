# Quota-enforcing upload decisions

This project models the decision logic of the CDN's upload paths in Dafny:

- the batch upload service. It makes one pass over the submitted files. Each file is
  either rejected for the per-file limit, rejected by admission control against the
  storage quota, or handed to `create_upload`. A failure in `create_upload` is
  recorded, and the pass goes on to the next file;
- the request gates of the v4 API controller: `check_quota`, single upload, batch
  upload, upload from a URL and rename;
- the helpers of the `Upload` model: provenance enum, storage key, content-type
  fallback, HEAD pre-check, GET status handling, filename fallback and blob purge;
- the web upload controller: file extraction, the empty and too-many pre-checks, and
  the flash message.

Everything is a pure function over immutable datatypes. Collaborators the code calls
but does not define are parameters:

- the quota policy and `can_upload?` (`Quota.QuotaView`);
- sanitising, MIME sniffing, `number_to_human_size`, URI path parsing and the type
  identification `create_and_upload!` makes unless told `identify: false`
  (`Uploads.Collaborators`). The two file paths store with identification on, so the
  stored type is the library's answer given the computed type as the declared one; the
  URL path turns it off and stores the computed type;
- the HEAD and GET answers (`Uploads.FetchEnv`). Their headers are keyed by the
  lower-cased field name (`Uploads.Headers`), because Faraday's response headers are
  looked up without regard to case;
- the generated upload ids and the store outcomes (per-position oracles). An outcome says whether the blob upload raised, or the record creation after it, since only the latter leaves a blob behind.

Modules follow the source files:

- `Text`: the Ruby string behaviour the code relies on (`strip`, `blank?`, `join`,
  `to_i`, `File.basename`).
- `Quota`: the quota collaborator as seen by the code.
- `Uploads`: `app/models/upload.rb`.
- `BatchUploads`: `app/services/batch_upload_service.rb`.
- `ApiUploads`: `app/controllers/api/v4/uploads_controller.rb`.
- `WebUploads`: `app/controllers/uploads_controller.rb`.

The batch loop is `BatchUploads.Run`, a left fold with one `Step` per file. Its state
holds the service's `uploads`, `failed` and `batch_bytes_used`. It also holds the input
positions of the accepted and the rejected files. Those positions are bookkeeping of the
model. They let order, partition and accounting be stated. The storage total is a single
argument of the fold, so it is read once for the whole batch.

The service's quota behaviour, as the code has it:

- there is no "already over quota" fast reject;
- there is no post-batch remediation or newest-first eviction;
- the reported remaining budget is `max_storage - current_storage - batch_bytes_used`,
  not clamped at 0, so it can be negative;
- the counter grows by `file.size`, the uploaded file's byte length.

Several source lines are garbled: `con`/`conn` at app/models/upload.rb:76,81, `endreturn`
at app/models/upload.rb:142, `uplaods` at app/controllers/uploads_controller.rb:34, and
stray code at app/controllers/uploads_controller.rb:70-103. The model follows the evident
intent: one HTTP client, `return if can_upload?`, `result.uploads`, and the
`build_flash_message` at lines 84-95.

## Model

| member | source | states |
|---|---|---|
| `BatchUploads.RunInvariant` | app/services/batch_upload_service.rb:26-58 | Every file ends in exactly one of `uploads`/`failed`, both in input order. Each file's fate is the one-iteration rule against the baseline plus the sizes of the files accepted before it. `batch_bytes_used` equals the summed sizes of the accepted files. No accepted file exceeds `max_file_size`. Once anything is accepted, baseline + counter ≤ `max_storage`; before that the counter is 0 |
| `BatchUploads.EveryFileDecided` | app/services/batch_upload_service.rb:31-57 | Whatever the rule decides for the file at position k appears in the result at k's place: the record in `uploads`, or the too-large / would-exceed (with unclamped remaining) / "Upload error" failure in `failed`. A raised upload does not stop later files |
| `BatchUploads.RunPrefix` | app/services/batch_upload_service.rb:26-58 | The result over a prefix of the files is a prefix of the result over all files: earlier decisions are never revised |
| `BatchUploads.ProcessFiles` | app/services/batch_upload_service.rb:17-61 | `|uploads| + |failed|` equals the number of files; the storage total is read once, before the loop |
| `BatchUploads.ServiceUploadsKeyed` | app/services/batch_upload_service.rb:65-86 | Every stored upload carries the service's provenance and the id generated for its file. Its key is `id/sanitized filename` and its size is that file's size |
| `BatchUploads.ExamplePerFileLimit` | app/services/batch_upload_service.rb:31-37 | Limit 1000, sizes [500, 1500, 200]: 500 and 200 are stored; 1500 fails with the limit reason |
| `BatchUploads.ExampleTotalQuota` | app/services/batch_upload_service.rb:39-48 | Baseline 900 of 1000, sizes [50, 200]: 50 is stored; 200 fails with 50 remaining |
| `BatchUploads.ExampleRemainingNotClamped` | app/services/batch_upload_service.rb:40-46 | Baseline 1200 of 1000: a 10-byte file fails with remaining -200 |
| `BatchUploads.Judge` | app/services/batch_upload_service.rb:31-57 | One iteration: the file is stored exactly when it is within `max_file_size`, baseline + counter + size is within `max_storage`, and `create_upload` succeeds, and then the record is `create_upload`'s. Otherwise the failure carries the file's name and the first reason that applies: the limit reason, the unclamped remaining budget, or "Upload error" with the raised message |
| `BatchUploads.ReasonText` | app/services/batch_upload_service.rb:32-56 | The three failure texts: "File size (…) exceeds limit of …", "Would exceed storage quota (… remaining)" and "Upload error: …", sizes through `number_to_human_size` |
| `BatchUploads.ReasonTextsDiffer` | app/services/batch_upload_service.rb:32-56 | Two reasons with the same text are of the same kind, and an upload error's text determines its message |
| `Uploads.CreateFromFile` | app/services/batch_upload_service.rb:65-86 | Succeeds exactly when the blob and record are stored. The record has the pre-generated id, key `id/sanitize(name)`, the type the library identifies given the sniffed-else-declared-else-default type, the file's size, the given provenance and no original URL. A raised error is passed on unchanged |
| `Uploads.StorageKeyRoundTrip` | app/models/upload.rb:95-97 | A storage key splits back into the upload id and the sanitized filename when the id has no slash |
| `Uploads.ProvenanceRoundTrip` | app/models/upload.rb:40-45 | Each provenance is stored as a value the enum reads back as itself, and only that value maps to it |
| `Uploads.ParseProvenance` | app/models/upload.rb:40-47 | Exactly "slack", "web", "api" and "rescued" are accepted |
| `Uploads.RequestHeaders` | app/models/upload.rb:78-79 | `Authorization` is sent exactly when a present value was supplied, with that value, and nothing else is sent |
| `Uploads.CapitalisedLengthIsSeen` | app/models/upload.rb:130-140 | A HEAD answer spelling the field `Content-Length` is still read: 5000 announced under a 10-byte limit fails "too large" |
| `Uploads.LengthAnnounced` | app/models/upload.rb:131-134 | A successful HEAD whose length field, spelled in any case, holds the numeral of n > 0 announces exactly n |
| `Uploads.PreCheckViaHead` | app/models/upload.rb:129-147 | Passes silently unless a successful HEAD announced a positive length. It fails "too large" when that length exceeds `max_file_size`, whatever `can_upload?` says. Otherwise it fails "would exceed quota" exactly when `can_upload?(length)` is false |
| `Uploads.ClassifyGet` | app/models/upload.rb:83-88 | Only a 2xx answer proceeds. A 3xx fails with status and the `location` header in any case spelling; any other status fails with the status; a raised client error passes through |
| `Uploads.RedirectLocationIsSeen` | app/models/upload.rb:84-86 | A 3xx answer whose location field is spelled in any case fails with that status and that location |
| `Uploads.ContentType` | app/models/upload.rb:92 | The sniffed type when sniffing answers, else the declared type, else "application/octet-stream" |
| `Uploads.ExtractFilename` | app/models/upload.rb:149-151 | The result is never blank: the path's basename when that is present, else "download" |
| `Uploads.ExtractFilenameOfPath` | app/models/upload.rb:149-151 | A path ending in a present, slash-free name yields that name |
| `Uploads.ResolveFilename` | app/models/upload.rb:90 | An explicit filename wins. Otherwise the name comes from the URL path; a malformed URL is an error |
| `Uploads.CreateFromUrl` | app/models/upload.rb:75-114 | A pre-check failure, then a GET failure, then a malformed URL's error, then the store's raised message, is the result. On success: GET was 2xx, filename per the fallback, content type sniffed-else-header-else-default, size = body length, id = pre-generated id, key `id/sanitized`, provenance and original URL as given. Succeeds exactly when all steps pass |
| `Uploads.UrlAndFileAgree` | app/models/upload.rb:90-113 | A successful URL upload stores what a file upload of the downloaded body would (app/services/batch_upload_service.rb:65-86), named by the resolved filename with the answer's `content-type` as declared type, except that identification is off and the original URL is kept |
| `Uploads.FetchErrorMessage` | app/models/upload.rb:84-88 | The texts raised for a redirect ("Failed to download: S redirect to L") and another failed status ("Failed to download: S"), and for the pre-check's "File too large: … exceeds limit of …" and "File would exceed storage quota" (lines 140, 144); a client error keeps its own message |
| `Uploads.BadStatusReadBack` | app/models/upload.rb:88 | The number after "Failed to download: " reads back as the status that failed |
| `Uploads.PurgeBlob` | app/models/upload.rb:156-160 | Only a purge error other than "no such key" escapes the callback |
| `Uploads.Destroy` | app/models/upload.rb:13 | Destroy succeeds exactly when the purge raised nothing but "no such key". It then removes the record and the blob; on failure the error is the purge's |
| `Uploads.DestroyUndoesSave` | app/models/upload.rb:156-160 | Destroying a freshly saved upload whose id and key were new gives back the store as it was before the save |
| `Uploads.DestroyToleratesMissingBlob` | app/models/upload.rb:156-160 | Destroying an upload whose blob is already gone gives the same result as when the blob is present |
| `Text.Strip` | app/controllers/api/v4/uploads_controller.rb:96 | The result is a slice of the input with only NUL/ASCII whitespace cut off before and after it. It neither starts nor ends with such a character, and is empty exactly when the input has only such characters |
| `Text.StripRemovesPadding` | app/controllers/api/v4/uploads_controller.rb:96 | Conversely, a string with no such character at either end comes back unchanged from any padding of such characters |
| `Text.StripIdempotent` | app/controllers/api/v4/uploads_controller.rb:96 | Stripping twice equals stripping once |
| `Text.ToIOfNatToString` | app/models/upload.rb:133 | `to_i` on the content-length header reads back every decimal numeral |
| `Text.BasenameOfJoin` | app/models/upload.rb:150 | The basename of `dir/name` or `dir/name/` is `name` |
| `Text.Basename` | app/models/upload.rb:150 | The result is empty exactly for the empty path, and is either "/" or slash-free |
| `ApiUploads.QuotaErrorJson` | app/controllers/api/v4/uploads_controller.rb:133-143 | The error is the custom message if given, else "Storage quota exceeded"; the usage report is copied into `quota` |
| `ApiUploads.CheckQuota` | app/controllers/api/v4/uploads_controller.rb:113-131 | No file parameter: nothing happens. An oversize file gets 402 with the per-file message, checked before `can_upload?`. Otherwise 402 with the default message exactly when `can_upload?(size)` is false |
| `ApiUploads.HeadAgreesWithCheckQuota` | app/controllers/api/v4/uploads_controller.rb:113-131 | `check_quota` on a file of size n > 0 refuses it exactly when the URL pre-check refuses a HEAD announcing n (app/models/upload.rb:129-147), with "too large" in both when n exceeds the per-file limit |
| `ApiUploads.Create` | app/controllers/api/v4/uploads_controller.rb:6-35 | Behind `check_quota`. No file gives 400 "Missing file parameter". 201 exactly when the filter passed and storing succeeded; the body is `upload_json` of the record `create_upload`'s logic builds under the pre-generated id, and the store gains that record. A storage error gives 422 "Upload failed: …" with the records unchanged: a failed blob upload leaves the store as it was, while a record creation that raised after the blob upload leaves that blob under the upload's key. Any other answer but 201 leaves the store as it was |
| `ApiUploads.RecordRaiseLeavesBlob` | app/controllers/api/v4/uploads_controller.rb:22-34 | A record creation that raises after `create_and_upload!` answers 422 and leaves the blob stored under `id/sanitized name`, with no record for it |
| `ApiUploads.CreateAgreesWithBatchOfOne` | app/controllers/api/v4/uploads_controller.rb:6-35 | When `can_upload?` is the plain fits-under-the-total test, a single upload answers 201 exactly when a batch of that one file does (lines 38-64) |
| `ApiUploads.UploadJsonNamesBlob` | app/controllers/api/v4/uploads_controller.rb:145-154 | The `id` and `filename` of a stored upload's JSON are the two halves of its storage key, and `size` is the uploaded file's |
| `ApiUploads.CreateBatch` | app/controllers/api/v4/uploads_controller.rb:38-64 | Missing, non-array or empty `files` gives 400. More than 40 gives 400 "Too many files". Otherwise every file is reported once, uploads with their sanitized filename and failures as `{filename, reason}`; 201 exactly when something was stored, else 422 |
| `ApiUploads.BatchCreatedIff` | app/controllers/api/v4/uploads_controller.rb:62 | A batch of 1 to 40 files answers 201 exactly when some file, judged against the baseline alone, passes both limits and is stored (via `BatchUploads.NothingStoredIff`) |
| `ApiUploads.CreateFromUrl` | app/controllers/api/v4/uploads_controller.rb:67-91 | Behind `check_quota`; no present URL gives 400. A download failure gives 422 with its message and no new record; the store is unchanged unless the record creation raised after the blob upload, which leaves that blob under its key. A downloaded upload is destroyed with 402 only when `can_upload?(0)` is false and the total is over the limit; the store then differs from before only in losing that id and key, and the 402 body carries the usage read after the destroy. If that destroy fails: 422, upload kept. Otherwise 201 |
| `ApiUploads.Settle` | app/controllers/api/v4/uploads_controller.rb:77-88 | Not over quota: 201 with the upload kept. Over quota: the upload is destroyed, and the store loses exactly its id and key, with a 402 carrying the post-destroy usage. If the destroy fails: 422 and the upload kept |
| `ApiUploads.OverQuotaLeavesStore` | app/controllers/api/v4/uploads_controller.rb:79-85 | A 402 after the download leaves the store exactly as before the request when the new upload's id and key were new |
| `ApiUploads.Rename` | app/controllers/api/v4/uploads_controller.rb:94-109 | An unknown upload gives 404 first. A blank stripped name gives 400 whatever the renamer would do. Otherwise the renamer gets the stripped name: 200 with the renamed upload on success. A `RecordNotFound` raised by `rename!` or the rendering gives the same 404 "Upload not found" as an unknown upload; any other error gives 422 "Rename failed: …" with its message |
| `ApiUploads.RenameSeesStripped` | app/controllers/api/v4/uploads_controller.rb:94-109 | Two filename parameters that strip to the same string get the same answer |
| `ApiUploads.RenameIgnoresPadding` | app/controllers/api/v4/uploads_controller.rb:96 | A name padded with strip characters on either side gets the same answer as the bare name |
| `ApiUploads.FailuresToJson` | app/controllers/api/v4/uploads_controller.rb:59 | Each failure becomes `{filename, reason text}`, in the service's order |
| `WebUploads.ExtractUploadedFiles` | app/controllers/uploads_controller.rb:55-68 | The non-blank `files[]` entries in order, then the `file` parameter if it is not blank |
| `WebUploads.PartsDiffer` | app/controllers/uploads_controller.rb:84-95 | An "uploaded" part never equals a "failed" part, whatever the counts |
| `WebUploads.FlashParts` | app/controllers/uploads_controller.rb:84-92 | Exactly one part per non-empty list and no other: "N file(s) uploaded successfully" iff uploads is non-empty, first; "M file(s) failed to upload" iff failed is non-empty, last |
| `WebUploads.BuildFlashMessage` | app/controllers/uploads_controller.rb:84-95 | Both parts joined by ", " when both lists are non-empty, the single part when only one is, "" exactly when both are empty |
| `WebUploads.Create` | app/controllers/uploads_controller.rb:16-38 | No files, or more than 40, redirects with an alert and does not run the service. Otherwise it runs the service with web provenance on the extracted files. The redirect carries the flash message: a notice when something was stored, else an alert |
| `WebUploads.NoticeIff` | app/controllers/uploads_controller.rb:16-38 | The redirect is a notice exactly when at most 40 files were extracted and some file, judged against the baseline alone, passes both limits and is stored |
| `BatchUploads.NothingStoredIff` | app/services/batch_upload_service.rb:31-57 | The batch stores nothing exactly when every file, judged against the baseline storage alone, is refused |

## Left out

- HTTP client setup: TLS, timeouts and the redirect limit (app/models/upload.rb:119-127). The HEAD and GET answers are oracles; an exhausted redirect budget or a timeout shows up as a raised GET error.
- Blob storage, database writes, `pg_search` scopes, time scopes, `cdn_url`, `assets_url` and `human_file_size`: these are storage, search, environment and formatting effects. Store outcomes are oracles; `Uploads.Store` is an abstract record/blob state.
- `upload_json`'s `url` and `created_at`: route helpers and the clock. `ApiUploads.UploadJson` keeps id, filename (sanitized, as `ActiveStorage::Filename#to_s` renders it), size and content type.
- `QuotaService`, `User#total_storage_bytes` and `Upload#rename!`: they are not part of this model. `can_upload?` is an uninterpreted predicate, and the renamer is an oracle.
- `ActiveStorage::Filename#sanitized`, Marcel sniffing, ActiveStorage's identification on upload, `number_to_human_size` and `URI.parse`: library code. They are function parameters, and failure reasons carry integers.
- Authentication, `current_user.uploads.find` (as an `Option`), Pundit authorisation, the web `index`/`destroy` actions beyond the purge rule, Sentry reporting and the web `create` rescue: no model operation raises outside the modelled paths.
- Request parameters that are neither absent, blank nor uploaded files (a plain string under `file`, non-file entries in `files`): they fail on a missing method, which is not modelled.
- Concurrency between batches: the model is one sequential batch.
- BatchUploads.ProcessFiles: the batch result does not carry the store, so the blob a raising record creation leaves behind (as `ApiUploads.Create` states it) is not stated for batch uploads.
- Uploads.CreateFromFile: the stored content type is whatever identification answers for the content, the name and the computed type; how Marcel weighs a declared type against the sniffed one is library behaviour and is not stated.
- Uploads.Received: a header field repeated within one response keeps only its last value; how the HTTP adapter merges repeats is library behaviour outside this model.
- Text.ToI: does not accept underscores between digits (`"1_000".to_i`). Content-length headers do not use them.
- Text.IsSpace: uses the Unicode White_Space set for `blank?`. The extra byte-encoding cases ActiveSupport handles are not modelled.
- Sanitize idempotence and extension-preserving rename: `sanitized` and `rename!` are library or unshown code.
