# Direct-to-bucket image uploader, modelled in Dafny

This project models the core of a small Next.js image uploader. The user drops images into
a client component. For each accepted file the component creates an upload record. It asks
its server route for a presigned PUT URL, streams the bytes straight to the bucket while it
tracks progress, and marks the record done or failed. Later the user can remove a record,
which asks the route to delete the stored object. The route (`app/api/file-uploader/route.ts`)
is stateless. POST checks the request body against a schema, builds the object key
`<uuid>-<filename>` and presigns a PUT in bucket `shooting-images` for one hour. DELETE
checks the key and sends one delete command.

The files:

- `Json.dfy` (module `Json`): JSON values, `Option`, the `Reply` of a route (status and body),
  and how JavaScript reads `body.key`.
- `Route.dfy` (module `UploadRoute`): the schema, the key, POST and DELETE as pure functions of
  the parsed body (or a parse failure), the uuid token and the outcome of the presigner or of
  storage. Each returns the reply and the storage command it handed over, if any.
- `Records.dfy` (module `UploadRecords`): the record type and the updaters that the
  component passes to `setFiles`. These are a map keyed by the `File` object, a map keyed by
  id, a filter by id, and the append of a batch. The module also holds the progress rounding,
  the invariants (unique ids, progress within 0..100) and the fact that updates of different
  files commute.
- `Uploader.dfy` (module `UploaderClient`): the class `Uploader`. It holds the `files` state
  cell and an ordered log of side effects: requests sent, toasts shown and preview URLs
  revoked. Each of `onDrop`, `uploadFile`, `removeFile`, `rejectedFiles` and the cleanup is a
  method. Each method is proved against a specification function, and the lemmas beside
  them state what an upload, a removal and the cleanup do.
- `EndToEnd.dfy` (module `EndToEnd`): feeds the component's request bodies into the route
  and the route's replies back into the component.

The repository holds two copies of the component: `file-uploader/components/Uploader.tsx`
and `components/web/Uploader.tsx`. Their logic is the same line for line; only the fetch
URLs differ (`/api/file-uploader` for both requests, or `/api/s3/upload` and
`/api/s3/delete`). The class therefore takes an `Endpoints` value, and
`CopiesDifferOnlyInRoutes` states how the two copies differ. The line numbers of the logic
are the same in both files.

Modelling choices:

- A `File` is a datatype with a `ref` field that stands for the object's identity. Upload
  events find records with `f.file === file`, which is reference equality. Here that is
  equality of `File` values. File values are canonical: each `ref` has exactly one `File`
  value. So two distinct `File` objects with the same name are different values. Delete events find records by `id`.
- The network is an input. An upload is driven by an `UploadScript`. The script gives what
  the authorization fetch returned, the upload progress events in order, and how the transfer
  ended (`onload` with a status, or `onerror`). A removal is driven by a `DeleteOutcome`. The
  uuid token, the record ids and the `URL.createObjectURL` results are parameters.
- Progress events follow the XMLHttpRequest Standard. `lengthComputable` holds exactly when
  the total length is not 0. The percentage `Math.round(loaded / total * 100)` is computed on
  exact rationals as `(200 * loaded + total) / (2 * total)`. That rounds to the nearest
  integer, halves up.

The model follows the code as written, including behaviour a reader might not expect:

- Progress is not clamped and can go down. The last computable event wins
  (`ProgressCanDecrease`). A progress event with everything sent gives 100 before the
  transfer has been acknowledged.
- The object key is stored in the record only by a progress event with a computable length.
  It is not stored when authorization returns. An empty file's upload reports no such event.
  It completes at 100% without a key, and its removal is then refused with a 400
  (`EmptyFileKeepsNoKey`).
- `removeFile` always sends the delete request, with no `key` member when the record has
  none. The route answers 400, and the record stays with its error flag set
  (`KeylessRemovalIsRejected`).
- The schema requires only types. Empty strings and negative or fractional sizes pass.
- The cleanup effect depends on `[files]` (see "Left out").

## Model

| member | source | states |
|---|---|---|
| `UploadRoute.ValidateUploadRequest` | app/api/file-uploader/route.ts:8-24 | a body passes exactly when it is an object whose `filename` and `contentType` are strings and whose `size` is a number; the accepted request carries those three values |
| `UploadRoute.ValidateEncodeRoundTrip` | app/api/file-uploader/route.ts:8-12 | the body the uploader builds from a file always passes the schema and yields the same three values |
| `UploadRoute.SchemaAcceptsEmptyAndNegative` | app/api/file-uploader/route.ts:8-12 | empty strings and a negative size pass the schema |
| `UploadRoute.UniqueKey` | app/api/file-uploader/route.ts:28 | the key is the token, then one `-`, then the filename unchanged |
| `UploadRoute.DistinctTokensDistinctKeys` | app/api/file-uploader/route.ts:28 | different tokens give different keys for the same filename |
| `UploadRoute.KeyDeterminesFilename` | app/api/file-uploader/route.ts:28 | for one token, the key determines the filename |
| `UploadRoute.BatchKeysDistinct` | app/api/file-uploader/route.ts:28 | pairwise distinct 36-character uuid tokens give pairwise distinct keys, whatever the filenames |
| `UploadRoute.Post` | app/api/file-uploader/route.ts:14-54 | an unparsable body gives 500 with nothing presigned; a body failing the schema gives 400 "Invalid request body" with nothing presigned; a valid body gives exactly one presign call, for bucket `shooting-images`, key `<token>-<filename>`, the request's content type and size, 3600 s; then 200 `{presignedUrl, key}` if signing succeeded, 500 otherwise |
| `UploadRoute.PostReturnsPresignedKey` | app/api/file-uploader/route.ts:30-46 | a 200 reply carries the signer's URL and exactly the key placed in the presigned command, in the fixed bucket with the fixed expiry |
| `UploadRoute.PostFailuresAreServerErrors` | app/api/file-uploader/route.ts:47-53 | a body parse failure, or a signing failure on a valid body, gives 500 |
| `Json.GetMember` | app/api/file-uploader/route.ts:59 | reading a member of `null` throws; the member is defined exactly when the body is an object that has it, and is then that member's value; on every other value it is undefined |
| `UploadRoute.RequestedKey` | app/api/file-uploader/route.ts:58-66 | a key is accepted exactly when the body is an object whose `key` is a non-empty string |
| `UploadRoute.Delete` | app/api/file-uploader/route.ts:56-85 | one delete command for bucket `shooting-images` and the key is sent exactly when the key is valid; a missing, empty or non-string key gives 400 and no command; 200 with a message exactly when the command was sent and storage succeeded; everything else (parse failure, `null` body, storage failure) gives 500 |
| `UploadRecords.NewRecord` | file-uploader/components/Uploader.tsx:168-176 | a new record carries the given id, File and preview URL, is not uploading, not deleting and not failed, is at 0% and has no key |
| `UploadRecords.UpdateFile` | file-uploader/components/Uploader.tsx:74-76 | the upload updaters keep the length and order; records holding another File are unchanged; each record holding the File gets the change |
| `UploadRecords.UpdateId` | file-uploader/components/Uploader.tsx:41-43 | the delete updaters keep the length and order; records with another id are unchanged; each record with the id gets the change |
| `UploadRecords.RemoveId` | file-uploader/components/Uploader.tsx:61 | no record left has the id, and the result is no longer than the input |
| `UploadRecords.RemoveIdMembers` | file-uploader/components/Uploader.tsx:61 | a record is kept exactly when it was there and its id differs |
| `UploadRecords.AppendBatch` | file-uploader/components/Uploader.tsx:164-177 | the existing records come first, unchanged, followed by one new record per accepted file, in order, with `uploading`, `isDeleting` and `error` false, progress 0, no key, and its id and preview URL |
| `UploadRecords.FindById` | file-uploader/components/Uploader.tsx:34 | gives the first record with the id, and nothing exactly when no record has it |
| `UploadRecords.RoundPercent` | file-uploader/components/Uploader.tsx:113-117 | the result is `loaded / total * 100` rounded to the nearest integer, halves up |
| `UploadRecords.RoundPercentBounds` | file-uploader/components/Uploader.tsx:113-117 | the percentage is at most 100 when `loaded <= total`, exactly 100 when all is sent, 0 when nothing is |
| `UploadRecords.LastComputable` | file-uploader/components/Uploader.tsx:111-112 | gives the last event of the run that has a computable length (no later event has one), and nothing exactly when no event has one |
| `UploadRecords.ApplyProgressEvents` | file-uploader/components/Uploader.tsx:111-121 | after a run of progress events, only the File's records change: the last event with a computable length sets the percentage and the key; no such event means no change |
| `UploadRecords.ProgressCanDecrease` | file-uploader/components/Uploader.tsx:113-117 | there is no clamp: 90% followed by 10% leaves 10% |
| `UploadRecords.NonComputableProgressIgnored` | file-uploader/components/Uploader.tsx:112 | an event without a computable length changes nothing, key included |
| `UploadRecords.ProgressEventsKeepRange` | file-uploader/components/Uploader.tsx:113-120 | if each event's `loaded` is at most its `total`, all percentages stay within 0..100 |
| `UploadRecords.SourceChangesKeepIdentity` | file-uploader/components/Uploader.tsx:94-98 | none of the record changes alters a record's id or File |
| `UploadRecords.DistinctFileUpdatesCommute` | file-uploader/components/Uploader.tsx:114-120 | updates for two different files, in either order, give the same collection |
| `UploadRecords.UpdateFileKeepsUniqueIds` | file-uploader/components/Uploader.tsx:127-132 | an update by File keeps the ids unique |
| `UploadRecords.UpdateIdKeepsUniqueIds` | file-uploader/components/Uploader.tsx:53-57 | an update by id keeps the ids unique |
| `UploadRecords.RemoveIdDropsExactlyOne` | file-uploader/components/Uploader.tsx:61 | with unique ids, filtering out the id at position j gives the records before j followed by those after it |
| `UploadRecords.RemoveIdAbsent` | components/web/Uploader.tsx:61 | filtering out an id that no record has changes nothing |
| `UploadRecords.RemoveIdKeepsUniqueIds` | components/web/Uploader.tsx:61 | removal keeps the ids unique |
| `UploadRecords.AppendBatchKeepsUniqueIds` | components/web/Uploader.tsx:164-177 | a batch with fresh, pairwise distinct ids keeps the ids unique |
| `UploaderClient.TransferSucceeded` | file-uploader/components/Uploader.tsx:124-141 | the transfer succeeds exactly on `onload` with status 200 or 204; `onerror` never succeeds |
| `UploaderClient.UploadStepsSettle` | file-uploader/components/Uploader.tsx:73-162 | the step-by-step updates of one upload equal a single update of the File's records with `Settle` |
| `UploaderClient.SettleOutcome` | file-uploader/components/Uploader.tsx:90-160 | after one upload, a record holding the file is not uploading. Failed authorization gives progress 0 and error true. After authorization, error is false exactly when the status was 200 or 204; progress is 100 then and 0 otherwise. The key is stored only if some progress event was computable. Id, File, `isDeleting` and preview URL are unchanged |
| `UploaderClient.AuthFailureSendsNoTransfer` | file-uploader/components/Uploader.tsx:90-101 | after a failed authorization the only request sent is the authorization fetch: no PUT |
| `UploaderClient.BatchIsolation` | file-uploader/components/Uploader.tsx:179 | for a batch of distinct files, each record of a batch file ends as if its own upload had run alone; records of other files are untouched |
| `UploaderClient.DropIsolation` | components/web/Uploader.tsx:164-180 | after dropping new distinct files, the old records come first, unchanged, followed by one record per file, in order, each as its own upload left it |
| `UploaderClient.DeleteRequestBody` | file-uploader/components/Uploader.tsx:45-49 | the delete body is an object with a `key` member exactly when the record was found and has a key (`JSON.stringify` drops an undefined key); the route reads from it the record's key when that is non-empty, and nothing otherwise |
| `UploaderClient.DeleteFailureKeepsRecord` | components/web/Uploader.tsx:41-70 | a delete that is not ok or throws keeps every record in place; the record with the id ends with `isDeleting` false and error true, its other fields intact |
| `UploaderClient.DeleteSuccessRemovesExactlyOne` | file-uploader/components/Uploader.tsx:41-61 | with unique ids, a successful delete removes exactly the record with the id and keeps the others in order |
| `UploaderClient.RemoveRevokesThenSends` | file-uploader/components/Uploader.tsx:34-49 | the record's preview URL is revoked once, as the first effect, before the delete request, whatever the outcome; the request is sent even without a key, and then carries no key |
| `UploaderClient.RemoveOutcomeKeepsUniqueIds` | file-uploader/components/Uploader.tsx:41-61 | a removal keeps the ids unique, whatever the delete outcome |
| `UploaderClient.CleanupEffects` | file-uploader/components/Uploader.tsx:216-220 | the cleanup revokes the preview URL of every record that has one, and nothing else |
| `UploaderClient.CleanupRevokesOnce` | components/web/Uploader.tsx:213-221 | with distinct preview URLs, the cleanup revokes each one exactly once |
| `UploaderClient.FindByFirstCode` | file-uploader/components/Uploader.tsx:185-191 | gives the first rejection whose first error code matches, and nothing exactly when none does |
| `UploaderClient.RejectionToasts` | file-uploader/components/Uploader.tsx:183-201 | an empty list shows nothing. The "too many files" message appears exactly when some rejection's first code is `too-many-files`, and at most once. The same holds for "file too large" and `file-too-large`. No other message is shown |
| `UploaderClient.SettleKeepsIdentity` | file-uploader/components/Uploader.tsx:74-145 | an upload changes neither a record's id nor its File |
| `UploaderClient.UploadBatchKeepsUniqueIds` | file-uploader/components/Uploader.tsx:179 | uploading a batch keeps the ids unique |
| `UploaderClient.CopiesDifferOnlyInRoutes` | components/web/Uploader.tsx:45-80 | the two copies' effects agree position by position, except the fetch URLs (`/api/s3/upload` and `/api/s3/delete` against `/api/file-uploader`) |
| `UploaderClient.Uploader.constructor` | file-uploader/components/Uploader.tsx:19-30 | the component starts with no records and no effects, so its invariant (no two records share an id) holds |
| `UploaderClient.Uploader.OnProgress` | file-uploader/components/Uploader.tsx:111-121 | one progress event updates the File's records as `ProgressChange` says and has no other effect |
| `UploaderClient.Uploader.UploadFile` | file-uploader/components/Uploader.tsx:73-162 | the collection becomes the update of the File's records with `Settle`; the effects are the authorization fetch, the PUT only if authorized, then one toast; ids stay unique |
| `UploaderClient.Uploader.OnDrop` | file-uploader/components/Uploader.tsx:164-181 | an empty batch changes nothing. A non-empty batch is appended, then every file's upload runs in order, and the effects are those of the uploads in order. With the fresh, pairwise distinct ids uuidv4() gives, ids stay unique |
| `UploaderClient.Uploader.RemoveFile` | file-uploader/components/Uploader.tsx:32-71 | the collection becomes the mark-deleting update followed by removal (ok) or by the delete-failed update (otherwise); the effects are the revocation, the delete request and one toast; ids stay unique |
| `UploaderClient.Uploader.RejectedFiles` | components/web/Uploader.tsx:183-201 | shows exactly the rejection toasts and leaves the records alone |
| `UploaderClient.Uploader.Teardown` | file-uploader/components/Uploader.tsx:213-222 | revokes the preview URL of every record that has one, in order, and changes no record |
| `EndToEnd.ReadAuthReply` | file-uploader/components/Uploader.tsx:90-104 | a reply that is not ok is read as a failure; an authorization carries the `presignedUrl` and `key` string members of the reply; the route's success body reads back as exactly its URL and key |
| `EndToEnd.ReadDeleteReply` | file-uploader/components/Uploader.tsx:51-58 | the delete succeeds exactly on a 2xx status; a reply never counts as a throw; the route's 400 and 500 are failures |
| `EndToEnd.AuthorizationRoundTrip` | app/api/file-uploader/route.ts:26-46 | the component's authorization body passes the schema; the route presigns a PUT for `<token>-<name>` with the file's type and size; the component reads back that URL and that key |
| `EndToEnd.AuthorizationFailureReachesRecord` | file-uploader/components/Uploader.tsx:90-101 | a signing failure in the route reaches the record as a failed upload at 0% |
| `EndToEnd.PhotoScenario` | file-uploader/components/Uploader.tsx:104-137 | a 2 MiB `photo.png` gets the key `<token>-photo.png`. After a final full progress event and status 200, the record is at 100%, with no error, not uploading, and holds that key |
| `EndToEnd.KeylessRemovalIsRejected` | app/api/file-uploader/route.ts:59-66 | removing a record without a key sends no key; the route answers 400 without touching storage; the record stays with error true |
| `EndToEnd.KeyedRemovalDeletes` | app/api/file-uploader/route.ts:68-78 | removing a record with a key sends one delete command for that key in the bucket; on success the record disappears and the others keep their order |
| `EndToEnd.EmptyFileKeepsNoKey` | file-uploader/components/Uploader.tsx:111-121 | an empty file's upload completes at 100% with no key, so its removal gets a 400 |

## Left out

- Concurrency. Each upload's chain of updates runs to its end before the next one starts,
  and each event is one atomic update. `DistinctFileUpdatesCommute` shows why the final
  collection does not depend on how uploads of different files interleave. The order of
  effects across concurrent uploads is not modelled.
- The `files` snapshot that `removeFile` reads (line 34) is taken at render time and can be
  stale. The model reads the current collection.
- The cleanup effect has `[files]` as its dependency list, so React also runs it with the
  previous snapshot after every change of `files`, not only at unmount. Previews are then
  revoked while their records are still shown. `Uploader.Teardown` models only the run at
  unmount.
- Rendering, CSS classes and the display of toasts are UI. Toasts appear only as entries in
  the effect log.
- The 50-file, 100 MiB and `image/*` limits are enforced inside react-dropzone. Only its
  rejection codes are modelled.
- `RejectionToasts` and `Uploader.RejectedFiles` require every rejection to carry at least
  one error, as react-dropzone guarantees. On an empty error list the source would throw.
- fetch, XMLHttpRequest, getSignedUrl and `S3.send` are I/O. Their outcomes are inputs.
  A thrown `xhr.open` is not distinguished from `onerror`. An ok authorization reply without
  `presignedUrl` and `key` is read as a throw (`EndToEnd.ReadAuthReply`); the source would
  PUT to an undefined URL. The route never sends such a reply.
- A preview URL is revoked when the record holds one (`objectUrl.Some?`). JavaScript tests
  truthiness, which also skips `""`; `URL.createObjectURL` never returns an empty string,
  so the two agree on every value the component stores.
- Request headers and the `console.error` call in POST are not modelled.
- Floating point. `RoundPercent` is exact. Double rounding of `loaded / total * 100` near a
  half is not modelled.
- `file-uploader/S3Client.ts` (endpoint and credentials from the environment) and
  `app/page.tsx` (renders the component) are configuration and layout.
