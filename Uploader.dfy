/** The client-side uploader component: its `files` state cell and the ordered log
    of its side effects (requests sent, toasts shown, preview URLs revoked).

    The repository holds two copies of the component (file-uploader/components/
    Uploader.tsx and components/web/Uploader.tsx) whose logic is identical; they
    differ only in the endpoints they call, so the class takes its `Endpoints` as
    a constructor argument.

    The network is an input: each upload is driven by an `UploadScript` (what the
    authorization call returned, the progress events the transfer reported, how
    the transfer ended) and each removal by a `DeleteOutcome`. Each upload's
    sequence of state updates runs to its end before the next one starts; the
    lemma `DistinctFileUpdatesCommute` shows why that loses nothing for the state
    of the collection. */
module UploaderClient {
  import opened Json
  import opened UploadRecords
  import UploadRoute

  /** The two endpoints a copy of the component talks to. */
  datatype Endpoints = Endpoints(upload: string, delete: string)

  /** file-uploader/components/Uploader.tsx: one route for both. */
  const FileUploaderEndpoints: Endpoints := Endpoints("/api/file-uploader", "/api/file-uploader")
  /** components/web/Uploader.tsx. */
  const WebEndpoints: Endpoints := Endpoints("/api/s3/upload", "/api/s3/delete")

  datatype Toast = ErrorToast(message: string) | SuccessToast(message: string)

  /** A request the component sends: a JSON fetch to its own server, or the
      XMLHttpRequest PUT of the file's bytes to a presigned URL. */
  datatype Request =
    | Fetch(verb: string, url: string, body: Json)
    | Put(url: string, contentType: string, file: File)

  /** One side effect, in the order the component performs them. */
  datatype Effect = Send(request: Request) | Show(toast: Toast) | Revoke(url: string)

  /** The authorization fetch: an ok response whose JSON gave the URL and key, a
      response that was not ok, or a throw (network failure or unreadable JSON). */
  datatype AuthOutcome = Authorized(presignedUrl: string, key: string) | NotOk | AuthThrew
  /** How the transfer ended: `onload` with a status, or `onerror`. */
  datatype TransferEnd = Loaded(status: int) | NetworkError
  /** Everything the network does during one upload. */
  datatype UploadScript = UploadScript(auth: AuthOutcome, progress: seq<ProgressEvent>, end: TransferEnd)
  /** The delete fetch: ok, not ok, or a throw. */
  datatype DeleteOutcome = DeleteOk | DeleteNotOk | DeleteThrew

  /** react-dropzone's rejection of one file, with its error codes. */
  datatype Rejection = Rejection(file: File, errors: seq<string>)

  const UploadedMessage: string := "File uploaded successfully"
  const AuthFailedMessage: string := "Failed to get presigned URL"
  const UploadErrorMessage: string := "Something went wrong"
  const RemovedMessage: string := "File removed successfully"
  const RemoveFailedMessage: string := "Failed to remove file from storage."
  const TooManyFilesMessage: string := "Zu viele Dateien ausgewählt, maximal 50 erlaubt"
  const FileTooLargeMessage: string := "Dateigröße überschreitet das 100MB-Limit"

  // ---------------------------------------------------------------------------
  // Specification of one upload

  /** Only an `onload` with status 200 or 204 resolves the transfer. */
  function TransferSucceeded(end: TransferEnd): (ok: bool)
    ensures ok <==> end == Loaded(200) || end == Loaded(204)
  {
    end.Loaded? && (end.status == 200 || end.status == 204)
  }

  /** The JSON body of the authorization request. */
  function AuthRequestBody(file: File): Json {
    UploadRoute.EncodeUploadRequest(UploadRoute.UploadRequest(file.name, file.contentType, file.size as real))
  }

  /** A record holding the uploaded file, after the whole upload sequence. */
  function Settle(f: Record, script: UploadScript): Record {
    match script.auth
    case Authorized(_, key) =>
      var sent := AfterProgress(StartUpload(f), key, script.progress);
      if TransferSucceeded(script.end) then Uploaded(sent) else UploadFailed(sent)
    case _ => UploadFailed(StartUpload(f))
  }

  /** The effects of one upload: the authorization fetch; the PUT only if
      authorization succeeded; then one toast. */
  function UploadEffects(endpoints: Endpoints, file: File, script: UploadScript): seq<Effect> {
    [Send(Fetch("POST", endpoints.upload, AuthRequestBody(file)))]
    + match script.auth
      case NotOk => [Show(ErrorToast(AuthFailedMessage))]
      case AuthThrew => [Show(ErrorToast(UploadErrorMessage))]
      case Authorized(url, _) =>
        [Send(Put(url, file.contentType, file)),
         Show(if TransferSucceeded(script.end) then SuccessToast(UploadedMessage) else ErrorToast(UploadErrorMessage))]
  }

  /** The collection after uploads of `batch[j]` driven by `scripts[j]`, in order. */
  function UploadBatch(files: seq<Record>, batch: seq<File>, scripts: seq<UploadScript>): seq<Record>
    requires |scripts| == |batch|
  {
    if batch == [] then files
    else
      var n := |batch| - 1;
      UpdateFile(UploadBatch(files, batch[..n], scripts[..n]), batch[n], f => Settle(f, scripts[n]))
  }

  function BatchEffects(endpoints: Endpoints, batch: seq<File>, scripts: seq<UploadScript>): seq<Effect>
    requires |scripts| == |batch|
  {
    if batch == [] then []
    else
      var n := |batch| - 1;
      BatchEffects(endpoints, batch[..n], scripts[..n]) + UploadEffects(endpoints, batch[n], scripts[n])
  }

  /** One more upload of a batch extends its state and its effects by that upload. */
  lemma BatchStep(endpoints: Endpoints, files: seq<Record>, batch: seq<File>, scripts: seq<UploadScript>, i: int)
    requires |scripts| == |batch| && 0 <= i < |batch|
    ensures UploadBatch(files, batch[..i + 1], scripts[..i + 1])
              == UpdateFile(UploadBatch(files, batch[..i], scripts[..i]), batch[i], f => Settle(f, scripts[i]))
    ensures BatchEffects(endpoints, batch[..i + 1], scripts[..i + 1])
              == BatchEffects(endpoints, batch[..i], scripts[..i]) + UploadEffects(endpoints, batch[i], scripts[i])
  {
    assert batch[..i + 1][..i] == batch[..i];
    assert scripts[..i + 1][..i] == scripts[..i];
  }

  /** The step-by-step updates of uploadFile amount to one update of the file's
      records with `Settle`. */
  lemma UploadStepsSettle(files: seq<Record>, file: File, script: UploadScript)
    ensures script.auth.Authorized? ==>
      var started := UpdateFile(files, file, StartUpload);
      var sent := ApplyProgressEvents(started, file, script.auth.key, script.progress);
      UpdateFile(sent, file, if TransferSucceeded(script.end) then Uploaded else UploadFailed)
        == UpdateFile(files, file, f => Settle(f, script))
    ensures !script.auth.Authorized? ==>
      UpdateFile(UpdateFile(files, file, StartUpload), file, UploadFailed)
        == UpdateFile(files, file, f => Settle(f, script))
  {
    var want := UpdateFile(files, file, f => Settle(f, script));
    var started := UpdateFile(files, file, StartUpload);
    if script.auth.Authorized? {
      var key := script.auth.key;
      var last := if TransferSucceeded(script.end) then Uploaded else UploadFailed;
      var sent := ApplyProgressEvents(started, file, key, script.progress);
      var got := UpdateFile(sent, file, last);
      forall i | 0 <= i < |files| ensures got[i] == want[i] {
        if files[i].file == file {
          assert started[i] == StartUpload(files[i]) && started[i].file == file;
          assert sent[i] == AfterProgress(started[i], key, script.progress);
        }
      }
    } else {
      var got := UpdateFile(started, file, UploadFailed);
      forall i | 0 <= i < |files| ensures got[i] == want[i] {
        if files[i].file == file {
          assert started[i] == StartUpload(files[i]) && started[i].file == file;
        }
      }
    }
  }

  // ---------------------------------------------------------------------------
  // Specification of one removal

  /** `JSON.stringify({ key: fileToRemove?.key })`: an undefined key is left out. */
  function DeleteRequestBody(target: Option<Record>): (body: Json)
    ensures body.JObject?
    ensures "key" in body.members <==> target.Some? && target.value.key.Some?
    // What the route reads from it: the record's key, unless it has none or it is empty.
    ensures UploadRoute.RequestedKey(body) ==
              if target.Some? && target.value.key.Some? && target.value.key.value != "" then target.value.key
              else None
  {
    if target.Some? && target.value.key.Some? then JObject(map["key" := JString(target.value.key.value)])
    else JObject(map[])
  }

  /** The collection after removeFile: marked as deleting, then dropped on success
      or marked failed otherwise. */
  function RemoveOutcome(files: seq<Record>, id: string, outcome: DeleteOutcome): seq<Record> {
    var marked := UpdateId(files, id, StartDelete);
    if outcome.DeleteOk? then RemoveId(marked, id) else UpdateId(marked, id, DeleteFailed)
  }

  /** The effects of removeFile: revoke the preview URL of the first record with
      the id, if it has one; send the delete request, with or without a key; show
      one toast. */
  function RemoveEffects(endpoints: Endpoints, files: seq<Record>, id: string, outcome: DeleteOutcome): seq<Effect> {
    var target := FindById(files, id);
    (if target.Some? && target.value.objectUrl.Some? then [Revoke(target.value.objectUrl.value)] else [])
    + [Send(Fetch("DELETE", endpoints.delete, DeleteRequestBody(target))),
       Show(if outcome.DeleteOk? then SuccessToast(RemovedMessage) else ErrorToast(RemoveFailedMessage))]
  }

  /** The revocations of the cleanup: one per record that has a preview URL, in
      order. */
  function CleanupEffects(files: seq<Record>): (r: seq<Effect>)
    ensures |r| <= |files|
    ensures forall e :: e in r ==> e.Revoke?
    ensures forall u :: Revoke(u) in r <==> exists i :: 0 <= i < |files| && files[i].objectUrl == Some(u)
  {
    if files == [] then []
    else
      var n := |files| - 1;
      var rest := CleanupEffects(files[..n]);
      assert forall i :: 0 <= i < n ==> files[..n][i] == files[i];
      rest + (if files[n].objectUrl.Some? then [Revoke(files[n].objectUrl.value)] else [])
  }

  function ShowAll(toasts: seq<Toast>): (r: seq<Effect>)
    ensures |r| == |toasts| && forall i :: 0 <= i < |toasts| ==> r[i] == Show(toasts[i])
  {
    seq(|toasts|, i requires 0 <= i < |toasts| => Show(toasts[i]))
  }

  // ---------------------------------------------------------------------------
  // Rejected drops

  /** `fileRejection.find(r => r.errors[0].code === code)`, as an index. */
  function FindByFirstCode(rejections: seq<Rejection>, code: string): (r: Option<nat>)
    requires forall i :: 0 <= i < |rejections| ==> |rejections[i].errors| > 0
    ensures r.None? <==> forall i :: 0 <= i < |rejections| ==> rejections[i].errors[0] != code
    ensures r.Some? ==> r.value < |rejections| && rejections[r.value].errors[0] == code
                        && forall k :: 0 <= k < r.value ==> rejections[k].errors[0] != code
  {
    if rejections == [] then None
    else if rejections[0].errors[0] == code then Some(0)
    else
      match FindByFirstCode(rejections[1..], code)
      case None => None
      case Some(i) => Some(i + 1)
  }

  /** The toasts of the `onDropRejected` callback. */
  function RejectionToasts(rejections: seq<Rejection>): (r: seq<Toast>)
    requires forall i :: 0 <= i < |rejections| ==> |rejections[i].errors| > 0
    ensures rejections == [] ==> r == []
    ensures ErrorToast(TooManyFilesMessage) in r <==>
              exists i :: 0 <= i < |rejections| && rejections[i].errors[0] == "too-many-files"
    ensures ErrorToast(FileTooLargeMessage) in r <==>
              exists i :: 0 <= i < |rejections| && rejections[i].errors[0] == "file-too-large"
    ensures forall t :: t in r ==> t == ErrorToast(TooManyFilesMessage) || t == ErrorToast(FileTooLargeMessage)
    ensures multiset(r)[ErrorToast(TooManyFilesMessage)] <= 1 && multiset(r)[ErrorToast(FileTooLargeMessage)] <= 1
  {
    if |rejections| == 0 then []
    else
      var tooMany := if FindByFirstCode(rejections, "too-many-files").Some? then [ErrorToast(TooManyFilesMessage)] else [];
      var tooLarge := if FindByFirstCode(rejections, "file-too-large").Some? then [ErrorToast(FileTooLargeMessage)] else [];
      assert TooManyFilesMessage != FileTooLargeMessage;
      assert multiset(tooMany + tooLarge) == multiset(tooMany) + multiset(tooLarge);
      tooMany + tooLarge
  }

  // ---------------------------------------------------------------------------
  // Properties of the upload sequence

  /** What one upload leaves in a record holding its file: a failed authorization
      fails the record; otherwise only status 200 or 204 completes it at 100%, and
      every other end fails it at 0%. The key is the one authorization returned,
      stored only if some progress event had a computable length. Id, File,
      deletion flag and preview URL are never touched. */
  lemma SettleOutcome(f: Record, script: UploadScript)
    ensures var r := Settle(f, script);
      && r.id == f.id && r.file == f.file && r.isDeleting == f.isDeleting && r.objectUrl == f.objectUrl
      && !r.uploading
      && (!script.auth.Authorized? ==> r == f.(uploading := false, progress := 0, error := true))
      && (script.auth.Authorized? ==>
            && (!r.error <==> TransferSucceeded(script.end))
            && (TransferSucceeded(script.end) ==> r.progress == 100)
            && (!TransferSucceeded(script.end) ==> r.progress == 0)
            && r.key == (if LastComputable(script.progress).Some? then Some(script.auth.key) else f.key))
  {
  }

  /** A failed authorization ends the sequence: the only request is the
      authorization fetch, and no bytes are PUT. */
  lemma AuthFailureSendsNoTransfer(endpoints: Endpoints, file: File, script: UploadScript)
    requires !script.auth.Authorized?
    ensures forall e :: e in UploadEffects(endpoints, file, script) && e.Send? ==>
              e.request == Fetch("POST", endpoints.upload, AuthRequestBody(file))
  {
  }

  /** Uploads of a batch of distinct files do not disturb each other: every record
      of a batch file ends as if its own upload had run alone, and every other
      record is untouched. */
  lemma {:induction false} BatchIsolation(files: seq<Record>, batch: seq<File>, scripts: seq<UploadScript>)
    requires |scripts| == |batch|
    requires forall a, b :: 0 <= a < b < |batch| ==> batch[a] != batch[b]
    ensures var r := UploadBatch(files, batch, scripts);
      && |r| == |files|
      && (forall i :: 0 <= i < |files| && files[i].file !in batch ==> r[i] == files[i])
      && (forall i, j :: 0 <= i < |files| && 0 <= j < |batch| && files[i].file == batch[j] ==>
            r[i] == Settle(files[i], scripts[j]))
  {
    if batch != [] {
      var n := |batch| - 1;
      var prev := UploadBatch(files, batch[..n], scripts[..n]);
      BatchIsolation(files, batch[..n], scripts[..n]);
      var r := UploadBatch(files, batch, scripts);
      assert r == UpdateFile(prev, batch[n], f => Settle(f, scripts[n]));
      forall i | 0 <= i < |files|
        ensures files[i].file !in batch ==> r[i] == files[i]
        ensures forall j :: 0 <= j < |batch| && files[i].file == batch[j] ==> r[i] == Settle(files[i], scripts[j])
      {
        if files[i].file in batch[..n] {
          var j :| 0 <= j < n && batch[..n][j] == files[i].file;
          assert prev[i] == Settle(files[i], scripts[j]);
          SettleOutcome(files[i], scripts[j]);
          assert prev[i].file != batch[n];
        } else {
          assert prev[i] == files[i];
        }
      }
    }
  }

  /** A dropped batch of new, distinct files: the old records are unchanged and in
      place, followed by one record per accepted file, in order, each in the state
      its own upload left it. */
  lemma DropIsolation(files: seq<Record>, accepted: seq<File>, ids: seq<string>, urls: seq<string>,
                      scripts: seq<UploadScript>)
    requires |ids| == |accepted| && |urls| == |accepted| && |scripts| == |accepted|
    requires forall a, b :: 0 <= a < b < |accepted| ==> accepted[a] != accepted[b]
    requires forall i :: 0 <= i < |files| ==> files[i].file !in accepted
    ensures var r := UploadBatch(AppendBatch(files, accepted, ids, urls), accepted, scripts);
      && |r| == |files| + |accepted|
      && r[..|files|] == files
      && forall j :: 0 <= j < |accepted| ==> r[|files| + j] == Settle(NewRecord(ids[j], accepted[j], urls[j]), scripts[j])
  {
    var appended := AppendBatch(files, accepted, ids, urls);
    BatchIsolation(appended, accepted, scripts);
    var r := UploadBatch(appended, accepted, scripts);
    forall i | 0 <= i < |files| ensures r[i] == files[i] {
      assert appended[i] == files[i];
    }
    forall j | 0 <= j < |accepted|
      ensures r[|files| + j] == Settle(NewRecord(ids[j], accepted[j], urls[j]), scripts[j])
    {
      assert appended[|files| + j].file == accepted[j];
    }
  }

  /** An upload changes neither a record's id nor its File. */
  lemma SettleKeepsIdentity(script: UploadScript)
    ensures KeepsIdentity(f => Settle(f, script))
  {
    forall f: Record ensures Settle(f, script).id == f.id && Settle(f, script).file == f.file {
      SettleOutcome(f, script);
    }
  }

  /** Uploading a batch keeps the ids unique. */
  lemma {:induction false} UploadBatchKeepsUniqueIds(files: seq<Record>, batch: seq<File>, scripts: seq<UploadScript>)
    requires |scripts| == |batch|
    requires UniqueIds(files)
    ensures UniqueIds(UploadBatch(files, batch, scripts))
  {
    if batch != [] {
      var n := |batch| - 1;
      UploadBatchKeepsUniqueIds(files, batch[..n], scripts[..n]);
      SettleKeepsIdentity(scripts[n]);
      UpdateFileKeepsUniqueIds(UploadBatch(files, batch[..n], scripts[..n]), batch[n], f => Settle(f, scripts[n]));
    }
  }

  // ---------------------------------------------------------------------------
  // Properties of removal

  /** A delete that is not ok, or that throws, keeps every record in place; the
      records with the id end with isDeleting false and error true, all their other
      fields as before. */
  lemma DeleteFailureKeepsRecord(files: seq<Record>, id: string, outcome: DeleteOutcome)
    requires !outcome.DeleteOk?
    ensures var r := RemoveOutcome(files, id, outcome);
      && |r| == |files|
      && (forall i :: 0 <= i < |files| && files[i].id != id ==> r[i] == files[i])
      && (forall i :: 0 <= i < |files| && files[i].id == id ==> r[i] == files[i].(isDeleting := false, error := true))
  {
    var marked := UpdateId(files, id, StartDelete);
    forall i | 0 <= i < |files| && files[i].id == id ensures marked[i].id == id {
    }
  }

  /** A successful delete, ids being unique, removes exactly the record with the id
      and keeps the others in their original order. */
  lemma DeleteSuccessRemovesExactlyOne(files: seq<Record>, id: string, j: int)
    requires UniqueIds(files)
    requires 0 <= j < |files| && files[j].id == id
    ensures RemoveOutcome(files, id, DeleteOk) == files[..j] + files[j + 1..]
  {
    var marked := UpdateId(files, id, StartDelete);
    SourceChangesKeepIdentity("", ProgressEvent(0, 0));
    UpdateIdKeepsUniqueIds(files, id, StartDelete);
    RemoveIdDropsExactlyOne(marked, id, j);
    assert marked[..j] == files[..j];
    assert marked[j + 1..] == files[j + 1..];
  }

  /** The preview URL of the record being removed is revoked once, before the delete
      request goes out, whatever the response; the request is sent even when the
      record has no key, and then carries no key at all. */
  lemma RemoveRevokesThenSends(endpoints: Endpoints, files: seq<Record>, id: string, outcome: DeleteOutcome, j: int)
    requires UniqueIds(files)
    requires 0 <= j < |files| && files[j].id == id
    ensures var e := RemoveEffects(endpoints, files, id, outcome);
      && (files[j].objectUrl.Some? ==> e[0] == Revoke(files[j].objectUrl.value) && e[1].Send?)
      && (forall k :: 0 <= k < |e| && e[k].Revoke? ==> k == 0 && files[j].objectUrl == Some(e[k].url))
      && Send(Fetch("DELETE", endpoints.delete,
                    if files[j].key.Some? then JObject(map["key" := JString(files[j].key.value)]) else JObject(map[])))
         in e
  {
    var target := FindById(files, id);
    var i :| 0 <= i < |files| && files[i] == target.value && target.value.id == id
             && forall k :: 0 <= k < i ==> files[k].id != id;
    assert i == j;
  }

  /** A removal, whatever its outcome, keeps the ids unique. */
  lemma RemoveOutcomeKeepsUniqueIds(files: seq<Record>, id: string, outcome: DeleteOutcome)
    requires UniqueIds(files)
    ensures UniqueIds(RemoveOutcome(files, id, outcome))
  {
    var marked := UpdateId(files, id, StartDelete);
    SourceChangesKeepIdentity("", ProgressEvent(0, 0));
    UpdateIdKeepsUniqueIds(files, id, StartDelete);
    if outcome.DeleteOk? {
      RemoveIdKeepsUniqueIds(marked, id);
    } else {
      UpdateIdKeepsUniqueIds(marked, id, DeleteFailed);
    }
  }

  // ---------------------------------------------------------------------------
  // Properties of the cleanup

  /** With distinct preview URLs, the cleanup revokes each present one exactly once. */
  lemma {:induction false} CleanupRevokesOnce(files: seq<Record>, j: int)
    requires forall a, b :: 0 <= a < b < |files| && files[a].objectUrl.Some? ==> files[a].objectUrl != files[b].objectUrl
    requires 0 <= j < |files| && files[j].objectUrl.Some?
    ensures multiset(CleanupEffects(files))[Revoke(files[j].objectUrl.value)] == 1
  {
    var u := files[j].objectUrl.value;
    var n := |files| - 1;
    var rest := CleanupEffects(files[..n]);
    var tail := if files[n].objectUrl.Some? then [Revoke(files[n].objectUrl.value)] else [];
    assert CleanupEffects(files) == rest + tail;
    assert multiset(rest + tail) == multiset(rest) + multiset(tail);
    if j == n {
      assert Revoke(u) !in rest;
      assert multiset(tail)[Revoke(u)] == 1;
    } else {
      CleanupRevokesOnce(files[..n], j);
      assert multiset(tail)[Revoke(u)] == 0;
    }
  }

  // ---------------------------------------------------------------------------
  // The two copies

  /** The two copies of the component differ only in where their fetches go: the
      state updates are the same functions of the same inputs, and their effects
      agree position by position except for the fetch URL. */
  lemma CopiesDifferOnlyInRoutes(file: File, script: UploadScript, files: seq<Record>, id: string, outcome: DeleteOutcome)
    ensures var web, own := UploadEffects(WebEndpoints, file, script), UploadEffects(FileUploaderEndpoints, file, script);
      && |web| == |own| && web[1..] == own[1..]
      && web[0] == Send(Fetch("POST", "/api/s3/upload", AuthRequestBody(file)))
      && own[0] == Send(Fetch("POST", "/api/file-uploader", AuthRequestBody(file)))
    ensures var web, own := RemoveEffects(WebEndpoints, files, id, outcome), RemoveEffects(FileUploaderEndpoints, files, id, outcome);
      && |web| == |own|
      && forall k :: 0 <= k < |web| && web[k] != own[k] ==>
           && web[k] == Send(Fetch("DELETE", "/api/s3/delete", DeleteRequestBody(FindById(files, id))))
           && own[k] == Send(Fetch("DELETE", "/api/file-uploader", DeleteRequestBody(FindById(files, id))))
  {
  }

  // ---------------------------------------------------------------------------
  // The component

  class Uploader {
    /** The routes this copy of the component calls. */
    const endpoints: Endpoints
    /** The `files` state cell. */
    var files: seq<Record>
    /** Every side effect so far, in order. */
    var effects: seq<Effect>

    /** The component's invariant: no two records share an id. */
    ghost predicate Valid()
      reads this
    {
      UniqueIds(files)
    }

    constructor (endpoints: Endpoints)
      ensures Valid()
      ensures this.endpoints == endpoints && files == [] && effects == []
    {
      this.endpoints := endpoints;
      files, effects := [], [];
    }

    /** The `onprogress` handler. */
    method OnProgress(file: File, key: string, ev: ProgressEvent)
      requires Valid()
      modifies this
      ensures Valid()
      ensures files == UpdateFile(old(files), file, ProgressChange(key, ev))
      ensures effects == old(effects)
    {
      SourceChangesKeepIdentity(key, ev);
      UpdateFileKeepsUniqueIds(files, file, ProgressChange(key, ev));
      files := UpdateFile(files, file, ProgressChange(key, ev));
    }

    /** uploadFile: mark the file's records as uploading, ask for a presigned URL,
        PUT the bytes while the progress events arrive, then record the outcome. */
    method UploadFile(file: File, script: UploadScript)
      requires Valid()
      modifies this
      ensures Valid()
      ensures files == UpdateFile(old(files), file, f => Settle(f, script))
      ensures effects == old(effects) + UploadEffects(endpoints, file, script)
    {
      ghost var before := files;
      SourceChangesKeepIdentity("", ProgressEvent(0, 0));
      UpdateFileKeepsUniqueIds(files, file, StartUpload);
      files := UpdateFile(files, file, StartUpload);
      effects := effects + [Send(Fetch("POST", endpoints.upload, AuthRequestBody(file)))];
      match script.auth {
        case NotOk =>
          effects := effects + [Show(ErrorToast(AuthFailedMessage))];
          files := UpdateFile(files, file, UploadFailed);
        case AuthThrew =>
          effects := effects + [Show(ErrorToast(UploadErrorMessage))];
          files := UpdateFile(files, file, UploadFailed);
        case Authorized(url, key) =>
          effects := effects + [Send(Put(url, file.contentType, file))];
          ghost var started, sentSoFar := files, effects;
          var events := script.progress;
          for i := 0 to |events|
            invariant Valid()
            invariant files == ApplyProgressEvents(started, file, key, events[..i])
            invariant effects == sentSoFar
          {
            assert events[..i + 1][..i] == events[..i];
            OnProgress(file, key, events[i]);
          }
          assert events[..|events|] == events;
          if TransferSucceeded(script.end) {
            files := UpdateFile(files, file, Uploaded);
            effects := effects + [Show(SuccessToast(UploadedMessage))];
          } else {
            effects := effects + [Show(ErrorToast(UploadErrorMessage))];
            files := UpdateFile(files, file, UploadFailed);
          }
      }
      UploadStepsSettle(before, file, script);
      SettleKeepsIdentity(script);
      UpdateFileKeepsUniqueIds(before, file, f => Settle(f, script));
    }

    /** onDrop: for a non-empty batch, append one fresh record per accepted file,
        then start each file's upload, in order. */
    method OnDrop(accepted: seq<File>, ids: seq<string>, urls: seq<string>, scripts: seq<UploadScript>)
      requires Valid()
      requires |ids| == |accepted| && |urls| == |accepted| && |scripts| == |accepted|
      // The ids come from uuidv4(): pairwise distinct and new to the collection.
      requires forall a, b :: 0 <= a < b < |ids| ==> ids[a] != ids[b]
      requires forall a, i :: 0 <= a < |ids| && 0 <= i < |files| ==> ids[a] != files[i].id
      modifies this
      ensures Valid()
      ensures accepted == [] ==> files == old(files)
      ensures accepted != [] ==>
        files == UploadBatch(AppendBatch(old(files), accepted, ids, urls), accepted, scripts)
      ensures effects == old(effects) + BatchEffects(endpoints, accepted, scripts)
    {
      if |accepted| > 0 {
        AppendBatchKeepsUniqueIds(files, accepted, ids, urls);
        files := AppendBatch(files, accepted, ids, urls);
        ghost var appended := files;
        for i := 0 to |accepted|
          invariant Valid()
          invariant files == UploadBatch(appended, accepted[..i], scripts[..i])
          invariant effects == old(effects) + BatchEffects(endpoints, accepted[..i], scripts[..i])
        {
          BatchStep(endpoints, appended, accepted, scripts, i);
          UploadFile(accepted[i], scripts[i]);
        }
        assert accepted[..|accepted|] == accepted && scripts[..|scripts|] == scripts;
      }
    }

    /** removeFile: revoke the record's preview URL, mark it as deleting, send the
        delete request whether or not the record has a key, then drop the record
        on success or mark it failed otherwise. */
    method RemoveFile(fileId: string, outcome: DeleteOutcome)
      requires Valid()
      modifies this
      ensures Valid()
      ensures files == RemoveOutcome(old(files), fileId, outcome)
      ensures effects == old(effects) + RemoveEffects(endpoints, old(files), fileId, outcome)
    {
      var fileToRemove := FindById(files, fileId);
      if fileToRemove.Some? && fileToRemove.value.objectUrl.Some? {
        effects := effects + [Revoke(fileToRemove.value.objectUrl.value)];
      }
      RemoveOutcomeKeepsUniqueIds(files, fileId, outcome);
      files := UpdateId(files, fileId, StartDelete);
      effects := effects + [Send(Fetch("DELETE", endpoints.delete, DeleteRequestBody(fileToRemove)))];
      match outcome {
        case DeleteOk =>
          files := RemoveId(files, fileId);
          effects := effects + [Show(SuccessToast(RemovedMessage))];
        case DeleteNotOk =>
          effects := effects + [Show(ErrorToast(RemoveFailedMessage))];
          files := UpdateId(files, fileId, DeleteFailed);
        case DeleteThrew =>
          effects := effects + [Show(ErrorToast(RemoveFailedMessage))];
          files := UpdateId(files, fileId, DeleteFailed);
      }
    }

    /** rejectedFiles, the `onDropRejected` callback. */
    method RejectedFiles(rejections: seq<Rejection>)
      requires Valid()
      requires forall i :: 0 <= i < |rejections| ==> |rejections[i].errors| > 0
      modifies this
      ensures Valid()
      ensures effects == old(effects) + ShowAll(RejectionToasts(rejections))
      ensures files == old(files)
    {
      effects := effects + ShowAll(RejectionToasts(rejections));
    }

    /** The effect cleanup: revoke the preview URL of every record that has one. */
    method Teardown()
      requires Valid()
      modifies this
      ensures Valid()
      ensures effects == old(effects) + CleanupEffects(files)
      ensures files == old(files)
    {
      var i := 0;
      while i < |files|
        invariant 0 <= i <= |files|
        invariant effects == old(effects) + CleanupEffects(files[..i])
        invariant files == old(files)
      {
        assert files[..i + 1][..i] == files[..i];
        if files[i].objectUrl.Some? {
          effects := effects + [Revoke(files[i].objectUrl.value)];
        }
        i := i + 1;
      }
      assert files[..|files|] == files;
    }
  }
}
