/** The uploader and the route together: the bodies the component sends are what
    the route reads, and the replies the route sends decide the component's next
    step. */
module EndToEnd {
  import opened Json
  import opened UploadRecords
  import opened UploaderClient
  import opened UploadRoute

  /** How uploadFile reads the authorization reply: `!ok` is a failure; an ok
      reply gives `{presignedUrl, key}`. The route never sends an ok reply without
      both members (`AuthorizationRoundTrip`); such a reply is read here as a throw. */
  function ReadAuthReply(reply: Reply): (r: AuthOutcome)
    ensures r.NotOk? <==> !reply.Ok()
    ensures r.Authorized? ==>
      && reply.body.JObject?
      && "presignedUrl" in reply.body.members && reply.body.members["presignedUrl"] == JString(r.presignedUrl)
      && "key" in reply.body.members && reply.body.members["key"] == JString(r.key)
    // The route's success body reads back as the URL and key it carries.
    ensures forall url, key :: reply.Ok() && reply.body == AuthorizationBody(url, key) ==> r == Authorized(url, key)
  {
    if !reply.Ok() then NotOk
    else match reply.body
      case JObject(m) =>
        if "presignedUrl" in m && m["presignedUrl"].JString? && "key" in m && m["key"].JString?
        then Authorized(m["presignedUrl"].s, m["key"].s)
        else AuthThrew
      case _ => AuthThrew
  }

  /** How removeFile reads the delete reply: only `response.ok` matters. */
  function ReadDeleteReply(reply: Reply): (r: DeleteOutcome)
    ensures r == DeleteOk <==> 200 <= reply.status <= 299
    ensures r != DeleteThrew
    ensures reply.status == 400 || reply.status == 500 ==> r == DeleteNotOk
  {
    if reply.Ok() then DeleteOk else DeleteNotOk
  }

  /** The component's authorization request passes the route's schema unchanged;
      the route presigns a PUT for `<token>-<name>` with the file's type and size,
      and the component reads back that URL and that key. */
  lemma AuthorizationRoundTrip(file: File, token: string, url: string)
    ensures var r := Post(Some(AuthRequestBody(file)), token, Signed(url));
      && r.reply.status == 200
      && r.presigned == Some(Presign(PutObjectCommand(Bucket, UniqueKey(token, file.name), file.contentType,
                                                      file.size as real), ExpiresIn))
      && ReadAuthReply(r.reply) == Authorized(url, UniqueKey(token, file.name))
  {
    ValidateEncodeRoundTrip(UploadRequest(file.name, file.contentType, file.size as real));
  }

  /** A route failure reaches the component as a failed authorization: the record
      is failed at 0% and no bytes are sent. */
  lemma AuthorizationFailureReachesRecord(f: Record, token: string, progress: seq<ProgressEvent>, end: TransferEnd)
    ensures var r := Post(Some(AuthRequestBody(f.file)), token, SignFailed);
      && r.reply.status == 500
      && Settle(f, UploadScript(ReadAuthReply(r.reply), progress, end))
           == f.(uploading := false, progress := 0, error := true)
  {
    ValidateEncodeRoundTrip(UploadRequest(f.file.name, f.file.contentType, f.file.size as real));
  }

  /** A 2 MiB `photo.png`: the key is `<token>-photo.png`; after a final progress
      event with everything sent and a 200, the new record is complete at 100%,
      without error, and holds that key. */
  lemma PhotoScenario(token: string, url: string, id: string, objectUrl: string, ref: nat)
    ensures var file := File(ref, "photo.png", "image/png", 2 * 1024 * 1024);
      var auth := ReadAuthReply(Post(Some(AuthRequestBody(file)), token, Signed(url)).reply);
      var script := UploadScript(auth, [ProgressEvent(file.size, file.size)], Loaded(200));
      var r := Settle(NewRecord(id, file, objectUrl), script);
      && auth == Authorized(url, token + "-photo.png")
      && r.progress == 100 && !r.error && !r.uploading
      && r.key == Some(token + "-photo.png")
  {
    var file := File(ref, "photo.png", "image/png", 2 * 1024 * 1024);
    AuthorizationRoundTrip(file, token, url);
    var events := [ProgressEvent(file.size, file.size)];
    assert LastComputable(events) == Some(events[0]);
  }

  /** Removing a record that has no key: the request carries no key, the route
      answers 400 without touching storage, and the record stays in place with
      its error flag set. */
  lemma KeylessRemovalIsRejected(files: seq<Record>, id: string, j: int, backend: SendOutcome)
    requires UniqueIds(files)
    requires 0 <= j < |files| && files[j].id == id && files[j].key.None?
    ensures var d := Delete(Some(DeleteRequestBody(FindById(files, id))), backend);
      && d.reply.status == 400 && d.sent.None?
      && var r := RemoveOutcome(files, id, ReadDeleteReply(d.reply));
         |r| == |files| && r[j] == files[j].(isDeleting := false, error := true)
  {
    var target := FindById(files, id);
    var i :| 0 <= i < |files| && files[i] == target.value && target.value.id == id
             && forall k :: 0 <= k < i ==> files[k].id != id;
    assert i == j;
    var d := Delete(Some(DeleteRequestBody(target)), backend);
    DeleteFailureKeepsRecord(files, id, ReadDeleteReply(d.reply));
  }

  /** Removing a record with a key: the route sends one delete command for that key
      in the bucket; if storage accepts it the record disappears and the others
      keep their order. */
  lemma KeyedRemovalDeletes(files: seq<Record>, id: string, j: int, key: string)
    requires UniqueIds(files)
    requires 0 <= j < |files| && files[j].id == id && files[j].key == Some(key) && key != ""
    ensures var d := Delete(Some(DeleteRequestBody(FindById(files, id))), SendOk);
      && d.sent == Some(DeleteObjectCommand(Bucket, key))
      && d.reply.status == 200
      && RemoveOutcome(files, id, ReadDeleteReply(d.reply)) == files[..j] + files[j + 1..]
  {
    var target := FindById(files, id);
    var i :| 0 <= i < |files| && files[i] == target.value && target.value.id == id
             && forall k :: 0 <= k < i ==> files[k].id != id;
    assert i == j;
    DeleteSuccessRemovesExactlyOne(files, id, j);
  }

  /** The key is only stored by a progress event with a computable length, and an
      empty file's upload reports none (its total length is 0). Such an upload
      completes at 100% with no key, so removing it sends no key, the route
      answers 400, and the stored object stays in the bucket. */
  lemma EmptyFileKeepsNoKey(id: string, objectUrl: string, ref: nat, name: string, contentType: string,
                            url: string, key: string, backend: SendOutcome)
    ensures var file := File(ref, name, contentType, 0);
      var script := UploadScript(Authorized(url, key), [ProgressEvent(0, 0)], Loaded(200));
      var r := Settle(NewRecord(id, file, objectUrl), script);
      && r.progress == 100 && !r.error && r.key.None?
      && Delete(Some(DeleteRequestBody(Some(r))), backend).reply.status == 400
  {
    assert LastComputable([ProgressEvent(0, 0)][..0]) == None;
  }
}
