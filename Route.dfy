/** The server side of the uploader: the `/api/file-uploader` route, which issues a
    presigned PUT URL for a new object (POST) and deletes an object by key (DELETE).

    The route is stateless. The random token that uuidv4() returns, the presigner's
    outcome and the storage backend's outcome are parameters; each operation returns
    the HTTP reply together with the storage command it handed to the backend, if any. */
module UploadRoute {
  import opened Json

  /** The bucket every command targets. */
  const Bucket: string := "shooting-images"
  /** Lifetime, in seconds, of a presigned upload URL. */
  const ExpiresIn: int := 3600

  /** The fields of a body that `uploadRequestSchema` accepts. */
  datatype UploadRequest = UploadRequest(filename: string, contentType: string, size: real)

  datatype PutObjectCommand = PutObjectCommand(bucket: string, key: string, contentType: string, contentLength: real)
  /** The arguments of one getSignedUrl call. */
  datatype Presign = Presign(command: PutObjectCommand, expiresIn: int)
  /** What getSignedUrl did: resolved with a URL, or threw. */
  datatype Signing = Signed(url: string) | SignFailed

  datatype DeleteObjectCommand = DeleteObjectCommand(bucket: string, key: string)
  /** What `S3.send` of a delete command did: resolved, or threw. */
  datatype SendOutcome = SendOk | SendFailed

  datatype PostResult = PostResult(reply: Reply, presigned: Option<Presign>)
  datatype DeleteResult = DeleteResult(reply: Reply, sent: Option<DeleteObjectCommand>)

  function ErrorBody(message: string): Json {
    JObject(map["error" := JString(message)])
  }

  /** The JSON body of a successful POST reply. */
  function AuthorizationBody(presignedUrl: string, key: string): Json {
    JObject(map["presignedUrl" := JString(presignedUrl), "key" := JString(key)])
  }

  /** The body the uploader sends to ask for an upload URL. */
  function EncodeUploadRequest(req: UploadRequest): Json {
    JObject(map["filename" := JString(req.filename), "contentType" := JString(req.contentType),
                "size" := JNumber(req.size)])
  }

  /** `uploadRequestSchema.safeParse`: an object whose `filename` and `contentType`
      are strings and whose `size` is a number; other members are ignored. No
      string is required to be non-empty and no number to be non-negative. */
  function ValidateUploadRequest(body: Json): (r: Option<UploadRequest>)
    ensures r.Some? <==>
      && body.JObject?
      && "filename" in body.members && body.members["filename"].JString?
      && "contentType" in body.members && body.members["contentType"].JString?
      && "size" in body.members && body.members["size"].JNumber?
    ensures r.Some? ==>
      && r.value.filename == body.members["filename"].s
      && r.value.contentType == body.members["contentType"].s
      && r.value.size == body.members["size"].n
  {
    match body
    case JObject(m) =>
      if && "filename" in m && m["filename"].JString?
         && "contentType" in m && m["contentType"].JString?
         && "size" in m && m["size"].JNumber?
      then Some(UploadRequest(m["filename"].s, m["contentType"].s, m["size"].n))
      else None
    case _ => None
  }

  /** The object key `${token}-${filename}`: the token, one dash, then the
      filename unchanged. */
  function UniqueKey(token: string, filename: string): (k: string)
    ensures |k| == |token| + 1 + |filename|
    ensures k[..|token|] == token && k[|token|] == '-' && k[|token| + 1..] == filename
  {
    token + "-" + filename
  }

  /** POST: parse the body, validate it, build the key, presign a PUT for it. */
  function Post(body: Body, token: string, signing: Signing): (r: PostResult)
    // A body that is not JSON throws inside the try block: 500, nothing presigned.
    ensures body.None? ==> r == PostResult(Reply(500, ErrorBody("Failed to generate upload URL")), None)
    // A body that fails the schema: 400, nothing presigned.
    ensures body.Some? && ValidateUploadRequest(body.value).None? ==>
      r == PostResult(Reply(400, ErrorBody("Invalid request body")), None)
    // A valid body: exactly one presign call, for the generated key in the fixed bucket.
    ensures body.Some? && ValidateUploadRequest(body.value).Some? ==>
      var req := ValidateUploadRequest(body.value).value;
      && r.presigned == Some(Presign(PutObjectCommand(Bucket, UniqueKey(token, req.filename),
                                                      req.contentType, req.size), ExpiresIn))
      && r.reply == (match signing
                     case Signed(url) => Reply(200, AuthorizationBody(url, UniqueKey(token, req.filename)))
                     case SignFailed => Reply(500, ErrorBody("Failed to generate upload URL")))
  {
    match body
    case None => PostResult(Reply(500, ErrorBody("Failed to generate upload URL")), None)
    case Some(json) =>
      match ValidateUploadRequest(json)
      case None => PostResult(Reply(400, ErrorBody("Invalid request body")), None)
      case Some(req) =>
        var uniqueKey := UniqueKey(token, req.filename);
        var command := PutObjectCommand(Bucket, uniqueKey, req.contentType, req.size);
        var presign := Some(Presign(command, ExpiresIn));
        match signing
        case Signed(url) => PostResult(Reply(200, AuthorizationBody(url, uniqueKey)), presign)
        case SignFailed => PostResult(Reply(500, ErrorBody("Failed to generate upload URL")), presign)
  }

  /** The DELETE route's key check: `body.key` must be a non-empty string. `None`
      also for a `null` body, where reading `body.key` throws instead. */
  function RequestedKey(body: Json): (r: Option<string>)
    ensures r.Some? <==> body.JObject? && "key" in body.members && body.members["key"].JString?
                         && body.members["key"].s != ""
    ensures r.Some? ==> r.value == body.members["key"].s && r.value != ""
  {
    match GetMember(body, "key")
    case Defined(JString(key)) => if key != "" then Some(key) else None
    case _ => None
  }

  /** DELETE: parse the body, check the key, send one delete command for it. */
  function Delete(body: Body, backend: SendOutcome): (r: DeleteResult)
    // Exactly one delete command is sent, for the requested key, iff that key is valid.
    ensures r.sent.Some? <==> body.Some? && RequestedKey(body.value).Some?
    ensures r.sent.Some? ==> r.sent.value == DeleteObjectCommand(Bucket, RequestedKey(body.value).value)
    // A missing, empty or non-string key: 400. A `null` body throws on `body.key`: 500.
    ensures r.reply.status == 400 <==> body.Some? && !body.value.JNull? && RequestedKey(body.value).None?
    ensures r.reply.status == 400 ==> r.reply.body == ErrorBody("Missing or invalid object key.")
    ensures r.reply.status == 200 <==> r.sent.Some? && backend.SendOk?
    ensures r.reply.status == 200 ==> r.reply.body == JObject(map["message" := JString("File deleted successfully")])
    ensures r.reply.status in {200, 400, 500}
    ensures r.reply.status == 500 ==> r.reply.body == ErrorBody("Failed to delete file.")
  {
    match body
    case None => DeleteResult(Reply(500, ErrorBody("Failed to delete file.")), None)
    case Some(json) =>
      if GetMember(json, "key").Threw? then
        DeleteResult(Reply(500, ErrorBody("Failed to delete file.")), None)
      else
        match RequestedKey(json)
        case None => DeleteResult(Reply(400, ErrorBody("Missing or invalid object key.")), None)
        case Some(key) =>
          var command := DeleteObjectCommand(Bucket, key);
          match backend
          case SendOk => DeleteResult(Reply(200, JObject(map["message" := JString("File deleted successfully")])), Some(command))
          case SendFailed => DeleteResult(Reply(500, ErrorBody("Failed to delete file.")), Some(command))
  }

  // ---------------------------------------------------------------------------
  // Properties

  /** The body the uploader builds always passes the schema, unchanged. */
  lemma ValidateEncodeRoundTrip(req: UploadRequest)
    ensures ValidateUploadRequest(EncodeUploadRequest(req)) == Some(req)
  {
  }

  /** The schema constrains only types: empty strings and a negative size pass. */
  lemma SchemaAcceptsEmptyAndNegative()
    ensures ValidateUploadRequest(EncodeUploadRequest(UploadRequest("", "", -1.0))).Some?
  {
    ValidateEncodeRoundTrip(UploadRequest("", "", -1.0));
  }

  /** Two different tokens never give the same key, even for the same filename. */
  lemma DistinctTokensDistinctKeys(t1: string, t2: string, filename: string)
    requires t1 != t2
    ensures UniqueKey(t1, filename) != UniqueKey(t2, filename)
  {
  }

  /** The filename can be read back from a key once the token is known. */
  lemma KeyDeterminesFilename(token: string, f1: string, f2: string)
    requires UniqueKey(token, f1) == UniqueKey(token, f2)
    ensures f1 == f2
  {
  }

  /** Pairwise distinct tokens give pairwise distinct keys across a whole batch,
      whatever the filenames. */
  lemma BatchKeysDistinct(tokens: seq<string>, filenames: seq<string>, i: int, j: int)
    requires |tokens| == |filenames|
    requires forall a, b :: 0 <= a < b < |tokens| ==> tokens[a] != tokens[b]
    requires forall a :: 0 <= a < |tokens| ==> |tokens[a]| == 36
    requires 0 <= i < j < |tokens|
    ensures UniqueKey(tokens[i], filenames[i]) != UniqueKey(tokens[j], filenames[j])
  {
  }

  /** The key returned to the client is exactly the key in the presigned command. */
  lemma PostReturnsPresignedKey(body: Body, token: string, signing: Signing)
    requires Post(body, token, signing).reply.status == 200
    ensures var r := Post(body, token, signing);
      && r.presigned.Some?
      && r.presigned.value.command.bucket == Bucket
      && r.presigned.value.expiresIn == ExpiresIn
      && signing.Signed?
      && r.reply.body == AuthorizationBody(signing.url, r.presigned.value.command.key)
  {
  }

  /** Whatever throws inside POST (the body parse or the signer) ends in a 500. */
  lemma PostFailuresAreServerErrors(body: Body, token: string, signing: Signing)
    requires body.None? || (ValidateUploadRequest(body.value).Some? && signing.SignFailed?)
    ensures Post(body, token, signing).reply.status == 500
  {
  }
}
