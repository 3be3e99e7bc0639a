/** `FilesController.postUpload` and `writeToFile`: authenticate, validate
    (first failure wins), build the record with its defaults, then either
    insert a folder, or write the decoded bytes, insert the record and, for an
    image, enqueue a thumbnail job. */
module Upload {
  import opened Wrappers
  import opened Json
  import opened Store
  import opened Session

  /** The fields of the request body the controller reads. */
  datatype UploadRequest = UploadRequest(
    name: Option<string>,
    fileType: Option<string>,
    parentId: Option<string>,
    isPublic: Option<bool>,
    data: Option<string>)

  /** What the environment decides for one request: `process.env.FOLDER_PATH`,
      the name `uuidv4()` generates, the id the `files` collection assigns to
      the insert, and whether `fs.promises.writeFile` fails. */
  datatype Env = Env(folderPath: Option<string>, uuid: string, insertedId: Id, writeFails: bool)

  const DefaultFolder: string := "/tmp/files_manager"

  /** The storage root: `FOLDER_PATH` unless unset or empty. */
  function StorageRoot(env: Env): string
  {
    if Truthy(env.folderPath) then env.folderPath.value else DefaultFolder
  }

  /** `path.join(dir, name)` for a plain file name: exactly one separator between the two. */
  function JoinPath(dir: string, name: string): (p: string)
    ensures p == dir + name || p == dir + "/" + name
    ensures (|dir| > 0 && dir[|dir| - 1] == '/') <==> p == dir + name
    ensures |dir| <= |p| && p[..|dir|] == dir
  {
    if |dir| > 0 && dir[|dir| - 1] == '/' then dir + name else dir + "/" + name
  }

  /** `pathExists`: anything at that path, a directory or a file. */
  predicate PathExists(disk: Disk, p: string)
  {
    p in disk.dirs || p in disk.contents
  }

  /** Every rule the request breaks, in the order the controller tests them. */
  function Violations(files: seq<FileRecord>, req: UploadRequest): seq<string>
  {
    var parentMissing := Truthy(req.parentId) && FindFile(files, req.parentId.value).None?;
    var parentNotFolder := Truthy(req.parentId) && FindFile(files, req.parentId.value).Some?
                           && FindFile(files, req.parentId.value).value.fileType != Folder;
    (if !Truthy(req.name) then ["Missing name"] else [])
    + (if !Truthy(req.fileType) || ParseType(req.fileType.value).None? then ["Missing type"] else [])
    + (if !Truthy(req.data) && req.fileType != Some("folder") then ["Missing data"] else [])
    + (if parentMissing then ["Parent not found"] else [])
    + (if parentNotFolder then ["Parent is not a folder"] else [])
  }

  /** A request that passed validation. */
  datatype Checked = Checked(name: string, fileType: FileType, parent: ParentRef)

  /** The controller's checks, each returning at once. The error is the first
      rule the request breaks; on success `parentId` is defaulted to the root
      and a non-root parent is an existing folder. */
  function Validate(files: seq<FileRecord>, req: UploadRequest): (r: Result<Checked>)
    ensures r.Failure? <==> |Violations(files, req)| > 0
    ensures r.Failure? ==> r.error == Violations(files, req)[0]
    ensures r.Success? ==> && req.name == Some(r.value.name)
                           && req.fileType == Some(TypeName(r.value.fileType))
                           && (r.value.fileType != Folder ==> Truthy(req.data))
                           && r.value.parent == (if Truthy(req.parentId) then Parent(req.parentId.value) else Root)
                           && (r.value.parent.Parent? ==> IsFolderId(files, r.value.parent.id))
  {
    if !Truthy(req.name) then Failure("Missing name")
    else if !Truthy(req.fileType) || ParseType(req.fileType.value).None? then Failure("Missing type")
    else if !Truthy(req.data) && req.fileType.value != "folder" then Failure("Missing data")
    else if Truthy(req.parentId) && FindFile(files, req.parentId.value).None? then Failure("Parent not found")
    else if Truthy(req.parentId) && FindFile(files, req.parentId.value).value.fileType != Folder then
      Failure("Parent is not a folder")
    else
      var parent := if Truthy(req.parentId) then Parent(req.parentId.value) else Root;
      Success(Checked(req.name.value, ParseType(req.fileType.value).value, parent))
  }

  /** The `fileData` object, with the id the insert assigns and, for a file or
      an image, the generated `localPath`. */
  function NewRecord(c: Checked, req: UploadRequest, user: User, env: Env): (r: FileRecord)
    ensures r.id == env.insertedId && r.userId == user.id
    ensures r.name == c.name && r.fileType == c.fileType && r.parentId == c.parent
    ensures r.isPublic <==> req.isPublic == Some(true)
    ensures r.localPath.None? <==> c.fileType == Folder
    ensures r.localPath.Some? ==> r.localPath.value == JoinPath(StorageRoot(env), env.uuid)
  {
    FileRecord(
      env.insertedId,
      c.name,
      c.fileType,
      c.parent,
      req.isPublic == Some(true),
      user.id,
      if c.fileType == Folder then None else Some(JoinPath(StorageRoot(env), env.uuid)))
  }

  /** The folder branch's answer: `id` added, `_id` deleted. */
  function FolderResponse(r: FileRecord): (d: Doc)
    requires r.localPath.None?
    ensures PublicView(r, d)
  {
    RecordDoc(r)["id" := Str(r.id)] - {"_id"}
  }

  /** `writeToFile`'s answer: `id` added, `_id` and `localPath` deleted. */
  function FileResponse(r: FileRecord): (d: Doc)
    ensures PublicView(r, d)
  {
    RecordDoc(r)["id" := Str(r.id)] - {"_id", "localPath"}
  }

  /** `writeToFile`: bytes first; when that fails the promise rejects before
      anything is inserted. Then the insert, then (for an image) the job. */
  function WriteToFile(path: string, bytes: Bytes, r: FileRecord, writeFails: bool): (o: Outcome)
    ensures writeFails ==> o == Outcome(Rejected, [])
    ensures !writeFails ==>
              && |o.effects| >= 2
              && o.effects[0] == WriteBytes(path, bytes)
              && o.effects[1] == InsertFile(r)
              && o.effects[2..] == (if r.fileType == Image then [Enqueue(Job(r.userId, r.id))] else [])
              && o.reply.Reply? && o.reply.status == 201 && o.reply.body.Object?
              && PublicView(r, o.reply.body.doc)
  {
    if writeFails then Outcome(Rejected, [])
    else
      var job := if r.fileType == Image then [Enqueue(Job(r.userId, r.id))] else [];
      Outcome(Reply(201, Object(FileResponse(r))), [WriteBytes(path, bytes), InsertFile(r)] + job)
  }

  /** The request is authenticated and breaks no rule. */
  predicate Accepted(s: Store, token: Option<string>, req: UploadRequest)
  {
    Resolve(s.cache, s.users, token).Some? && |Violations(s.files, req)| == 0
  }

  /** `postUpload`. The bytes are `decode(data)`, the base64 decoding. */
  function PostUpload(s: Store, token: Option<string>, req: UploadRequest, env: Env, decode: string -> Bytes): (o: Outcome)
    ensures Resolve(s.cache, s.users, token).None? ==> o == Outcome(Reply(401, Error("Unauthorized")), [])
    ensures Resolve(s.cache, s.users, token).Some? && |Violations(s.files, req)| > 0 ==>
              o == Outcome(Reply(400, Error(Violations(s.files, req)[0])), [])
    ensures Accepted(s, token, req) ==> o.reply == Rejected || (o.reply.Reply? && o.reply.status == 201)
    ensures o.reply == Rejected ==> Accepted(s, token, req) && env.writeFails
  {
    match Resolve(s.cache, s.users, token)
    case None => Outcome(Reply(401, Error("Unauthorized")), [])
    case Some(user) =>
      match Validate(s.files, req)
      case Failure(msg) => Outcome(Reply(400, Error(msg)), [])
      case Success(c) =>
        var r := NewRecord(c, req, user, env);
        if c.fileType == Folder then
          Outcome(Reply(201, Object(FolderResponse(r))), [InsertFile(r)])
        else
          var root := StorageRoot(env);
          var prepare := if PathExists(s.disk, root) then [] else [MakeDir(root)];
          var w := WriteToFile(r.localPath.value, decode(req.data.value), r, env.writeFails);
          Outcome(w.reply, prepare + w.effects)
  }
}
