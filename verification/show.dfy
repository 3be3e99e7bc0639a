/** `FilesController.getShow`: one record by id, for its owner. */
module Show {
  import opened Wrappers
  import opened Json
  import opened Store
  import opened Session
  import opened Upload
  import opened UploadProperties

  /** `getShow` as the controller runs it. `findOne` is not awaited, so `file`
      is a pending promise: it is always truthy, the not-found branch is never
      taken, `file.id = file._id` stores `undefined`, and the promise
      serialises as an empty object. (Once awaited, the filter `userId:
      user._id` would compare the stored string with an ObjectId.) */
  function GetShowAsWritten(s: Store, token: Option<string>, id: Id): (r: Response)
    ensures Resolve(s.cache, s.users, token).None? ==> r == Reply(200, Error("Unauthorized"))
    ensures Resolve(s.cache, s.users, token).Some? ==> r == Reply(200, FileEnvelope(map[]))
    ensures r.Reply? && r.status != 404
  {
    match Resolve(s.cache, s.users, token)
    case None => Reply(200, Error("Unauthorized"))
    case Some(_) => Reply(200, FileEnvelope(map[]))
  }

  /** The first record with id `id` owned by `owner` (the owner compared in
      its stored string form). */
  function FindOwned(files: seq<FileRecord>, id: Id, owner: string): (r: Option<FileRecord>)
    ensures r.Some? ==> r.value in files && r.value.id == id && r.value.userId == owner
    ensures r.None? <==> forall i :: 0 <= i < |files| ==> files[i].id != id || files[i].userId != owner
    decreases |files|
  {
    if |files| == 0 then None
    else if files[0].id == id && files[0].userId == owner then Some(files[0])
    else FindOwned(files[1..], id, owner)
  }

  /** `getShow` with the lookup awaited and the owner compared as a string:
      404 when the user owns no record with that id, else the record's public
      view. Unauthenticated requests keep the 200-with-error answer. */
  function GetShow(s: Store, token: Option<string>, id: Id): (r: Response)
    ensures Resolve(s.cache, s.users, token).None? ==> r == Reply(200, Error("Unauthorized"))
    ensures Resolve(s.cache, s.users, token).Some? ==>
              (r == Reply(404, Error("Not found")) <==>
               forall i :: 0 <= i < |s.files| ==> s.files[i].id != id || s.files[i].userId != Resolve(s.cache, s.users, token).value.id)
    ensures Resolve(s.cache, s.users, token).Some? && r != Reply(404, Error("Not found")) ==>
              && r.Reply? && r.status == 200 && r.body.FileEnvelope?
              && "userId" in r.body.file
              && r.body.file["userId"] == Str(Resolve(s.cache, s.users, token).value.id)
    ensures r.Reply? && r.body.FileEnvelope? ==>
              exists i :: 0 <= i < |s.files| && s.files[i].id == id && PublicView(s.files[i], r.body.file)
  {
    match Resolve(s.cache, s.users, token)
    case None => Reply(200, Error("Unauthorized"))
    case Some(user) =>
      match FindOwned(s.files, id, user.id)
      case None => Reply(404, Error("Not found"))
      case Some(f) => Reply(200, FileEnvelope(FileResponse(f)))
  }

  /** The controller as written answers 200 for a well-formed id (24 hex
      digits) that no record has, where the awaited lookup answers 404. */
  lemma ShowAsWrittenNeverNotFound()
    ensures var u := User("5f1e7a2b9c3d4e5f6a7b8c9d", "a@b.com", "digest");
            var s := Store(map["auth_t" := "5f1e7a2b9c3d4e5f6a7b8c9d"], [u], [], Disk({}, map[]), []);
            && GetShowAsWritten(s, Some("t"), "5f1e7a2b9c3d4e5f6a7b8c9e") == Reply(200, FileEnvelope(map[]))
            && GetShow(s, Some("t"), "5f1e7a2b9c3d4e5f6a7b8c9e") == Reply(404, Error("Not found"))
  {
    var u := User("5f1e7a2b9c3d4e5f6a7b8c9d", "a@b.com", "digest");
    var s := Store(map["auth_t" := "5f1e7a2b9c3d4e5f6a7b8c9d"], [u], [], Disk({}, map[]), []);
    assert CacheKey("t") == "auth_t";
    assert Resolve(s.cache, s.users, Some("t")) == Some(u);
  }

  lemma {:induction false} FindOwnedAppend(files: seq<FileRecord>, r: FileRecord, id: Id, owner: string)
    requires FindOwned(files, id, owner).None?
    requires r.id == id && r.userId == owner
    ensures FindOwned(files + [r], id, owner) == Some(r)
    decreases |files|
  {
    if |files| == 0 {
      assert files + [r] == [r];
    } else {
      assert (files + [r])[0] == files[0];
      assert (files + [r])[1..] == files[1..] + [r];
      FindOwnedAppend(files[1..], r, id, owner);
    }
  }

  /** Showing a record just appended with a fresh id yields its public view. */
  lemma ShowAfterInsert(s: Store, t: Store, rec: FileRecord, token: Option<string>)
    requires Resolve(s.cache, s.users, token).Some?
    requires rec.userId == Resolve(s.cache, s.users, token).value.id
    requires FindFile(s.files, rec.id).None?
    requires t.files == s.files + [rec] && t.users == s.users && t.cache == s.cache
    ensures GetShow(t, token, rec.id) == Reply(200, FileEnvelope(FileResponse(rec)))
  {
    FindOwnedAppend(s.files, rec, rec.id, rec.userId);
  }

  /** Upload, then show: the uploader reading the new id gets back the name,
      type, parent and visibility it uploaded, with neither `_id` nor `localPath`. */
  lemma UploadThenShow(s: Store, token: Option<string>, req: UploadRequest, env: Env, decode: string -> Bytes)
    requires Good(s)
    requires FindFile(s.files, env.insertedId).None?
    requires Accepted(s, token, req)
    requires req.fileType == Some("folder") || !env.writeFails
    ensures var t := Apply(s, PostUpload(s, token, req, env, decode).effects);
            var r := GetShow(t, token, env.insertedId);
            && r.Reply? && r.status == 200 && r.body.FileEnvelope?
            && "_id" !in r.body.file && "localPath" !in r.body.file
            && r.body.file.Keys == PublicKeys
            && r.body.file["id"] == Str(env.insertedId)
            && Some(r.body.file["name"]) == (if req.name.Some? then Some(Str(req.name.value)) else None)
            && Some(r.body.file["type"]) == (if req.fileType.Some? then Some(Str(req.fileType.value)) else None)
            && r.body.file["parentId"] == (if Truthy(req.parentId) then Str(req.parentId.value) else Num(0))
            && r.body.file["isPublic"] == Bool(req.isPublic == Some(true))
  {
    var rec := UploadedRecord(s, token, req, env, decode);
    var t := Apply(s, PostUpload(s, token, req, env, decode).effects);
    ShowAfterInsert(s, t, rec, token);
    var d := FileResponse(rec);
    assert PublicView(rec, d);
  }

  /** Upload, then show: the uploader reading the new id gets back exactly the
      object the upload answered with. */
  lemma ShowReturnsUploadAnswer(s: Store, token: Option<string>, req: UploadRequest, env: Env, decode: string -> Bytes)
    requires Good(s)
    requires FindFile(s.files, env.insertedId).None?
    requires Accepted(s, token, req)
    requires req.fileType == Some("folder") || !env.writeFails
    ensures PostUpload(s, token, req, env, decode).reply.Reply?
    ensures PostUpload(s, token, req, env, decode).reply.body.Object?
    ensures GetShow(Apply(s, PostUpload(s, token, req, env, decode).effects), token, env.insertedId)
            == Reply(200, FileEnvelope(PostUpload(s, token, req, env, decode).reply.body.doc))
  {
    var rec := UploadedRecord(s, token, req, env, decode);
    var t := Apply(s, PostUpload(s, token, req, env, decode).effects);
    ShowAfterInsert(s, t, rec, token);
    var r: FileRecord;
    if req.fileType == Some("folder") {
      r := UploadFolder(s, token, req, env, decode);
    } else {
      r := UploadFileOrImage(s, token, req, env, decode);
    }
    var doc := PostUpload(s, token, req, env, decode).reply.body.doc;
    assert TypeName(r.fileType) == TypeName(rec.fileType);
    assert PublicView(rec, doc);
    PublicViewUnique(rec, doc, FileResponse(rec));
  }
}
