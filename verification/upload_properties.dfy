/** What an upload does to the stores, stated over its effect trace: which
    effects happen, in what order, and that the data-model invariants survive. */
module UploadProperties {
  import opened Wrappers
  import opened Json
  import opened Store
  import opened Session
  import opened Upload

  /** The records a trace inserts into `files`, in order. */
  function Inserted(es: seq<Effect>): (rs: seq<FileRecord>)
    ensures |rs| <= |es|
    decreases |es|
  {
    if |es| == 0 then []
    else (if es[0].InsertFile? then [es[0].record] else []) + Inserted(es[1..])
  }

  /** The jobs a trace adds to `fileQueue`, in order. */
  function Jobs(es: seq<Effect>): (js: seq<Job>)
    ensures |js| <= |es|
    decreases |es|
  {
    if |es| == 0 then []
    else (if es[0].Enqueue? then [es[0].job] else []) + Jobs(es[1..])
  }

  lemma {:induction false} InsertedAppend(a: seq<Effect>, b: seq<Effect>)
    ensures Inserted(a + b) == Inserted(a) + Inserted(b)
    decreases |a|
  {
    if |a| == 0 {
      assert a + b == b;
    } else {
      assert (a + b)[0] == a[0];
      assert (a + b)[1..] == a[1..] + b;
      InsertedAppend(a[1..], b);
    }
  }

  lemma {:induction false} JobsAppend(a: seq<Effect>, b: seq<Effect>)
    ensures Jobs(a + b) == Jobs(a) + Jobs(b)
    decreases |a|
  {
    if |a| == 0 {
      assert a + b == b;
    } else {
      assert (a + b)[0] == a[0];
      assert (a + b)[1..] == a[1..] + b;
      JobsAppend(a[1..], b);
    }
  }

  /** `r` is the record the request asks for: the assigned id, the given name
      and type, `parentId` defaulted to the root (0), `isPublic` defaulted to
      false, and the owner's id as `userId`. */
  predicate Describes(r: FileRecord, owner: User, req: UploadRequest, env: Env)
  {
    && r.id == env.insertedId
    && req.name == Some(r.name)
    && req.fileType == Some(TypeName(r.fileType))
    && r.parentId == (if Truthy(req.parentId) then Parent(req.parentId.value) else Root)
    && r.isPublic == (req.isPublic == Some(true))
    && r.userId == owner.id
  }

  /** Every inserted record that has a `localPath` was preceded by a write of bytes to it. */
  predicate WrittenBeforeInserted(es: seq<Effect>)
  {
    forall i :: 0 <= i < |es| && es[i].InsertFile? && es[i].record.localPath.Some? ==>
      exists j :: 0 <= j < i && es[j].WriteBytes? && es[j].path == es[i].record.localPath.value
  }

  predicate Created(o: Outcome)
  {
    o.reply.Reply? && o.reply.status == 201
  }

  /** A folder upload inserts exactly one record, without `localPath`, writes
      nothing and answers 201 with the record's public view. */
  lemma UploadFolder(s: Store, token: Option<string>, req: UploadRequest, env: Env, decode: string -> Bytes)
    returns (r: FileRecord)
    requires Accepted(s, token, req) && req.fileType == Some("folder")
    ensures PostUpload(s, token, req, env, decode).effects == [InsertFile(r)]
    ensures Describes(r, Resolve(s.cache, s.users, token).value, req, env)
    ensures r.localPath.None?
    ensures Created(PostUpload(s, token, req, env, decode))
    ensures PostUpload(s, token, req, env, decode).reply.body.Object?
    ensures PublicView(r, PostUpload(s, token, req, env, decode).reply.body.doc)
  {
    r := NewRecord(Validate(s.files, req).value, req, Resolve(s.cache, s.users, token).value, env);
  }

  /** The job an inserted record calls for: one for an image, none otherwise. */
  function JobFor(r: FileRecord): seq<Effect>
  {
    if r.fileType == Image then [Enqueue(Job(r.userId, r.id))] else []
  }

  /** The directory creation that precedes a write: none when something is
      already at the storage root. */
  function Prepare(s: Store, env: Env): (p: seq<Effect>)
    ensures forall i :: 0 <= i < |p| ==> p[i] == MakeDir(StorageRoot(env))
    ensures |p| <= 1 && (p == [] <==> PathExists(s.disk, StorageRoot(env)))
  {
    if PathExists(s.disk, StorageRoot(env)) then [] else [MakeDir(StorageRoot(env))]
  }

  /** Where a file's bytes go: the storage root joined with the generated name. */
  function StoredPath(env: Env): string
  {
    JoinPath(StorageRoot(env), env.uuid)
  }

  /** A file or image upload: make the storage root if nothing is there, write
      the decoded bytes under a generated name that ignores `name`, then insert
      the record with that `localPath`, then enqueue one job for an image. A
      failed write rejects with nothing inserted or enqueued. */
  lemma UploadFileOrImage(s: Store, token: Option<string>, req: UploadRequest, env: Env, decode: string -> Bytes)
    returns (r: FileRecord)
    requires Accepted(s, token, req) && req.fileType != Some("folder")
    ensures env.writeFails ==> PostUpload(s, token, req, env, decode) == Outcome(Rejected, Prepare(s, env))
    ensures !env.writeFails ==>
              PostUpload(s, token, req, env, decode).effects ==
              Prepare(s, env) + [WriteBytes(StoredPath(env), decode(req.data.value)), InsertFile(r)] + JobFor(r)
    ensures Describes(r, Resolve(s.cache, s.users, token).value, req, env)
    ensures r.fileType != Folder && r.localPath == Some(StoredPath(env))
    ensures !env.writeFails ==> Created(PostUpload(s, token, req, env, decode))
    ensures !env.writeFails ==> PostUpload(s, token, req, env, decode).reply.body.Object?
    ensures !env.writeFails ==> PublicView(r, PostUpload(s, token, req, env, decode).reply.body.doc)
  {
    var c := Validate(s.files, req).value;
    assert c.fileType != Folder;
    r := NewRecord(c, req, Resolve(s.cache, s.users, token).value, env);
    if !env.writeFails {
      var o := PostUpload(s, token, req, env, decode);
      assert o.effects == Prepare(s, env) + ([WriteBytes(StoredPath(env), decode(req.data.value)), InsertFile(r)] + JobFor(r));
    }
  }

  lemma {:induction false} InsertedNone(es: seq<Effect>)
    requires forall i :: 0 <= i < |es| ==> !es[i].InsertFile?
    ensures Inserted(es) == []
    decreases |es|
  {
    if |es| > 0 {
      InsertedNone(es[1..]);
    }
  }

  lemma {:induction false} JobsNone(es: seq<Effect>)
    requires forall i :: 0 <= i < |es| ==> !es[i].Enqueue?
    ensures Jobs(es) == []
    decreases |es|
  {
    if |es| > 0 {
      JobsNone(es[1..]);
    }
  }

  /** The record is the one insert of a file trace. */
  lemma FileTraceInserts(prepare: seq<Effect>, w: Effect, r: FileRecord)
    requires forall i :: 0 <= i < |prepare| ==> prepare[i].MakeDir?
    requires w.WriteBytes?
    ensures Inserted(prepare + [w, InsertFile(r)] + JobFor(r)) == [r]
  {
    var mid := [w, InsertFile(r)];
    InsertedAppend(prepare + mid, JobFor(r));
    InsertedAppend(prepare, mid);
    InsertedNone(prepare);
    InsertedNone(JobFor(r));
    assert mid[1..] == [InsertFile(r)];
    assert [InsertFile(r)][1..] == [];
  }

  /** The record's job, if any, is the one job of a file trace. */
  lemma FileTraceJobs(prepare: seq<Effect>, w: Effect, r: FileRecord)
    requires forall i :: 0 <= i < |prepare| ==> prepare[i].MakeDir?
    requires w.WriteBytes?
    ensures Jobs(prepare + [w, InsertFile(r)] + JobFor(r)) == if r.fileType == Image then [Job(r.userId, r.id)] else []
  {
    var mid := [w, InsertFile(r)];
    var tail := JobFor(r);
    JobsAppend(prepare + mid, tail);
    JobsAppend(prepare, mid);
    JobsNone(prepare);
    JobsNone(mid);
    assert Jobs(prepare + mid) == [];
    if r.fileType == Image {
      assert tail[1..] == [];
      assert Jobs(tail) == [Job(r.userId, r.id)];
    } else {
      assert Jobs(tail) == [];
    }
  }

  /** `es'` is `es` with every inserted record renamed to `name'`. */
  predicate RenamedTrace(es: seq<Effect>, es': seq<Effect>, name': string)
  {
    && |es'| == |es|
    && forall i :: 0 <= i < |es| ==>
         es'[i] == if es[i].InsertFile? then InsertFile(es[i].record.(name := name')) else es[i]
  }

  /** Renaming the record in a file trace renames it in the insert and nowhere else. */
  lemma RenamedFileTrace(prepare: seq<Effect>, w: Effect, r: FileRecord, name': string)
    requires w.WriteBytes?
    requires forall i :: 0 <= i < |prepare| ==> prepare[i].MakeDir?
    ensures RenamedTrace(prepare + [w, InsertFile(r)] + JobFor(r), prepare + [w, InsertFile(r.(name := name'))] + JobFor(r), name')
  {
    var es := prepare + [w, InsertFile(r)] + JobFor(r);
    var es' := prepare + [w, InsertFile(r.(name := name'))] + JobFor(r);
    forall i | 0 <= i < |es|
      ensures es'[i] == if es[i].InsertFile? then InsertFile(es[i].record.(name := name')) else es[i]
    {
      if i < |prepare| {
        assert es[i] == prepare[i] && es'[i] == prepare[i];
      } else if i > |prepare| + 1 {
        assert es[i] == JobFor(r)[i - |prepare| - 2] && es'[i] == es[i];
      }
    }
  }

  /** In a file trace the one insert comes right after the write to its `localPath`. */
  lemma FileTraceWritesFirst(prepare: seq<Effect>, path: string, bytes: Bytes, r: FileRecord)
    requires forall i :: 0 <= i < |prepare| ==> prepare[i].MakeDir?
    requires r.localPath == Some(path)
    ensures WrittenBeforeInserted(prepare + [WriteBytes(path, bytes), InsertFile(r)] + JobFor(r))
  {
    var es := prepare + [WriteBytes(path, bytes), InsertFile(r)] + JobFor(r);
    var k := |prepare|;
    assert es[k] == WriteBytes(path, bytes) && es[k + 1] == InsertFile(r);
    forall i | 0 <= i < |es| && i != k + 1
      ensures !es[i].InsertFile?
    {
      if i < k {
        assert es[i] == prepare[i];
      } else if i > k + 1 {
        assert es[i] == JobFor(r)[i - k - 2];
      }
    }
  }

  /** In every upload, bytes are written before a record pointing at them is inserted. */
  lemma UploadWritesBeforeInsert(s: Store, token: Option<string>, req: UploadRequest, env: Env, decode: string -> Bytes)
    ensures WrittenBeforeInserted(PostUpload(s, token, req, env, decode).effects)
  {
    if Accepted(s, token, req) {
      if req.fileType == Some("folder") {
        var r := UploadFolder(s, token, req, env, decode);
      } else {
        var r := UploadFileOrImage(s, token, req, env, decode);
        if !env.writeFails {
          FileTraceWritesFirst(Prepare(s, env), StoredPath(env), decode(req.data.value), r);
        }
      }
    }
  }

  /** Exactly one record is inserted when the upload answers 201, none
      otherwise; the 201 body is that record's public view. */
  lemma UploadInsertsOnce(s: Store, token: Option<string>, req: UploadRequest, env: Env, decode: string -> Bytes)
    ensures |Inserted(PostUpload(s, token, req, env, decode).effects)| ==
              (if Created(PostUpload(s, token, req, env, decode)) then 1 else 0)
    ensures Created(PostUpload(s, token, req, env, decode)) ==>
              && PostUpload(s, token, req, env, decode).reply.body.Object?
              && PublicView(Inserted(PostUpload(s, token, req, env, decode).effects)[0],
                            PostUpload(s, token, req, env, decode).reply.body.doc)
  {
    var o := PostUpload(s, token, req, env, decode);
    if Accepted(s, token, req) {
      if req.fileType == Some("folder") {
        var r := UploadFolder(s, token, req, env, decode);
        assert [InsertFile(r)][1..] == [];
        assert Inserted(o.effects) == [r];
      } else {
        var r := UploadFileOrImage(s, token, req, env, decode);
        if !env.writeFails {
          FileTraceInserts(Prepare(s, env), WriteBytes(StoredPath(env), decode(req.data.value)), r);
        } else {
          InsertedNone(o.effects);
        }
      }
    }
  }

  /** Exactly one job `{userId, fileId}` is enqueued for a created image; none
      for a file, a folder or a failed upload. */
  lemma UploadEnqueuesOnlyImages(s: Store, token: Option<string>, req: UploadRequest, env: Env, decode: string -> Bytes)
    ensures Jobs(PostUpload(s, token, req, env, decode).effects) ==
              if Created(PostUpload(s, token, req, env, decode)) && req.fileType == Some("image")
              then [Job(Resolve(s.cache, s.users, token).value.id, env.insertedId)]
              else []
  {
    var o := PostUpload(s, token, req, env, decode);
    if Accepted(s, token, req) {
      if req.fileType == Some("folder") {
        var r := UploadFolder(s, token, req, env, decode);
        assert [InsertFile(r)][1..] == [];
        assert Jobs(o.effects) == [];
      } else {
        var r := UploadFileOrImage(s, token, req, env, decode);
        if !env.writeFails {
          FileTraceJobs(Prepare(s, env), WriteBytes(StoredPath(env), decode(req.data.value)), r);
          assert r.fileType == Image <==> req.fileType == Some("image");
        } else {
          JobsNone(o.effects);
        }
      }
    }
  }

  /** The name takes part in validation only through its presence. */
  lemma ViolationsIgnoreName(files: seq<FileRecord>, req: UploadRequest, name': string)
    requires Truthy(req.name) && name' != ""
    ensures Violations(files, req.(name := Some(name'))) == Violations(files, req)
  {
  }

  /** Renaming the upload changes nothing but the inserted record's `name`:
      the bytes go to the same generated path and the same job is enqueued. */
  lemma LocalPathIgnoresName(s: Store, token: Option<string>, req: UploadRequest, name': string, env: Env, decode: string -> Bytes)
    requires Accepted(s, token, req) && req.fileType != Some("folder") && !env.writeFails
    requires name' != ""
    ensures RenamedTrace(PostUpload(s, token, req, env, decode).effects,
                         PostUpload(s, token, req.(name := Some(name')), env, decode).effects, name')
  {
    var req' := req.(name := Some(name'));
    ViolationsIgnoreName(s.files, req, name');
    var r := UploadFileOrImage(s, token, req, env, decode);
    var r' := UploadFileOrImage(s, token, req', env, decode);
    assert r.fileType == r'.fileType by {
      assert TypeName(r.fileType) == TypeName(r'.fileType);
    }
    assert r' == r.(name := name');
    RenamedFileTrace(Prepare(s, env), WriteBytes(StoredPath(env), decode(req.data.value)), r, name');
  }

  /** Creating the storage root keeps the invariants and leaves something at the root. */
  lemma ApplyPrepare(s: Store, env: Env)
    requires Good(s)
    ensures Good(Apply(s, Prepare(s, env)))
    ensures PathExists(Apply(s, Prepare(s, env)).disk, StorageRoot(env))
    ensures Apply(s, Prepare(s, env)).files == s.files
    ensures Apply(s, Prepare(s, env)).users == s.users
  {
    if Prepare(s, env) != [] {
      ApplySingle(s, MakeDir(StorageRoot(env)));
      DiskStepKeepsGood(s, MakeDir(StorageRoot(env)));
    }
  }

  /** The store after a write, an insert and the record's job, step by step. */
  lemma ApplyWriteInsertSteps(s: Store, path: string, bytes: Bytes, r: FileRecord)
    ensures Apply(s, [WriteBytes(path, bytes), InsertFile(r)] + JobFor(r)) ==
              var t := Step(Step(s, WriteBytes(path, bytes)), InsertFile(r));
              if r.fileType == Image then Step(t, Enqueue(Job(r.userId, r.id))) else t
  {
    var w := WriteBytes(path, bytes);
    var s2 := Step(s, w);
    assert [w, InsertFile(r)] + JobFor(r) == [w] + ([InsertFile(r)] + JobFor(r));
    ApplyCons(s, w, [InsertFile(r)] + JobFor(r));
    ApplyCons(s2, InsertFile(r), JobFor(r));
    if r.fileType == Image {
      ApplySingle(Step(s2, InsertFile(r)), Enqueue(Job(r.userId, r.id)));
    }
  }

  /** Writing the bytes, inserting the record and enqueuing its job keeps the
      invariants, leaves the bytes at the path and appends the record. */
  lemma ApplyWriteInsert(s: Store, path: string, bytes: Bytes, r: FileRecord)
    requires Good(s)
    requires FindFile(s.files, r.id).None?
    requires r.parentId.Parent? ==> IsFolderId(s.files, r.parentId.id)
    requires r.fileType != Folder && r.localPath == Some(path)
    ensures Good(Apply(s, [WriteBytes(path, bytes), InsertFile(r)] + JobFor(r)))
    ensures path in Apply(s, [WriteBytes(path, bytes), InsertFile(r)] + JobFor(r)).disk.contents
    ensures Apply(s, [WriteBytes(path, bytes), InsertFile(r)] + JobFor(r)).disk.contents[path] == bytes
    ensures Apply(s, [WriteBytes(path, bytes), InsertFile(r)] + JobFor(r)).files == s.files + [r]
    ensures Apply(s, [WriteBytes(path, bytes), InsertFile(r)] + JobFor(r)).users == s.users
  {
    var w := WriteBytes(path, bytes);
    var s2 := Step(s, w);
    var s3 := Step(s2, InsertFile(r));
    ApplyWriteInsertSteps(s, path, bytes, r);
    DiskStepKeepsGood(s, w);
    InsertKeepsGood(s2, r);
    if r.fileType == Image {
      FindFileAppend(s2.files, r, r.id);
      EnqueueKeepsGood(s3, Job(r.userId, r.id));
    }
  }

  /** Applying a file upload's trace: the storage root exists, the decoded
      bytes sit at the generated path, and the record is appended last. */
  lemma ApplyFileTrace(s: Store, env: Env, bytes: Bytes, r: FileRecord)
    requires Good(s)
    requires FindFile(s.files, r.id).None?
    requires r.parentId.Parent? ==> IsFolderId(s.files, r.parentId.id)
    requires r.fileType != Folder && r.localPath == Some(StoredPath(env))
    ensures Good(Apply(s, Prepare(s, env) + [WriteBytes(StoredPath(env), bytes), InsertFile(r)] + JobFor(r)))
    ensures StoredPath(env) in Apply(s, Prepare(s, env) + [WriteBytes(StoredPath(env), bytes), InsertFile(r)] + JobFor(r)).disk.contents
    ensures Apply(s, Prepare(s, env) + [WriteBytes(StoredPath(env), bytes), InsertFile(r)] + JobFor(r)).disk.contents[StoredPath(env)] == bytes
    ensures Apply(s, Prepare(s, env) + [WriteBytes(StoredPath(env), bytes), InsertFile(r)] + JobFor(r)).files == s.files + [r]
    ensures Apply(s, Prepare(s, env) + [WriteBytes(StoredPath(env), bytes), InsertFile(r)] + JobFor(r)).users == s.users
  {
    var rest := [WriteBytes(StoredPath(env), bytes), InsertFile(r)] + JobFor(r);
    assert Prepare(s, env) + [WriteBytes(StoredPath(env), bytes), InsertFile(r)] + JobFor(r) == Prepare(s, env) + rest;
    ApplyAppend(s, Prepare(s, env), rest);
    ApplyPrepare(s, env);
    ApplyWriteInsert(Apply(s, Prepare(s, env)), StoredPath(env), bytes, r);
  }

  /** Every upload keeps the data-model invariants, given that the store
      assigns an id no record has yet. */
  lemma UploadPreservesGood(s: Store, token: Option<string>, req: UploadRequest, env: Env, decode: string -> Bytes)
    requires Good(s)
    requires FindFile(s.files, env.insertedId).None?
    ensures Good(Apply(s, PostUpload(s, token, req, env, decode).effects))
  {
    if Accepted(s, token, req) {
      if req.fileType == Some("folder") {
        var r := UploadFolder(s, token, req, env, decode);
        ApplySingle(s, InsertFile(r));
        InsertKeepsGood(s, r);
      } else {
        var r := UploadFileOrImage(s, token, req, env, decode);
        if env.writeFails {
          ApplyPrepare(s, env);
        } else {
          ApplyFileTrace(s, env, decode(req.data.value), r);
        }
      }
    }
  }

  /** After a created file or image upload the bytes on disk under the record's
      `localPath` are exactly the base64-decoded `data`, and the record is the
      last one in `files`. */
  lemma UploadStoresBytes(s: Store, token: Option<string>, req: UploadRequest, env: Env, decode: string -> Bytes)
    requires Good(s)
    requires FindFile(s.files, env.insertedId).None?
    requires Accepted(s, token, req) && req.fileType != Some("folder") && !env.writeFails
    ensures |Apply(s, PostUpload(s, token, req, env, decode).effects).files| == |s.files| + 1
    ensures Apply(s, PostUpload(s, token, req, env, decode).effects).files[|s.files|].localPath == Some(StoredPath(env))
    ensures StoredPath(env) in Apply(s, PostUpload(s, token, req, env, decode).effects).disk.contents
    ensures Apply(s, PostUpload(s, token, req, env, decode).effects).disk.contents[StoredPath(env)] == decode(req.data.value)
  {
    var r := UploadFileOrImage(s, token, req, env, decode);
    ApplyFileTrace(s, env, decode(req.data.value), r);
  }

  /** A created upload appends exactly the record it describes and leaves the
      cache and the users alone. */
  lemma UploadedRecord(s: Store, token: Option<string>, req: UploadRequest, env: Env, decode: string -> Bytes)
    returns (rec: FileRecord)
    requires Good(s)
    requires FindFile(s.files, env.insertedId).None?
    requires Accepted(s, token, req)
    requires req.fileType == Some("folder") || !env.writeFails
    ensures Created(PostUpload(s, token, req, env, decode))
    ensures Apply(s, PostUpload(s, token, req, env, decode).effects).files == s.files + [rec]
    ensures Apply(s, PostUpload(s, token, req, env, decode).effects).users == s.users
    ensures Apply(s, PostUpload(s, token, req, env, decode).effects).cache == s.cache
    ensures Describes(rec, Resolve(s.cache, s.users, token).value, req, env)
  {
    if req.fileType == Some("folder") {
      rec := UploadFolder(s, token, req, env, decode);
      ApplySingle(s, InsertFile(rec));
    } else {
      rec := UploadFileOrImage(s, token, req, env, decode);
      ApplyFileTrace(s, env, decode(req.data.value), rec);
    }
  }
}
