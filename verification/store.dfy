/** The three external stores the controllers talk to (the token cache, the
    `users` and `files` collections, the local disk) plus the job queue, as
    one immutable value, and the effects that change it. */
module Store {
  import opened Wrappers
  import opened Json

  /** The string form of a document id (`ObjectId.toString()`). */
  type Id = string
  type Byte = b: int | 0 <= b < 256
  type Bytes = seq<Byte>

  datatype FileType = Folder | File | Image

  /** The `type` string a record carries. */
  function TypeName(t: FileType): string
  {
    match t
    case Folder => "folder"
    case File => "file"
    case Image => "image"
  }

  /** `acceptedTypes.includes(type)`: only the three exact spellings are accepted. */
  function ParseType(s: string): (r: Option<FileType>)
    ensures r.Some? <==> s == "folder" || s == "file" || s == "image"
    ensures r.Some? ==> TypeName(r.value) == s
  {
    if s == "folder" then Some(Folder)
    else if s == "file" then Some(File)
    else if s == "image" then Some(Image)
    else None
  }

  /** A record's `parentId`: the number `0` for the root, else the string the
      uploader supplied. */
  datatype ParentRef = Root | Parent(id: Id)

  function ParentValue(p: ParentRef): Value
  {
    match p
    case Root => Num(0)
    case Parent(id) => Str(id)
  }

  /** A document of the `files` collection; `id` is its `_id`. */
  datatype FileRecord = FileRecord(
    id: Id,
    name: string,
    fileType: FileType,
    parentId: ParentRef,
    isPublic: bool,
    userId: string,
    localPath: Option<string>)

  /** A document of the `users` collection; `password` holds the digest. */
  datatype User = User(id: Id, email: string, password: string)

  /** The payload of a `fileQueue` job. */
  datatype Job = Job(userId: string, fileId: Id)

  /** The local filesystem: existing directories and the bytes of each written file. */
  datatype Disk = Disk(dirs: set<string>, contents: map<string, Bytes>)

  datatype Store = Store(
    cache: map<string, string>,
    users: seq<User>,
    files: seq<FileRecord>,
    disk: Disk,
    queue: seq<Job>)

  /** One observable side effect of a request, in the order it happens. */
  datatype Effect =
    | MakeDir(dir: string)
    | WriteBytes(path: string, bytes: Bytes)
    | InsertFile(record: FileRecord)
    | InsertUser(user: User)
    | Enqueue(job: Job)

  /** What a controller call produces: its answer and its effects. */
  datatype Outcome = Outcome(reply: Response, effects: seq<Effect>)

  function Step(s: Store, e: Effect): Store
  {
    match e
    case MakeDir(d) => s.(disk := s.disk.(dirs := s.disk.dirs + {d}))
    case WriteBytes(p, b) => s.(disk := s.disk.(contents := s.disk.contents[p := b]))
    case InsertFile(r) => s.(files := s.files + [r])
    case InsertUser(u) => s.(users := s.users + [u])
    case Enqueue(j) => s.(queue := s.queue + [j])
  }

  /** The stores after a trace of effects. Nothing a request does touches the
      token cache, and every store only grows: records are never updated or
      removed, directories and written paths stay. */
  function Apply(s: Store, es: seq<Effect>): (t: Store)
    ensures t.cache == s.cache
    ensures s.files <= t.files && s.users <= t.users && s.queue <= t.queue
    ensures s.disk.dirs <= t.disk.dirs
    ensures s.disk.contents.Keys <= t.disk.contents.Keys
    decreases |es|
  {
    if |es| == 0 then s else Apply(Step(s, es[0]), es[1..])
  }

  lemma {:induction false} ApplyAppend(s: Store, a: seq<Effect>, b: seq<Effect>)
    ensures Apply(s, a + b) == Apply(Apply(s, a), b)
    decreases |a|
  {
    if |a| == 0 {
      assert a + b == b;
    } else {
      assert (a + b)[0] == a[0];
      assert (a + b)[1..] == a[1..] + b;
      ApplyAppend(Step(s, a[0]), a[1..], b);
    }
  }

  lemma ApplyCons(s: Store, e: Effect, rest: seq<Effect>)
    ensures Apply(s, [e] + rest) == Apply(Step(s, e), rest)
  {
    assert ([e] + rest)[1..] == rest;
  }

  lemma ApplySingle(s: Store, e: Effect)
    ensures Apply(s, [e]) == Step(s, e)
  {
    assert [e][1..] == [];
  }

  /** `findOne({ _id })` on the `files` collection: the first record with that id. */
  function FindFile(files: seq<FileRecord>, id: Id): (r: Option<FileRecord>)
    ensures r.Some? ==> r.value in files && r.value.id == id
    ensures r.None? <==> forall i :: 0 <= i < |files| ==> files[i].id != id
    decreases |files|
  {
    if |files| == 0 then None
    else if files[0].id == id then Some(files[0])
    else FindFile(files[1..], id)
  }

  /** Appending a record does not change what an earlier lookup found. */
  lemma {:induction false} FindFileAppend(files: seq<FileRecord>, r: FileRecord, id: Id)
    ensures FindFile(files + [r], id) ==
              if FindFile(files, id).Some? then FindFile(files, id)
              else if r.id == id then Some(r) else None
    decreases |files|
  {
    if |files| > 0 {
      assert (files + [r])[0] == files[0];
      assert (files + [r])[1..] == files[1..] + [r];
      FindFileAppend(files[1..], r, id);
    }
  }

  /** `findOne({ _id })` on the `users` collection. */
  function FindUser(users: seq<User>, id: Id): (r: Option<User>)
    ensures r.Some? ==> r.value in users && r.value.id == id
    ensures r.None? <==> forall i :: 0 <= i < |users| ==> users[i].id != id
    decreases |users|
  {
    if |users| == 0 then None
    else if users[0].id == id then Some(users[0])
    else FindUser(users[1..], id)
  }

  lemma {:induction false} FindUserAppend(users: seq<User>, u: User, id: Id)
    requires FindUser(users, id).Some?
    ensures FindUser(users + [u], id) == FindUser(users, id)
    decreases |users|
  {
    assert (users + [u])[0] == users[0];
    if users[0].id != id {
      assert (users + [u])[1..] == users[1..] + [u];
      FindUserAppend(users[1..], u, id);
    }
  }

  /** The record as it sits in the collection, `_id` and (for files and
      images) `localPath` included. */
  function RecordDoc(r: FileRecord): Doc
  {
    var base := map[
      "_id" := Str(r.id),
      "name" := Str(r.name),
      "type" := Str(TypeName(r.fileType)),
      "parentId" := ParentValue(r.parentId),
      "isPublic" := Bool(r.isPublic),
      "userId" := Str(r.userId)];
    match r.localPath
    case None => base
    case Some(p) => base["localPath" := Str(p)]
  }

  /** The keys a client sees for one file. */
  const PublicKeys: set<string> := {"id", "name", "type", "parentId", "isPublic", "userId"}

  /** `doc` is the client's view of `r`: its id under `id`, its metadata, and
      neither `_id` nor `localPath`. */
  predicate PublicView(r: FileRecord, doc: Doc)
  {
    && doc.Keys == PublicKeys
    && doc["id"] == Str(r.id)
    && doc["name"] == Str(r.name)
    && doc["type"] == Str(TypeName(r.fileType))
    && doc["parentId"] == ParentValue(r.parentId)
    && doc["isPublic"] == Bool(r.isPublic)
    && doc["userId"] == Str(r.userId)
  }

  /** The client's view determines the object: two views of one record are the same map. */
  lemma PublicViewUnique(r: FileRecord, d: Doc, d': Doc)
    requires PublicView(r, d) && PublicView(r, d')
    ensures d == d'
  {
    forall k | k in d.Keys
      ensures d[k] == d'[k]
    {
      assert k in PublicKeys;
    }
  }

  predicate IsFolderId(files: seq<FileRecord>, id: Id)
  {
    FindFile(files, id).Some? && FindFile(files, id).value.fileType == Folder
  }

  predicate UniqueIds(files: seq<FileRecord>)
  {
    forall i, j :: 0 <= i < j < |files| ==> files[i].id != files[j].id
  }

  /** A non-root parent is an existing folder. */
  predicate ParentsAreFolders(files: seq<FileRecord>)
  {
    forall i :: 0 <= i < |files| && files[i].parentId.Parent? ==> IsFolderId(files, files[i].parentId.id)
  }

  /** Files and images have bytes on disk under their `localPath`; folders have no `localPath`. */
  predicate ContentOnDisk(files: seq<FileRecord>, disk: Disk)
  {
    forall i :: 0 <= i < |files| ==>
      && (files[i].localPath.Some? <==> files[i].fileType != Folder)
      && (files[i].localPath.Some? ==> files[i].localPath.value in disk.contents)
  }

  /** Every queued job names an image record of the same owner. */
  predicate JobsNameImages(queue: seq<Job>, files: seq<FileRecord>)
  {
    forall k :: 0 <= k < |queue| ==>
      && FindFile(files, queue[k].fileId).Some?
      && FindFile(files, queue[k].fileId).value.fileType == Image
      && FindFile(files, queue[k].fileId).value.userId == queue[k].userId
  }

  predicate UniqueEmails(users: seq<User>)
  {
    forall i, j :: 0 <= i < j < |users| ==> users[i].email != users[j].email
  }

  /** The data-model invariants every request keeps. */
  predicate Good(s: Store)
  {
    && UniqueIds(s.files)
    && ParentsAreFolders(s.files)
    && ContentOnDisk(s.files, s.disk)
    && JobsNameImages(s.queue, s.files)
    && UniqueEmails(s.users)
  }

  /** Creating a directory or writing bytes keeps the invariants. */
  lemma DiskStepKeepsGood(s: Store, e: Effect)
    requires Good(s) && (e.MakeDir? || e.WriteBytes?)
    ensures Good(Step(s, e))
  {
    var t := Step(s, e);
    assert t.files == s.files && t.queue == s.queue && t.users == s.users;
    assert s.disk.contents.Keys <= t.disk.contents.Keys;
  }

  /** Appending a record with a fresh id, an existing folder as parent, and
      (for a file or image) bytes already on disk keeps the invariants. */
  lemma InsertKeepsGood(s: Store, r: FileRecord)
    requires Good(s)
    requires FindFile(s.files, r.id).None?
    requires r.parentId.Parent? ==> IsFolderId(s.files, r.parentId.id)
    requires r.localPath.Some? <==> r.fileType != Folder
    requires r.localPath.Some? ==> r.localPath.value in s.disk.contents
    ensures Good(Step(s, InsertFile(r)))
  {
    var files := s.files + [r];
    assert Step(s, InsertFile(r)) == s.(files := files);
    forall id | FindFile(s.files, id).Some?
      ensures FindFile(files, id) == FindFile(s.files, id)
    {
      FindFileAppend(s.files, r, id);
    }
    forall i | 0 <= i < |files| && files[i].parentId.Parent?
      ensures IsFolderId(files, files[i].parentId.id)
    {
      FindFileAppend(s.files, r, files[i].parentId.id);
    }
    forall k | 0 <= k < |s.queue|
      ensures FindFile(files, s.queue[k].fileId) == FindFile(s.files, s.queue[k].fileId)
    {
      FindFileAppend(s.files, r, s.queue[k].fileId);
    }
  }

  /** Enqueuing a job for an existing image of the job's owner keeps the invariants. */
  lemma EnqueueKeepsGood(s: Store, j: Job)
    requires Good(s)
    requires FindFile(s.files, j.fileId).Some?
    requires FindFile(s.files, j.fileId).value.fileType == Image
    requires FindFile(s.files, j.fileId).value.userId == j.userId
    ensures Good(Step(s, Enqueue(j)))
  {
  }
}
