# files_manager: the file controller, modelled in Dafny

This project models the request handlers of the `files_manager` service:

- resolving a session token to a user (`getUserFromToken`);
- uploading a folder, file or image (`postUpload` and `writeToFile`);
- listing a user's files 20 to a page (`getIndex`);
- showing one file (`getShow`);
- registering a user (`UsersController.postNew`).

It then proves what the handlers promise.

The external stores are one immutable `Store` value:

- the token cache;
- the `users` and `files` collections;
- the local disk;
- the `fileQueue` job queue.

A handler is a pure function that returns an `Outcome`: the HTTP answer, plus the trace of effects the handler performs, in order. The effects are `MakeDir`, `WriteBytes`, `InsertFile`, `InsertUser` and `Enqueue`. `Apply` runs a trace against a store. "Nothing changes on an error" is therefore a statement that the trace is empty.

JSON bodies are maps from key to value, with the values the serialiser produces. A key whose value is `undefined` is absent from the map. This makes "the answer has no `_id` and no `localPath`" a checkable claim.

Modules:

- `Wrappers` and `Json`: the shapes used everywhere.
- `Store`: the entities, the effects, the lookups and the data-model invariant `Good`.
- `Session`: token resolution.
- `Upload` and `UploadProperties`: the upload handler, and what it does to the stores.
- `Listing` and `ListingProperties`: the listing handler, its paging, and how it relates to upload and show.
- `Show`: the show handler as written, and a corrected version.
- `Users`: registration.

In three places the code's behaviour is surprising; the model follows the code:

- An unauthenticated listing or show is answered with status 200 and an `{error: 'Unauthorized'}` body. An upload is answered with 401.
- A failed byte write is not mapped to a 500 response. The handler's promise rejects, which the model records as `Rejected`. The directory creation that came before the write has already happened. Nothing is inserted and nothing is enqueued.
- The listing filter compares the query's `parentId`, a string, with the stored `parentId`. Root records store the number `0`, so `?parentId=0` never lists the root's records.

## Model

| member | source | states |
|---|---|---|
| Session.Resolve | controllers/FilesController.js:17-29 | No user when the header is missing or empty, when `auth_<token>` holds nothing (or an empty value), or when no user has the cached id. Conversely, a non-empty token whose entry holds a non-empty id that some user has always resolves, and the result is a stored user whose id is the cached value. |
| Session.ResolveReadsOwnKey | controllers/FilesController.js:21-23 | Resolution reads only the cache entry `auth_<token>`: two caches that agree on it resolve the token to the same user. |
| Session.ResolveStableUnderNewUser | controllers/FilesController.js:25-28 | Adding a user never changes the user an existing session resolves to. |
| Store.ParseType | controllers/FilesController.js:75 | A type is accepted exactly when it is one of the spellings `folder`, `file` or `image`, and it maps back to the same string. |
| Store.FindFile | controllers/FilesController.js:80 | The lookup finds a record exactly when some record has the id, and what it finds is a stored record with that id. |
| Store.FindUser | controllers/FilesController.js:26 | The lookup finds a user exactly when some user has the id, and what it finds is a stored user with that id. |
| Store.InsertKeepsGood | controllers/FilesController.js:78-94 | Inserting a record keeps every invariant when the record has a fresh id, an existing folder as parent, and (if it is not a folder) bytes on disk. The invariants are: unique ids, parents are folders, content on disk, jobs name images, and unique emails. |
| Upload.JoinPath | controllers/FilesController.js:100-102 | The stored path starts with the storage root. A separator is added exactly when the root does not already end in one, so there is exactly one separator before the generated name. |
| Upload.NewRecord | controllers/FilesController.js:84-104 | The `fileData` record: the assigned id, the validated name, type and parent, the owner's id, `isPublic` true only when the request says `true`, and a `localPath` under the storage root, exactly for files and images. |
| Upload.Validate | controllers/FilesController.js:74-83 | Fails exactly when the request breaks a rule, reporting the first broken rule in the order name, type, data, parent not found, parent is not a folder. On success the name and type are the ones given, data is present for non-folders, and `parentId` defaults to the root. A non-root parent is then an existing folder. |
| Upload.FolderResponse | controllers/FilesController.js:92-98 | The folder answer is the record's public view: it carries `id` and no `_id`. |
| Upload.FileResponse | controllers/FilesController.js:45-51 | The file answer is the record's public view: it carries `id`, with `_id` and `localPath` removed. The corrected listing builds its entries the same way. |
| Store.PublicViewUnique | controllers/FilesController.js:45-51 | The public view of a record is one object: two views of the same record are equal. |
| Upload.PostUpload | controllers/FilesController.js:61-111 | An unauthenticated request gets 401 and has no effects. A request that breaks a rule gets 400 with the first broken rule and has no effects. An accepted request is either created (201) or rejected. Rejection happens only when the byte write fails. |
| Upload.WriteToFile | controllers/FilesController.js:39-59 | A failed write rejects with no effects. Otherwise the bytes are written first, then the record is inserted, then one job is enqueued for an image and none otherwise. The answer is 201 with the record's public view. |
| UploadProperties.UploadFolder | controllers/FilesController.js:84-98 | A folder upload inserts exactly one record and writes nothing. The record carries the defaults: parent 0, `isPublic` false, the owner's id. It has no `localPath`. The answer is 201 with the record's public view. |
| UploadProperties.Prepare | controllers/FilesController.js:106-109 | Before the byte write, the only effect is creating the storage root, and only when nothing is at that path. |
| UploadProperties.UploadFileOrImage | controllers/FilesController.js:100-110 | A file upload has these effects, in order: create the root if nothing is there, write the decoded bytes to root/uuid, insert the record with that `localPath`, and enqueue one job for an image. A failed write stops after the directory creation, with a rejection. |
| UploadProperties.UploadWritesBeforeInsert | controllers/FilesController.js:39-43 | In every upload, a record with a `localPath` is inserted only after bytes were written to that path. |
| UploadProperties.UploadInsertsOnce | controllers/FilesController.js:43-58 | One record is inserted when the answer is 201, and none otherwise. The 201 body is that record's public view. |
| UploadProperties.UploadEnqueuesOnlyImages | controllers/FilesController.js:53-55 | A created image enqueues exactly one job, `{userId, fileId}`. Files, folders and failed uploads enqueue nothing. |
| UploadProperties.ViolationsIgnoreName | controllers/FilesController.js:74 | Validation reads the name only for its presence: renaming to another non-empty name breaks the same rules. |
| UploadProperties.LocalPathIgnoresName | controllers/FilesController.js:100-104 | Renaming an upload changes only the inserted record's name. The path, the bytes and the job are unchanged. |
| UploadProperties.UploadPreservesGood | controllers/FilesController.js:61-111 | Every upload, accepted or not and failed or not, keeps the data-model invariants, given a fresh inserted id. |
| UploadProperties.UploadStoresBytes | controllers/FilesController.js:104-108 | After a created file upload, the bytes under the new record's `localPath` are the decoded `data`. |
| UploadProperties.UploadedRecord | controllers/FilesController.js:84-90 | An accepted upload whose write succeeds answers 201. It appends exactly the record the request describes, and leaves the users and the cache unchanged. |
| Listing.Matching | controllers/FilesController.js:125-129 | Only the owner's records are listed, and only those under the given parent when one is given. |
| Listing.MatchingAppend | controllers/FilesController.js:128-132 | The filter keeps store order: filtering a concatenation concatenates the filtered parts. |
| Listing.MatchingExact | controllers/FilesController.js:125-129 | A record survives the filter exactly when it is stored and matches. |
| Listing.Window | controllers/FilesController.js:130-131 | `$skip` then `$limit`: at most n records, the ones starting at position `skip`, and fewer only at the end. |
| Listing.SelectPage | controllers/FilesController.js:121-132 | A single pass that stops at a full page returns exactly the pipeline's page. The page has at most 20 stored, matching records. |
| Listing.PagesTile | controllers/FilesController.js:121-131 | Pages 1..k together are the first 20k matching records. No record is skipped or repeated across pages. |
| Listing.ListedEntryAsWritten | controllers/FilesController.js:134-142 | An entry built with `id: file._d` has neither `id`, `_id` nor `localPath`. |
| Listing.GetIndex | controllers/FilesController.js:113-144 | Corrected to `id: file._id`. Unauthenticated: 200 with an error body. Otherwise: 200 with at most 20 entries, each with the caller's `userId` and none with `_id` or `localPath`. |
| Listing.IndexShowsPage | controllers/FilesController.js:128-143 | The entries are the page's records, one public view each, in order. |
| ListingProperties.ListAfterInsert | controllers/FilesController.js:121-142 | A record appended for its owner, who had n records, is entry n mod 20 of page n div 20 + 1, shown as its public view. |
| ListingProperties.ListAndShowAgree | controllers/FilesController.js:134-159 | After such an append, that listing entry equals the answer of the corrected show. |
| ListingProperties.UploadThenList | controllers/FilesController.js:113-143 | A created upload appears on its owner's listing, at the position above. Its entry there is what the corrected show answers for the new id. |
| ListingProperties.ListedEntryAsWrittenLacksId | controllers/FilesController.js:137 | The entry as written is the corrected entry (the upload's answer) without `id`, and so differs from it. |
| Show.GetShowAsWritten | controllers/FilesController.js:146-160 | As written, an authenticated show always answers 200 with an empty `file`, and never 404. |
| Show.FindOwned | controllers/FilesController.js:152 | Finds a record exactly when the user owns a record with that id. |
| Show.GetShow | controllers/FilesController.js:146-160 | Corrected: 404 exactly when the user owns no record with that id. Otherwise the answer is 200 with a `{file}` envelope carrying the caller's `userId`, and the file is the public view of a stored record with that id. |
| Show.ShowAsWrittenNeverNotFound | controllers/FilesController.js:152-153 | For a missing id, the show as written answers 200 `{file: {}}` where the corrected show answers 404. |
| Show.ShowAfterInsert | controllers/FilesController.js:152-159 | A record appended with a fresh id shows as its public view. |
| Show.ShowReturnsUploadAnswer | controllers/FilesController.js:146-159 | Round trip: after a created upload, showing the new id returns exactly the object the upload answered with. |
| Show.UploadThenShow | controllers/FilesController.js:146-159 | Round trip: after a created upload, showing the new id returns the uploaded name, type, parent (0 for the root) and visibility, with neither `_id` nor `localPath`. |
| Users.PostNew | controllers/UsersController.js:5-15 | The error answers are 'Missing email', 'Missing password' and 'Already exist', in that order, and have no effects. A user is inserted exactly when both fields are present and the email is free. The answer is then 201 `{id, email}`, after inserting one user whose password is the digest of the given one. |
| Users.PostNewKeepsGood | controllers/UsersController.js:10-13 | Registration keeps emails unique and every other invariant. |
| Users.PostNewTwiceFails | controllers/UsersController.js:10-11 | Registering an email a second time answers 'Already exist' and changes nothing. |
| Users.PostNewStoresDigest | controllers/UsersController.js:12-13 | The stored user holds the digest of the password, not the password itself, unless the digest equals it. |

## Left out

- Base64 decoding, the password digest, `uuidv4()`, the ids the collections assign, and `process.env.FOLDER_PATH` are parameters: `decode`, `hash` and `Env`. The model assumes nothing about them beyond what each lemma requires.
- `ObjectId(...)` parsing is left out. An id is compared as a string, and a malformed id is a failed lookup rather than a thrown error.
- Failures of the cache, of `mkdir`, of an insert and of job delivery are left out. Only the byte write may fail.
- Concurrency and suspension between requests are left out. Each request is one atomic step on the store.
- Coercion of the query string is left out. `page` is a natural number of at least 1, and its absence means 1.
- Request fields are strings or absent. Non-string JSON values (numbers, arrays) for `name`, `type`, `parentId` or `data` are not modelled. `isPublic` is a boolean or absent.
- `path.join` normalisation (`..`, repeated separators) is left out. `JoinPath` only places one separator between the root and the generated name.
- The response header `Content-Type` and the HTTP transport are left out.
- `utils/password.js`, the server bootstrap and the thumbnail worker are not part of this model.
- Upload.PostUpload: the 201 answer is stated through `UploadProperties.UploadFolder` and `UploadProperties.UploadFileOrImage`, not in its own contract.
- Listing.GetIndex: the handler awaits `aggregate(...)` without `.toArray()`. The model treats the result as the page's documents. It does not model how the driver's cursor object would be mapped and serialised.
- Show.GetShowAsWritten: the answer of the show as written, once the lookup is awaited, is not modelled. There the owner filter compares a string with an `ObjectId`.

## Findings

| source | as written | input that shows it | evidently intended | confidence | as-written member | corrected member |
|---|---|---|---|---|---|---|
| controllers/FilesController.js:152-153 | `findOne` is not awaited, so `file` is a pending promise. It is always truthy, and the answer is 200 `{file: {}}`. | An authenticated show of the well-formed id `5f1e7a2b9c3d4e5f6a7b8c9e`, which no record has. | 404 `Not found` for an id the user does not own; otherwise the record without `_id` and `localPath`. | not executed | Show.GetShowAsWritten, Show.ShowAsWrittenNeverNotFound | Show.GetShow, Show.UploadThenShow |
| controllers/FilesController.js:137 | `id: file._d` reads a field that does not exist, so no listed entry carries an `id`. | Any authenticated listing of a non-empty collection, with the cursor read as its documents. | `id: file._id`, as in the other handlers. | not executed | Listing.ListedEntryAsWritten, ListingProperties.ListedEntryAsWrittenLacksId | Listing.GetIndex, Listing.IndexShowsPage |
