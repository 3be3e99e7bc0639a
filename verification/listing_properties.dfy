/** How listing relates to upload and show. */
module ListingProperties {
  import opened Wrappers
  import opened Json
  import opened Store
  import opened Session
  import opened Upload
  import opened UploadProperties
  import opened Listing
  import opened Show

  /** A record appended for the owner shows as the last entry of the owner's listing. */
  lemma ListAfterInsert(s: Store, t: Store, rec: FileRecord, token: Option<string>)
    requires Resolve(s.cache, s.users, token).Some?
    requires rec.userId == Resolve(s.cache, s.users, token).value.id
    requires t.files == s.files + [rec] && t.users == s.users && t.cache == s.cache
    ensures var n := |Matching(s.files, rec.userId, None)|;
            var r := GetIndex(t, token, IndexQuery(None, Some(n / PageSize + 1)));
            && r.Reply? && r.body.Array?
            && n % PageSize < |r.body.items|
            && r.body.items[n % PageSize] == FileResponse(rec)
  {
    var m := Matching(s.files, rec.userId, None);
    var n := |m|;
    MatchingAppend(s.files, [rec], rec.userId, None);
    assert [rec][..0] == [];
    assert Matching([rec], rec.userId, None) == [rec];
    assert Matching(t.files, rec.userId, None) == m + [rec];
    var q := IndexQuery(None, Some(n / PageSize + 1));
    assert Skip(PageNumber(q)) + n % PageSize == n;
    var page := PageOf(t.files, rec.userId, q);
    assert page[n % PageSize] == (m + [rec])[n];
  }

  /** In store `t`, the owner's `n`-th listed record (counting from 0) is
      the record with id `id`, and its entry equals `getShow`'s answer. */
  predicate ListedAsShown(t: Store, token: Option<string>, n: nat, id: Id)
  {
    var r := GetIndex(t, token, IndexQuery(None, Some(n / PageSize + 1)));
    && r.Reply? && r.body.Array?
    && n % PageSize < |r.body.items|
    && GetShow(t, token, id).body.FileEnvelope?
    && r.body.items[n % PageSize] == GetShow(t, token, id).body.file
  }

  /** After appending a record for its owner, the owner's listing and
      `getShow` agree on it. */
  lemma ListAndShowAgree(s: Store, t: Store, rec: FileRecord, token: Option<string>)
    requires Resolve(s.cache, s.users, token).Some?
    requires rec.userId == Resolve(s.cache, s.users, token).value.id
    requires FindFile(s.files, rec.id).None?
    requires t.files == s.files + [rec] && t.users == s.users && t.cache == s.cache
    ensures ListedAsShown(t, token, |Matching(s.files, rec.userId, None)|, rec.id)
  {
    ListAfterInsert(s, t, rec, token);
    ShowAfterInsert(s, t, rec, token);
  }

  /** Upload, then list: the new record is the last of the owner's listing,
      on page `n / 20 + 1` at position `n % 20` where `n` is how many records
      the owner had, and its entry there is exactly what `getShow` answers. */
  lemma UploadThenList(s: Store, token: Option<string>, req: UploadRequest, env: Env, decode: string -> Bytes)
    requires Good(s)
    requires FindFile(s.files, env.insertedId).None?
    requires Accepted(s, token, req)
    requires req.fileType == Some("folder") || !env.writeFails
    ensures ListedAsShown(Apply(s, PostUpload(s, token, req, env, decode).effects), token,
                          |Matching(s.files, Resolve(s.cache, s.users, token).value.id, None)|, env.insertedId)
  {
    var rec := UploadedRecord(s, token, req, env, decode);
    var t := Apply(s, PostUpload(s, token, req, env, decode).effects);
    ListAndShowAgree(s, t, rec, token);
  }

  /** The entry as written differs from the corrected one exactly by the missing `id`. */
  lemma ListedEntryAsWrittenLacksId(r: FileRecord)
    ensures ListedEntryAsWritten(r) == FileResponse(r) - {"id"}
    ensures ListedEntryAsWritten(r) != FileResponse(r)
  {
    assert "id" in FileResponse(r);
  }
}
