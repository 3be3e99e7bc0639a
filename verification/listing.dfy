/** `FilesController.getIndex`: the owner's records, optionally under one
    parent, 20 to a page, in store order. */
module Listing {
  import opened Wrappers
  import opened Json
  import opened Store
  import opened Session
  import opened Upload

  const PageSize: nat := 20

  /** A page number as the query gives it; pages start at 1. */
  type PageNo = n: nat | 1 <= n witness 1

  /** The query string of a listing request. */
  datatype IndexQuery = IndexQuery(parentId: Option<string>, page: Option<PageNo>)

  function PageNumber(q: IndexQuery): PageNo
  {
    if q.page.Some? then q.page.value else 1
  }

  /** The number of matching records before the page starts. */
  function Skip(page: PageNo): nat
  {
    (page - 1) * PageSize
  }

  function Min(a: int, b: int): int
  {
    if a <= b then a else b
  }

  /** The `$match` stage: owned by `owner` and, when a non-empty `parentId` is
      given, stored under exactly that parent. The query value is a string, so
      it never equals the number 0 that root records carry. */
  predicate Matches(r: FileRecord, owner: string, parentId: Option<string>)
  {
    r.userId == owner && (!Truthy(parentId) || r.parentId == Parent(parentId.value))
  }

  /** The records that pass `$match`, in store order. */
  function Matching(files: seq<FileRecord>, owner: string, parentId: Option<string>): (m: seq<FileRecord>)
    ensures |m| <= |files|
    ensures forall i :: 0 <= i < |m| ==> Matches(m[i], owner, parentId)
    decreases |files|
  {
    if |files| == 0 then []
    else
      var last := files[|files| - 1];
      Matching(files[..|files| - 1], owner, parentId) + (if Matches(last, owner, parentId) then [last] else [])
  }

  /** `$match` commutes with concatenation, so it keeps the store order. */
  lemma {:induction false} MatchingAppend(a: seq<FileRecord>, b: seq<FileRecord>, owner: string, parentId: Option<string>)
    ensures Matching(a + b, owner, parentId) == Matching(a, owner, parentId) + Matching(b, owner, parentId)
    decreases |b|
  {
    if |b| == 0 {
      assert a + b == a;
    } else {
      var b' := b[..|b| - 1];
      assert (a + b)[..|a + b| - 1] == a + b';
      assert (a + b)[|a + b| - 1] == b[|b| - 1];
      MatchingAppend(a, b', owner, parentId);
    }
  }

  /** Nothing is lost by `$match`: a record is listed exactly when it is in the
      store and matches. */
  lemma {:induction false} MatchingExact(files: seq<FileRecord>, owner: string, parentId: Option<string>, r: FileRecord)
    ensures r in Matching(files, owner, parentId) <==> r in files && Matches(r, owner, parentId)
    decreases |files|
  {
    if |files| > 0 {
      var front := files[..|files| - 1];
      MatchingExact(front, owner, parentId, r);
      assert files == front + [files[|files| - 1]];
    }
  }

  /** The `$skip` and `$limit` stages: at most `n` elements starting at `skip`. */
  function Window<T>(m: seq<T>, skip: nat, n: nat): (w: seq<T>)
    ensures |w| <= n
    ensures skip < |m| ==> |w| == Min(n, |m| - skip)
    ensures skip >= |m| ==> w == []
    ensures forall i :: 0 <= i < |w| ==> skip + i < |m| && w[i] == m[skip + i]
  {
    m[Min(skip, |m|)..Min(skip + n, |m|)]
  }

  /** The records page `page` shows. */
  function PageOf(files: seq<FileRecord>, owner: string, q: IndexQuery): seq<FileRecord>
  {
    Window(Matching(files, owner, q.parentId), Skip(PageNumber(q)), PageSize)
  }

  lemma WindowSnoc<T>(m: seq<T>, x: T, skip: nat, n: nat)
    requires |Window(m, skip, n)| < n
    ensures Window(m + [x], skip, n) == Window(m, skip, n) + (if |m| >= skip then [x] else [])
  {
  }

  lemma WindowFull<T>(m: seq<T>, rest: seq<T>, skip: nat, n: nat)
    requires |Window(m, skip, n)| == n
    ensures Window(m + rest, skip, n) == Window(m, skip, n)
  {
    if n > 0 {
      assert skip + n <= |m|;
      assert (m + rest)[skip..skip + n] == m[skip..skip + n];
    }
  }

  /** One more record of the collection adds it to `Matching` exactly when it matches. */
  lemma MatchingPrefixStep(files: seq<FileRecord>, i: nat, owner: string, parentId: Option<string>)
    requires i < |files|
    ensures Matching(files[..i + 1], owner, parentId) ==
              Matching(files[..i], owner, parentId) + (if Matches(files[i], owner, parentId) then [files[i]] else [])
  {
    assert files[..i + 1][..i] == files[..i];
  }

  /** Stopping early at a full page, or at the end of the collection, yields the whole pipeline's page. */
  lemma SelectPageStops(files: seq<FileRecord>, i: nat, owner: string, parentId: Option<string>, skip: nat)
    requires i <= |files|
    requires i == |files| || |Window(Matching(files[..i], owner, parentId), skip, PageSize)| == PageSize
    ensures Window(Matching(files[..i], owner, parentId), skip, PageSize) == Window(Matching(files, owner, parentId), skip, PageSize)
  {
    assert files == files[..i] + files[i..];
    MatchingAppend(files[..i], files[i..], owner, parentId);
    if i < |files| {
      WindowFull(Matching(files[..i], owner, parentId), Matching(files[i..], owner, parentId), skip, PageSize);
    }
  }

  /** The aggregate pipeline evaluated in one pass over the collection,
      stopping once the page is full. */
  method SelectPage(files: seq<FileRecord>, owner: string, q: IndexQuery) returns (page: seq<FileRecord>)
    ensures page == PageOf(files, owner, q)
    ensures |page| <= PageSize
    ensures forall i :: 0 <= i < |page| ==> page[i] in files && Matches(page[i], owner, q.parentId)
  {
    var skip := Skip(PageNumber(q));
    var seen := 0;
    page := [];
    var i := 0;
    while i < |files| && |page| < PageSize
      invariant 0 <= i <= |files|
      invariant seen == |Matching(files[..i], owner, q.parentId)|
      invariant page == Window(Matching(files[..i], owner, q.parentId), skip, PageSize)
    {
      MatchingPrefixStep(files, i, owner, q.parentId);
      WindowSnoc(Matching(files[..i], owner, q.parentId), files[i], skip, PageSize);
      if Matches(files[i], owner, q.parentId) {
        if seen >= skip {
          page := page + [files[i]];
        }
        seen := seen + 1;
      }
      i := i + 1;
    }
    SelectPageStops(files, i, owner, q.parentId, skip);
    forall k | 0 <= k < |page|
      ensures page[k] in files
    {
      MatchingExact(files, owner, q.parentId, page[k]);
    }
  }

  /** The concatenation of pages `1..k`. */
  function Pages(m: seq<FileRecord>, k: nat): seq<FileRecord>
  {
    if k == 0 then [] else Pages(m, k - 1) + Window(m, Skip(k), PageSize)
  }

  /** Pages tile the listing: pages `1..k` together are its first `20k`
      records, none skipped and none repeated. */
  lemma {:induction false} PagesTile(m: seq<FileRecord>, k: nat)
    ensures Pages(m, k) == m[..Min(k * PageSize, |m|)]
  {
    if k > 0 {
      PagesTile(m, k - 1);
      assert Skip(k) == (k - 1) * PageSize;
      assert m[..Min((k - 1) * PageSize, |m|)] + m[Min(Skip(k), |m|)..Min(Skip(k) + PageSize, |m|)]
             == m[..Min(k * PageSize, |m|)];
    }
  }

  /** A listed entry as the controller builds it: `{...file, id: file._d}`.
      `_d` is not a field, the serialiser drops the `undefined` value, and the
      entry carries no id at all. */
  function ListedEntryAsWritten(r: FileRecord): (d: Doc)
    ensures "id" !in d && "_id" !in d && "localPath" !in d
    ensures d.Keys == PublicKeys - {"id"}
  {
    RecordDoc(r) - {"_id", "localPath"}
  }

  /** `getIndex`, with each entry built as the upload's answer is (`id` from
      `_id`). An unauthenticated request is answered 200 with an error body. */
  function GetIndex(s: Store, token: Option<string>, q: IndexQuery): (r: Response)
    ensures Resolve(s.cache, s.users, token).None? ==> r == Reply(200, Error("Unauthorized"))
    ensures Resolve(s.cache, s.users, token).Some? ==>
              && r.Reply? && r.status == 200 && r.body.Array?
              && |r.body.items| <= PageSize
              && forall i :: 0 <= i < |r.body.items| ==>
                   && "_id" !in r.body.items[i] && "localPath" !in r.body.items[i]
                   && "userId" in r.body.items[i]
                   && r.body.items[i]["userId"] == Str(Resolve(s.cache, s.users, token).value.id)
  {
    match Resolve(s.cache, s.users, token)
    case None => Reply(200, Error("Unauthorized"))
    case Some(user) =>
      var page := PageOf(s.files, user.id, q);
      Reply(200, Array(seq(|page|, i requires 0 <= i < |page| => FileResponse(page[i]))))
  }

  /** The entries are the public views of the page's records, one each, in order. */
  lemma IndexShowsPage(s: Store, token: Option<string>, q: IndexQuery)
    requires Resolve(s.cache, s.users, token).Some?
    ensures var page := PageOf(s.files, Resolve(s.cache, s.users, token).value.id, q);
            var items := GetIndex(s, token, q).body.items;
            && |items| == |page|
            && forall i :: 0 <= i < |items| ==> PublicView(page[i], items[i])
  {
  }
}
