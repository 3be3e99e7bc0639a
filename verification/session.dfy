/** Resolving the `X-Token` header of a request to a user. */
module Session {
  import opened Wrappers
  import opened Json
  import opened Store

  const AuthPrefix: string := "auth_"

  /** The cache key a session token is stored under. */
  function CacheKey(token: string): string
  {
    AuthPrefix + token
  }

  predicate NoUserWithId(users: seq<User>, id: Id)
  {
    forall i :: 0 <= i < |users| ==> users[i].id != id
  }

  /** `getUserFromToken`: no user when the header is absent or empty, when the
      cache holds nothing (or an empty value) under `auth_<token>`, or when no
      user has the cached id; otherwise a user with that id. */
  function Resolve(cache: map<string, string>, users: seq<User>, token: Option<string>): (r: Option<User>)
    ensures !Truthy(token) ==> r.None?
    ensures Truthy(token) && (CacheKey(token.value) !in cache || cache[CacheKey(token.value)] == "") ==> r.None?
    ensures (Truthy(token) && CacheKey(token.value) in cache && NoUserWithId(users, cache[CacheKey(token.value)]))
              ==> r.None?
    ensures (&& Truthy(token)
             && CacheKey(token.value) in cache
             && cache[CacheKey(token.value)] != ""
             && !NoUserWithId(users, cache[CacheKey(token.value)])) ==> r.Some?
    ensures r.Some? ==> && Truthy(token)
                        && CacheKey(token.value) in cache
                        && r.value in users
                        && r.value.id == cache[CacheKey(token.value)]
  {
    if !Truthy(token) then None
    else
      var key := CacheKey(token.value);
      if key !in cache || cache[key] == "" then None
      else FindUser(users, cache[key])
  }

  /** Resolution reads only the token's own cache entry: any cache that agrees
      on `auth_<token>` resolves the token to the same user. */
  lemma ResolveReadsOwnKey(cache: map<string, string>, cache': map<string, string>, users: seq<User>, token: string)
    requires CacheKey(token) in cache <==> CacheKey(token) in cache'
    requires CacheKey(token) in cache ==> cache[CacheKey(token)] == cache'[CacheKey(token)]
    ensures Resolve(cache, users, Some(token)) == Resolve(cache', users, Some(token))
  {
  }

  /** A session keeps resolving to the same user when users are added. */
  lemma ResolveStableUnderNewUser(cache: map<string, string>, users: seq<User>, u: User, token: Option<string>)
    requires Resolve(cache, users, token).Some?
    ensures Resolve(cache, users + [u], token) == Resolve(cache, users, token)
  {
    FindUserAppend(users, u, cache[CacheKey(token.value)]);
  }
}
