/** `UsersController.postNew`: register a user under a fresh email. */
module Users {
  import opened Wrappers
  import opened Json
  import opened Store

  /** `find({ email })` returns at least one user. */
  predicate EmailTaken(users: seq<User>, email: string)
  {
    exists i :: 0 <= i < |users| && users[i].email == email
  }

  /** `postNew`. `newId` is the id the `users` collection assigns to the insert
      and `hash` is the password digest (SHA-1, hex). */
  function PostNew(s: Store, email: Option<string>, password: Option<string>, newId: Id, hash: string -> string): (o: Outcome)
    ensures !Truthy(email) ==> o == Outcome(Reply(400, Error("Missing email")), [])
    ensures Truthy(email) && !Truthy(password) ==> o == Outcome(Reply(400, Error("Missing password")), [])
    ensures Truthy(email) && Truthy(password) && EmailTaken(s.users, email.value) ==>
              o == Outcome(Reply(400, Error("Already exist")), [])
    ensures o.effects != [] <==> o.reply.Reply? && o.reply.status == 201
    ensures o.effects != [] <==> Truthy(email) && Truthy(password) && !EmailTaken(s.users, email.value)
    ensures o.effects != [] ==>
              && o.effects == [InsertUser(User(newId, email.value, hash(password.value)))]
              && o.reply.body.Object?
              && o.reply.body.doc.Keys == {"id", "email"}
              && o.reply.body.doc["id"] == Str(newId)
              && o.reply.body.doc["email"] == Str(email.value)
  {
    if !Truthy(email) then Outcome(Reply(400, Error("Missing email")), [])
    else if !Truthy(password) then Outcome(Reply(400, Error("Missing password")), [])
    else if EmailTaken(s.users, email.value) then Outcome(Reply(400, Error("Already exist")), [])
    else
      var user := User(newId, email.value, hash(password.value));
      Outcome(Reply(201, Object(map["id" := Str(user.id), "email" := Str(user.email)])), [InsertUser(user)])
  }

  /** Registration keeps emails unique (and every other invariant: it touches only `users`). */
  lemma PostNewKeepsGood(s: Store, email: Option<string>, password: Option<string>, newId: Id, hash: string -> string)
    requires Good(s)
    ensures Good(Apply(s, PostNew(s, email, password, newId, hash).effects))
  {
    var o := PostNew(s, email, password, newId, hash);
    if o.effects != [] {
      var u := o.effects[0].user;
      ApplySingle(s, InsertUser(u));
      var users := s.users + [u];
      assert !EmailTaken(s.users, u.email);
      forall i, j | 0 <= i < j < |users|
        ensures users[i].email != users[j].email
      {
        if j == |s.users| {
          assert users[i] == s.users[i];
        }
      }
    }
  }

  /** Once an email is registered, registering it again fails with 'Already
      exist' and changes nothing, whatever the password. */
  lemma PostNewTwiceFails(s: Store, email: string, password: Option<string>, password': Option<string>,
                          id: Id, id': Id, hash: string -> string)
    requires PostNew(s, Some(email), password, id, hash).reply.Reply?
    requires PostNew(s, Some(email), password, id, hash).reply.status == 201
    requires Truthy(password')
    ensures var t := Apply(s, PostNew(s, Some(email), password, id, hash).effects);
            PostNew(t, Some(email), password', id', hash) == Outcome(Reply(400, Error("Already exist")), [])
  {
    var o := PostNew(s, Some(email), password, id, hash);
    ApplySingle(s, o.effects[0]);
    var t := Apply(s, o.effects);
    assert t.users[|s.users|].email == email;
  }

  /** The stored password is the digest of the one given, never the plaintext
      unless the digest happens to equal it. */
  lemma PostNewStoresDigest(s: Store, email: Option<string>, password: Option<string>, newId: Id, hash: string -> string)
    requires PostNew(s, email, password, newId, hash).effects != []
    ensures var t := Apply(s, PostNew(s, email, password, newId, hash).effects);
            && t.users == s.users + [User(newId, email.value, hash(password.value))]
            && (hash(password.value) != password.value ==> t.users[|s.users|].password != password.value)
  {
    var o := PostNew(s, email, password, newId, hash);
    ApplySingle(s, o.effects[0]);
  }
}
