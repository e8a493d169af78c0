/**
  The documents the blog stores (users and posts), the projection of a user
  that a session keeps, the outcomes a handler reports, and the credential
  rules of the `User` collection: unique usernames, unique emails, and the
  lookup by username or email that login uses.
 */
module Schema {
  import opened Wrappers

  /** A document id (Mongo's ObjectId); only equality and freshness matter. */
  type Id = nat

  /** A creation timestamp, opaque here. */
  type Timestamp = int

  /** A `User` document: `name`, `username`, `email`, the bcrypt hash kept in
      `password`, and the `createdAt` set by the schema's timestamps. */
  datatype User = User(
    name: string,
    username: string,
    email: string,
    passwordHash: string,
    createdAt: Timestamp)

  /** A `Post` document. `author` is `fName`, copied from the session when the
      post is created; `owner` is `userId`, absent on legacy documents;
      `date` is the `toDateString()` text of the creation day; `image` is the
      optional inline `imageData`. */
  datatype Post = Post(
    author: string,
    owner: Option<Id>,
    title: string,
    text: string,
    date: string,
    image: Option<string>)

  /** What login stores in `req.session.user`: the user's id and public
      fields, never the password hash. */
  datatype SessionUser = SessionUser(
    id: Id,
    name: string,
    username: string,
    email: string,
    createdAt: Timestamp)

  /** The result of one handler. */
  datatype Outcome =
    | Ok                  // the handler redirected or rendered its page
    | Unauthenticated     // 401: submit without a session
    | Forbidden           // 403: not the owner of the post
    | NotFound            // 404: no post with that id
    | Duplicate           // 400: signup with a username or email already in use
    | InvalidCredentials  // login failed: redirect back to /login
    | ServerError         // 500: a thrown exception (a post without `userId`)

  /** The session projection of user `id`. */
  function Project(id: Id, u: User): SessionUser {
    SessionUser(id, u.name, u.username, u.email, u.createdAt)
  }

  /** The projection does not depend on the stored password hash: two users
      differing only in their hash give the same session. */
  lemma ProjectIgnoresHash(id: Id, u: User, h: string)
    ensures Project(id, u.(passwordHash := h)) == Project(id, u)
  {
  }

  /** The unique indexes of the `User` collection: no two users share a
      username, and no two share an email. */
  ghost predicate CredentialsUnique(users: map<Id, User>) {
    forall a, b :: a in users && b in users && a != b ==>
      users[a].username != users[b].username && users[a].email != users[b].email
  }

  /** Signup's duplicate query `{ $or: [{ username }, { email }] }` finds a
      document. */
  predicate Taken(users: map<Id, User>, username: string, email: string) {
    exists id :: id in users && (users[id].username == username || users[id].email == email)
  }

  /** Login's query `{ $or: [{ username }, { email: username }] }`: every user
      whose username or whose email is the identifier typed in. */
  function Matching(users: map<Id, User>, identifier: string): (ids: set<Id>)
    ensures ids <= users.Keys
    ensures ids != {} <==> Taken(users, identifier, identifier)
  {
    var ids := set id | id in users && (users[id].username == identifier || users[id].email == identifier);
    assert ids != {} <==> Taken(users, identifier, identifier) by {
      if ids != {} {
        var x :| x in ids;
      }
      if Taken(users, identifier, identifier) {
        var x :| x in users && (users[x].username == identifier || users[x].email == identifier);
        assert x in ids;
      }
    }
    ids
  }

  /** Some id is above every id in use, so a fresh ObjectId can always be
      drawn. */
  lemma {:induction false} UpperBound(ids: set<Id>) returns (bound: Id)
    ensures forall x :: x in ids ==> x < bound
    decreases |ids|
  {
    if ids == {} {
      bound := 0;
    } else {
      var x :| x in ids;
      var rest := UpperBound(ids - {x});
      bound := if x < rest then rest else x + 1;
      assert forall y :: y in ids ==> y == x || y in ids - {x};
    }
  }

  /** Adding a user whose username and email are not taken keeps both
      indexes unique. */
  lemma SignupKeepsCredentialsUnique(users: map<Id, User>, id: Id, u: User)
    requires CredentialsUnique(users)
    requires id !in users
    requires !Taken(users, u.username, u.email)
    ensures CredentialsUnique(users[id := u])
  {
  }

  /** Once a user is stored, a second signup with the same username or the
      same email is a duplicate. */
  lemma StoredCredentialsAreTaken(users: map<Id, User>, id: Id, username: string, email: string)
    requires id in users
    requires users[id].username == username || users[id].email == email
    ensures Taken(users, username, email)
  {
  }

  /** A set none of whose members differ has at most one member. */
  lemma AtMostOne(s: set<Id>)
    requires forall a, b :: a in s && b in s ==> a == b
    ensures |s| <= 1
  {
    if s != {} {
      var x :| x in s;
      assert s == {x};
    }
  }

  /** Under the unique indexes, login's query matches at most two users: one
      by username and one by email. Two matches happen only when one user's
      email is another user's username; `findOne` then returns whichever the
      store yields first. */
  lemma MatchingAtMostTwo(users: map<Id, User>, identifier: string)
    requires CredentialsUnique(users)
    ensures |Matching(users, identifier)| <= 2
  {
    var byName := set id | id in users && users[id].username == identifier;
    var byEmail := set id | id in users && users[id].email == identifier;
    AtMostOne(byName);
    AtMostOne(byEmail);
    assert Matching(users, identifier) == byName + byEmail;
    assert |byName + byEmail| <= |byName| + |byEmail|;
  }

  /** Under the unique indexes, when no user's email is another user's
      username the identifier names at most one user, so login's choice is
      determined. */
  lemma MatchingUniqueWithoutCrossFieldClash(users: map<Id, User>, identifier: string)
    requires CredentialsUnique(users)
    requires forall a, b :: a in users && b in users && a != b ==> users[a].username != users[b].email
    ensures |Matching(users, identifier)| <= 1
  {
    AtMostOne(Matching(users, identifier));
  }
}
