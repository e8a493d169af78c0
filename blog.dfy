/**
  The handlers that change state, as methods of one object holding the two
  collections the app writes (`User` and `Post`) and the caller's session
  (`req.session.user`). Each method first looks up, then checks, then
  writes, as its handler does, and a refused request writes nothing.
 */
module Blog {
  import opened Wrappers
  import opened Schema
  import opened Rules

  class Server {
    /** The `User` collection. */
    var users: map<Id, User>
    /** The `Post` collection. */
    var posts: map<Id, Post>
    /** `req.session.user` of the caller. */
    var session: Option<SessionUser>
    /** `bcrypt.hash` (its salt and cost left out). */
    const hash: string -> string
    /** `bcrypt.compare`. */
    const verify: (string, string) -> bool

    /** The unique indexes hold, a password verifies against its own hash, and
        a session is the projection of a stored user. */
    ghost predicate Valid()
      reads this
    {
      && CredentialsUnique(users)
      && (forall p :: verify(p, hash(p)))
      && (session.Some? ==>
            session.value.id in users && session.value == Project(session.value.id, users[session.value.id]))
    }

    /** A server over the collections found in the database, with nobody
        logged in. */
    constructor (hash: string -> string, verify: (string, string) -> bool,
                 users: map<Id, User>, posts: map<Id, Post>)
      requires CredentialsUnique(users)
      requires forall p :: verify(p, hash(p))
      ensures Valid()
      ensures this.users == users && this.posts == posts && session == None
      ensures this.hash == hash && this.verify == verify
    {
      this.users := users;
      this.posts := posts;
      this.session := None;
      this.hash := hash;
      this.verify := verify;
    }

    /** `POST /submit`: 401 without a session; otherwise exactly one new post,
        under a fresh id, whose author and owner come from the session and
        whose title, text and image come from the form. */
    method Submit(title: string, text: string, imageData: Option<string>, today: string)
      returns (o: Outcome, id: Id)
      requires Valid()
      modifies this`posts
      ensures Valid()
      ensures session.None? ==> o == Unauthenticated && posts == old(posts)
      ensures session.Some? ==> o == Ok && id !in old(posts)
      ensures session.Some? ==>
        posts == old(posts)[id := Post(session.value.name, Some(session.value.id), title, text, today, imageData)]
    {
      if session.None? {
        return Unauthenticated, 0;
      }
      var bound := UpperBound(posts.Keys);
      assert bound !in posts;
      id :| id !in posts;
      var user := session.value;
      posts := posts[id := Post(user.name, Some(user.id), title, text, today, imageData)];
      o := Ok;
    }

    /** `POST /edit/:id`: 404 when there is no such post, the ownership guard's
        refusal otherwise, and on success the edited post replaces the old
        one while every other post stays as it was. */
    method Edit(id: Id, title: string, text: string, imageData: Option<string>) returns (o: Outcome)
      requires Valid()
      modifies this`posts
      ensures Valid()
      ensures o == Authorize(old(posts), session, id)
      ensures o == Ok ==> posts == old(posts)[id := ApplyEdit(old(posts)[id], title, text, imageData)]
      ensures o != Ok ==> posts == old(posts)
    {
      if id !in posts {
        return NotFound;
      }
      var post := posts[id];
      o := CheckOwner(session, post);
      if o != Ok {
        return;
      }
      posts := posts[id := ApplyEdit(post, title, text, imageData)];
    }

    /** `POST /delete/:id`: the same refusals as edit; on success exactly that
        post is removed. */
    method Delete(id: Id) returns (o: Outcome)
      requires Valid()
      modifies this`posts
      ensures Valid()
      ensures o == Authorize(old(posts), session, id)
      ensures o == Ok ==> posts == old(posts) - {id}
      ensures o != Ok ==> posts == old(posts)
    {
      if id !in posts {
        return NotFound;
      }
      o := CheckOwner(session, posts[id]);
      if o != Ok {
        return;
      }
      posts := posts - {id};
    }

    /** `POST /signup`: 400 and no change when the username or the email is
        already in use; otherwise exactly one new user, under a fresh id,
        whose stored password is the hash of the one given. */
    method Signup(name: string, username: string, email: string, password: string, now: Timestamp)
      returns (o: Outcome, id: Id)
      requires Valid()
      modifies this`users
      ensures Valid()
      ensures o == Ok || o == Duplicate
      ensures o == Duplicate <==> Taken(old(users), username, email)
      ensures o == Duplicate ==> users == old(users)
      ensures o == Ok ==>
        id !in old(users) && users == old(users)[id := User(name, username, email, hash(password), now)]
    {
      if Taken(users, username, email) {
        return Duplicate, 0;
      }
      var bound := UpperBound(users.Keys);
      assert bound !in users;
      id :| id !in users;
      var user := User(name, username, email, hash(password), now);
      SignupKeepsCredentialsUnique(users, id, user);
      users := users[id := user];
      o := Ok;
    }

    /** `POST /login`: `findOne` returns some user whose username or email is
        the identifier; when the password verifies against that user's hash
        the session becomes the user's projection, otherwise nothing changes. */
    method Login(identifier: string, password: string) returns (o: Outcome)
      requires Valid()
      modifies this`session
      ensures Valid()
      ensures o == Ok || o == InvalidCredentials
      ensures o == InvalidCredentials ==> session == old(session)
      ensures o == Ok ==>
        && session.Some?
        && session.value.id in Matching(users, identifier)
        && session.value == Project(session.value.id, users[session.value.id])
        && verify(password, users[session.value.id].passwordHash)
      ensures Matching(users, identifier) == {} ==> o == InvalidCredentials
      ensures Matching(users, identifier) != {}
              && (forall id :: id in Matching(users, identifier) ==> verify(password, users[id].passwordHash))
              ==> o == Ok
    {
      var candidates := Matching(users, identifier);
      if candidates == {} {
        return InvalidCredentials;
      }
      var id :| id in candidates;
      var user := users[id];
      if verify(password, user.passwordHash) {
        session := Some(Project(id, user));
        o := Ok;
      } else {
        o := InvalidCredentials;
      }
    }

    /** `POST /logout`: the session is destroyed, whatever it was; a second
        logout finds it already gone. */
    method Logout()
      requires Valid()
      modifies this`session
      ensures Valid()
      ensures session == None
    {
      session := None;
    }
  }
}
