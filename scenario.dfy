/**
  The ownership story told end to end against the `Blog.Server` contracts:
  Alice and Bob sign up, Alice posts with an image, Bob's edit and delete
  are refused, Alice's edit with a blank image keeps the image, and Alice's
  delete removes the post.
 */
module Scenario {
  import opened Wrappers
  import opened Schema
  import JsText
  import Blog

  /** Logging in with the only account the identifier names, and that
      account's own password, starts a session for it. */
  method LoginAs(server: Blog.Server, identifier: string, password: string, id: Id)
    requires server.Valid()
    requires Matching(server.users, identifier) == {id}
    requires server.users[id].passwordHash == server.hash(password)
    modifies server`session
    ensures server.Valid()
    ensures server.session.Some? && server.session.value.id == id
  {
    assert server.verify(password, server.hash(password));
    var o := server.Login(identifier, password);
  }

  /** Alice and Bob sign up on an empty server. */
  method SignUpTwo(server: Blog.Server) returns (alice: Id, bob: Id)
    requires server.Valid() && server.users == map[]
    modifies server`users
    ensures server.Valid()
    ensures alice != bob
    ensures server.users == map[alice := User("Alice", "alice", "alice@example.com", server.hash("pa"), 1),
                                bob := User("Bob", "bob", "bob@example.com", server.hash("pb"), 2)]
    ensures Matching(server.users, "alice") == {alice} && Matching(server.users, "bob") == {bob}
  {
    var o1, o2;
    o1, alice := server.Signup("Alice", "alice", "alice@example.com", "pa", 1);
    assert o1 == Ok;
    o2, bob := server.Signup("Bob", "bob", "bob@example.com", "pb", 2);
    assert o2 == Ok;
  }

  method OwnershipStory(hash: string -> string, verify: (string, string) -> bool)
    returns (bobEdit: Outcome, bobDelete: Outcome, aliceEdit: Outcome, keptImage: Option<string>,
             aliceDelete: Outcome, remaining: map<Id, Post>)
    requires forall p :: verify(p, hash(p))
    ensures bobEdit == Forbidden && bobDelete == Forbidden
    ensures aliceEdit == Ok && keptImage == Some("img")
    ensures aliceDelete == Ok && remaining == map[]
  {
    var server := new Blog.Server(hash, verify, map[], map[]);
    var alice, bob := SignUpTwo(server);

    LoginAs(server, "alice", "pa", alice);
    var submitted, p1 := server.Submit("Hello", "first post", Some("img"), "Mon Jan 01 2024");
    assert server.posts == map[p1 := Post("Alice", Some(alice), "Hello", "first post", "Mon Jan 01 2024", Some("img"))];

    server.Logout();
    LoginAs(server, "bob", "pb", bob);
    bobEdit := server.Edit(p1, "Hacked", "by Bob", None);
    bobDelete := server.Delete(p1);

    server.Logout();
    LoginAs(server, "alice", "pa", alice);
    assert !JsText.HasVisibleChar("  ");
    aliceEdit := server.Edit(p1, "Hello again", "edited", Some("  "));
    keptImage := server.posts[p1].image;
    aliceDelete := server.Delete(p1);
    remaining := server.posts;
  }
}
