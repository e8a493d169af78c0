/**
  The pure decisions under the route handlers: the ownership guard shared by
  the edit and delete handlers, the fields an edit writes, the GET edit
  page, the post count, and the filters of `/view` and `/search`. Lists are
  returned as maps from id to post (the set of documents a query finds);
  their order is not modelled.
 */
module Rules {
  import opened Wrappers
  import opened Schema
  import JsText

  /** The session user owns the post. */
  predicate IsOwner(session: Option<SessionUser>, post: Post) {
    session.Some? && post.owner == Some(session.value.id)
  }

  /** The ownership check `!req.session.user || post.userId.toString() !==
      req.session.user._id.toString()`. No session is Forbidden before the
      owner is looked at; with a session, a post without `userId` throws in
      `toString()` and the handler answers 500. */
  function CheckOwner(session: Option<SessionUser>, post: Post): (o: Outcome)
    ensures o == Ok || o == Forbidden || o == ServerError
    ensures o == Ok <==> IsOwner(session, post)
    ensures o == ServerError <==> session.Some? && post.owner.None?
    ensures o == Forbidden <==>
      session.None? || (post.owner.Some? && post.owner.value != session.value.id)
  {
    if session.None? then Forbidden
    else if post.owner.None? then ServerError
    else if post.owner.value != session.value.id then Forbidden
    else Ok
  }

  /** Only one user can pass the guard for a given post. */
  lemma OwnerIsUnique(s1: Option<SessionUser>, s2: Option<SessionUser>, post: Post)
    requires CheckOwner(s1, post) == Ok && CheckOwner(s2, post) == Ok
    ensures s1.value.id == s2.value.id
  {
  }

  /** The lookup followed by the guard, as the edit and delete handlers do it:
      404 when `findById` finds nothing, the guard's answer otherwise. */
  function Authorize(posts: map<Id, Post>, session: Option<SessionUser>, id: Id): (o: Outcome)
    ensures o == NotFound <==> id !in posts
    ensures o == Ok <==> id in posts && IsOwner(session, posts[id])
    ensures o == Forbidden ==> id in posts && !IsOwner(session, posts[id])
    ensures o == ServerError ==> id in posts && session.Some? && posts[id].owner.None?
    ensures id in posts ==> o == CheckOwner(session, posts[id])
  {
    if id !in posts then NotFound else CheckOwner(session, posts[id])
  }

  /** `GET /edit/:id`: the post to prefill the form with, or the refusal. */
  function EditForm(posts: map<Id, Post>, session: Option<SessionUser>, id: Id): (r: Result<Post, Outcome>)
    ensures r.Success? <==> id in posts && IsOwner(session, posts[id])
    ensures r.Success? ==> r.value == posts[id]
    ensures r.Failure? ==> r.error == Authorize(posts, session, id) && r.error != Ok
  {
    var o := Authorize(posts, session, id);
    if o == Ok then Success(posts[id]) else Failure(o)
  }

  /** The update `POST /edit/:id` writes: `fTitle` and `fText` from the form,
      and `imageData` only when `imageData?.trim()` is non-empty. Author,
      owner and date are never written. */
  function ApplyEdit(post: Post, title: string, text: string, imageData: Option<string>): (edited: Post)
    ensures edited.title == title && edited.text == text
    ensures edited.author == post.author && edited.owner == post.owner && edited.date == post.date
    ensures imageData.Some? && JsText.HasVisibleChar(imageData.value) ==> edited.image == imageData
    ensures imageData.None? || !JsText.HasVisibleChar(imageData.value) ==> edited.image == post.image
  {
    var replaceImage := imageData.Some? && JsText.Trim(imageData.value) != [];
    var supplied := if imageData.Some? then imageData.value else "";
    JsText.TrimEmptyIffBlank(supplied);
    post.(title := title, text := text, image := if replaceImage then imageData else post.image)
  }

  /** Submitting the same edit twice is the same as submitting it once. */
  lemma ApplyEditIdempotent(post: Post, title: string, text: string, imageData: Option<string>)
    ensures ApplyEdit(ApplyEdit(post, title, text, imageData), title, text, imageData)
         == ApplyEdit(post, title, text, imageData)
  {
  }

  /** An edit never changes who may edit the post next. */
  lemma EditKeepsOwnership(post: Post, session: Option<SessionUser>, title: string, text: string, imageData: Option<string>)
    ensures CheckOwner(session, ApplyEdit(post, title, text, imageData)) == CheckOwner(session, post)
  {
  }

  /** The posts whose `userId` is `uid` (`Post.find({ userId })`). */
  function OwnedBy(posts: map<Id, Post>, uid: Id): (mine: map<Id, Post>)
    ensures mine.Keys <= posts.Keys
    ensures forall id :: id in mine ==> mine[id] == posts[id]
    ensures forall id, s: SessionUser :: s.id == uid ==>
      (id in mine <==> Authorize(posts, Some(s), id) == Ok)
  {
    map id | id in posts && posts[id].owner == Some(uid) :: posts[id]
  }

  /** `GET /api/user-post-count`: 0 without a session (not an error),
      otherwise the number of posts whose owner is the session user. */
  function PostCount(posts: map<Id, Post>, session: Option<SessionUser>): (n: nat)
    ensures session.None? ==> n == 0
    ensures session.Some? ==> n == |set id | id in posts && posts[id].owner == Some(session.value.id)|
    ensures n <= |posts|
  {
    if session.None? then 0
    else
      var mine := OwnedBy(posts, session.value.id);
      assert mine.Keys == set id | id in posts && posts[id].owner == Some(session.value.id);
      SubsetCardinality(mine.Keys, posts.Keys);
      |mine|
  }

  lemma {:induction false} SubsetCardinality(a: set<Id>, b: set<Id>)
    requires a <= b
    ensures |a| <= |b|
    decreases |b|
  {
    if a != {} {
      var x :| x in a;
      SubsetCardinality(a - {x}, b - {x});
    }
  }

  /** Storing a new post raises its owner's count by one and nobody else's. */
  lemma CountAfterInsert(posts: map<Id, Post>, session: Option<SessionUser>, id: Id, p: Post)
    requires id !in posts
    ensures PostCount(posts[id := p], session)
         == PostCount(posts, session) + (if IsOwner(session, p) then 1 else 0)
  {
    if session.Some? {
      var uid := session.value.id;
      var before := set k | k in posts && posts[k].owner == Some(uid);
      var posts' := posts[id := p];
      var after := set k | k in posts' && posts'[k].owner == Some(uid);
      if IsOwner(session, p) {
        assert after == before + {id};
      } else {
        assert after == before;
      }
    }
  }

  /** Removing a post lowers its owner's count by one and nobody else's. */
  lemma CountAfterRemove(posts: map<Id, Post>, session: Option<SessionUser>, id: Id)
    requires id in posts
    ensures PostCount(posts - {id}, session)
         == PostCount(posts, session) - (if IsOwner(session, posts[id]) then 1 else 0)
  {
    if session.Some? {
      var uid := session.value.id;
      var before := set k | k in posts && posts[k].owner == Some(uid);
      var posts' := posts - {id};
      var after := set k | k in posts' && posts'[k].owner == Some(uid);
      if IsOwner(session, posts[id]) {
        assert after == before - {id};
      } else {
        assert after == before;
      }
    }
  }

  /** Replacing a post by an edited version leaves every count unchanged. */
  lemma CountAfterEdit(posts: map<Id, Post>, session: Option<SessionUser>, id: Id,
                       title: string, text: string, imageData: Option<string>)
    requires id in posts
    ensures PostCount(posts[id := ApplyEdit(posts[id], title, text, imageData)], session)
         == PostCount(posts, session)
  {
    if session.Some? {
      var uid := session.value.id;
      var posts' := posts[id := ApplyEdit(posts[id], title, text, imageData)];
      assert (set k | k in posts' && posts'[k].owner == Some(uid))
          == (set k | k in posts && posts[k].owner == Some(uid));
    }
  }

  /** `req.query.myPosts === "true" && req.session.user`. */
  predicate ShowsOnlyMine(myPosts: Option<string>, session: Option<SessionUser>) {
    myPosts == Some("true") && session.Some?
  }

  /** `GET /view`: the caller's own posts when `myPosts` is "true" and there
      is a session; every post otherwise (as on the home page). */
  function ViewPosts(posts: map<Id, Post>, session: Option<SessionUser>, myPosts: Option<string>): (shown: map<Id, Post>)
    ensures shown.Keys <= posts.Keys
    ensures forall id :: id in shown ==> shown[id] == posts[id]
    ensures forall id :: id in posts ==>
      (id in shown <==> !ShowsOnlyMine(myPosts, session) || IsOwner(session, posts[id]))
  {
    if ShowsOnlyMine(myPosts, session) then OwnedBy(posts, session.value.id) else posts
  }

  /** The posts with edit and delete controls on "my posts" are exactly the
      posts the guard lets the caller edit and delete. */
  lemma MyPostsAreTheEditable(posts: map<Id, Post>, session: Option<SessionUser>, id: Id)
    requires session.Some?
    ensures id in ViewPosts(posts, session, Some("true")) <==> Authorize(posts, session, id) == Ok
  {
  }

  /** With a session, the post count is the length of the "my posts" list. */
  lemma CountIsMyPostsLength(posts: map<Id, Post>, session: Option<SessionUser>)
    requires session.Some?
    ensures PostCount(posts, session) == |ViewPosts(posts, session, Some("true"))|
  {
  }

  /** `req.query.q || ""`: a missing or empty query becomes the empty pattern. */
  function SearchPattern(q: Option<string>): (pattern: string)
    ensures q.None? ==> pattern == ""
    ensures q.Some? ==> pattern == q.value
  {
    if q.Some? && q.value != "" then q.value else ""
  }

  /** `GET /search`: the posts whose title matches the query, ignoring case. */
  function SearchPosts(posts: map<Id, Post>, q: Option<string>): (found: map<Id, Post>)
    ensures found.Keys <= posts.Keys
    ensures forall id :: id in found ==> found[id] == posts[id]
    ensures forall id :: id in posts ==>
      (id in found <==>
         exists k :: JsText.OccursAt(JsText.Lower(posts[id].title), JsText.Lower(SearchPattern(q)), k))
  {
    assert forall id :: id in posts ==>
      (JsText.MatchesIgnoringCase(posts[id].title, SearchPattern(q)) <==>
         exists k :: JsText.OccursAt(JsText.Lower(posts[id].title), JsText.Lower(SearchPattern(q)), k))
    by {
      forall id | id in posts {
        JsText.ContainsIffOccurs(JsText.Lower(posts[id].title), JsText.Lower(SearchPattern(q)));
      }
    }
    map id | id in posts && JsText.MatchesIgnoringCase(posts[id].title, SearchPattern(q)) :: posts[id]
  }

  /** A missing or empty query lists every post, like the home page. */
  lemma EmptySearchListsAll(posts: map<Id, Post>, q: Option<string>)
    requires q.None? || q == Some("")
    ensures SearchPosts(posts, q) == posts
  {
  }
}
