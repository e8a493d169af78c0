# Blogify: post ownership and credentials

This project models the core behind Blogify's Express routes (`index.js`). That core is two document collections: users and posts. Each post belongs to the user who created it. Sessions hold a projection of the logged-in user. Three rules decide who may change what:

- A post records its author's name and owner id from the session at creation. The request body plays no part in this.
- Only the owner of a post may open its edit page, edit it or delete it. A missing post is 404. A different user, or no session, is 403.
- Usernames are unique, and so are emails. Signup refuses a request whose username or email is already taken. Login accepts a username or an email together with the password.

The model has six modules:

- `Wrappers` (`wrappers.dfy`): `Option` and `Result`.
- `JsText` (`jstext.dfy`): the JavaScript string behaviour the handlers rely on.
  - `trim`, with ECMAScript's white-space and line-terminator code points.
  - A case-insensitive "title contains" match for the search page.
- `Schema` (`schema.dfy`): the `User` and `Post` documents, the session projection and the handler outcomes.
  - The unique-index invariant.
  - The signup duplicate query and the login lookup.
- `Rules` (`rules.dfy`): the pure decisions.
  - The ownership guard shared by the three post-changing routes.
  - The fields an edit writes.
  - The GET edit page.
  - The post count.
  - The `/view` and `/search` filters.
- `Blog` (`blog.dfy`): class `Server`, which holds the `users` and `posts` maps and the caller's `session`.
  - Its methods are the handlers that change state: submit, edit, delete, signup, login and logout.
  - Each method looks up, checks, then writes. A refused request writes nothing.
  - `Valid()` is the invariant every method keeps: the unique indexes hold, a password verifies against its own hash, and the session is the projection of a stored user.
- `Scenario` (`scenario.dfy`): a client of the `Server` contracts. It plays out the whole story: two sign-ups, a post, the other user refused, and the owner's edit and delete.

Where the handlers and a plain reading of their intent differ, the model follows the code:

- An edit keeps the old image when the new `imageData` is missing, empty or only white space. This is `imageData?.trim()`, not an emptiness test.
- A post without `userId` is not simply "forbidden". With no session the guard answers 403 before it looks at the owner. With a session, `userId.toString()` throws and the handler answers 500 (`ServerError`).
- A failed login is not an error status: the handler redirects back to the login page (`InvalidCredentials`).
- `/view?myPosts=true` without a session lists every post, while the post count for that caller is 0. `Rules.CountIsMyPostsLength` therefore holds only with a session.
- Signup checks a new username against existing usernames and a new email against existing emails. It never compares a username with an email. A user's email can therefore be another user's username. Login's `findOne` then matches both accounts and picks whichever the store returns first (`Schema.MatchingAtMostTwo`, `Schema.MatchingUniqueWithoutCrossFieldClash`). `Blog.Server.Login` models that pick as an unspecified choice.

## Model

| member | source | states |
|---|---|---|
| `JsText.TrimStart` | index.js:237 | the result is a suffix of the input, everything dropped is white space, and the result does not start with white space |
| `JsText.TrimEnd` | index.js:237 | the result is a prefix of the input, everything dropped is white space, and the result does not end with white space |
| `JsText.TrimEmptyIffBlank` | index.js:237 | `s.trim()` is empty (falsy) exactly when every character of `s` is white space |
| `JsText.ContainsIffOccurs` | index.js:138-140 | the left-to-right scan finds a pattern exactly when it occurs at some offset of the title |
| `JsText.EmptyPatternMatchesAll` | index.js:137-139 | the empty search pattern matches every title |
| `Schema.ProjectIgnoresHash` | index.js:298-304 | the session projection of a user does not depend on the stored password hash |
| `Schema.Matching` | index.js:295 | login's `$or` query returns stored users only, and finds someone exactly when signup's duplicate query would find someone for that string as both username and email |
| `Schema.UpperBound` | index.js:173-182 | some id lies above every id in use, so a fresh document id always exists |
| `Schema.SignupKeepsCredentialsUnique` | index.js:274-279 | adding a user whose username and email are not taken keeps usernames and emails pairwise distinct |
| `Schema.StoredCredentialsAreTaken` | index.js:274-275 | once a user is stored, any later signup with that username or that email is a duplicate |
| `Schema.MatchingAtMostTwo` | index.js:295 | under the unique indexes the login lookup matches at most two users: one by username, one by email |
| `Schema.MatchingUniqueWithoutCrossFieldClash` | index.js:295 | when no user's email is another user's username, the login lookup matches at most one user |
| `Rules.CheckOwner` | index.js:228-230 | the guard allows exactly the session user who owns the post; no session is 403; with a session, a post without owner is 500; any other owner is 403 |
| `Rules.OwnerIsUnique` | index.js:228 | two sessions that both pass the guard for one post belong to the same user |
| `Rules.Authorize` | index.js:250-256 | lookup then guard: 404 exactly when the id is absent, otherwise the ownership guard's own answer, so success exactly when the caller owns the post |
| `Rules.EditForm` | index.js:205-213 | GET edit returns the stored post exactly when the caller owns it, and otherwise the same 404/403/500 refusal that POST edit and delete give |
| `Rules.ApplyEdit` | index.js:232-239 | an edit sets title and text from the form, replaces the image only when the new value has a non-white-space character, and keeps author, owner and date |
| `Rules.ApplyEditIdempotent` | index.js:232-239 | posting the same edit twice gives the same post as posting it once |
| `Rules.EditKeepsOwnership` | index.js:232-237 | after an edit the guard gives every session the same answer as before |
| `Rules.OwnedBy` | index.js:116 | the owner query returns stored posts unchanged, and exactly those that a session of that user may edit and delete |
| `Rules.PostCount` | index.js:191-195 | the count is 0 without a session, otherwise the number of posts owned by the session user, and never more than the number of posts |
| `Rules.CountAfterInsert` | index.js:173-182 | storing a new post raises the count of its owner by one and leaves other callers' counts unchanged |
| `Rules.CountAfterRemove` | index.js:258 | deleting a post lowers its owner's count by one and leaves other callers' counts unchanged |
| `Rules.CountAfterEdit` | index.js:239 | an edit leaves every caller's count unchanged |
| `Rules.ViewPosts` | index.js:114-120 | `/view` shows only the caller's own posts when `myPosts` is "true" and there is a session, and every post otherwise |
| `Rules.MyPostsAreTheEditable` | index.js:114-117 | with a session, the posts listed under "my posts" are exactly those the guard lets the caller edit and delete |
| `Rules.CountIsMyPostsLength` | index.js:194 | with a session, the post count equals the number of posts listed under "my posts" |
| `Rules.SearchPattern` | index.js:137 | a missing query becomes the empty pattern; a given query is used as it is |
| `Rules.SearchPosts` | index.js:137-140 | search returns stored posts unchanged, and exactly those whose lower-cased title has the lower-cased pattern at some offset |
| `Rules.EmptySearchListsAll` | index.js:137-140 | a missing or empty query returns every post |
| `Blog.Server.constructor` | index.js:57-74 | a server over collections that satisfy the unique indexes starts with nobody logged in |
| `Blog.Server.Submit` | index.js:164-183 | with no session: 401 and no change; otherwise exactly one new post under a fresh id, with author and owner from the session and title, text and image from the form |
| `Blog.Server.Edit` | index.js:221-240 | the outcome is lookup then guard; on success only that post changes, to the edited one; on refusal nothing changes |
| `Blog.Server.Delete` | index.js:248-259 | the same refusals as edit; on success exactly that post is removed |
| `Blog.Server.Signup` | index.js:271-280 | 400 with no change exactly when the username or email is taken; otherwise exactly one new user with the hashed password; the unique indexes are kept |
| `Blog.Server.Login` | index.js:292-308 | a session is set only to the projection of a user matched by username or email whose hash verifies; otherwise the session is left as it was; no match always fails; a password that verifies for every match always succeeds |
| `Blog.Server.Logout` | index.js:316-318 | the session is gone afterwards, whatever it was, so logging out twice is the same as once |
| `Scenario.LoginAs` | index.js:295-305 | logging in with the only account an identifier names, using that account's own password, starts a session for it |
| `Scenario.SignUpTwo` | index.js:271-280 | two sign-ups with distinct credentials on an empty store both succeed and store both users |
| `Scenario.OwnershipStory` | index.js:164-259 | Bob cannot edit or delete Alice's post; Alice's edit with a blank image keeps her image; her delete leaves no posts |

## Left out

- Server setup, static files, body-size limits, EJS rendering, the `res.locals` middleware and the error middleware. They are framework glue and decide nothing.
- The MongoDB connection and `process.exit`: I/O. A database error thrown during a handler, which would give a 500, is not modelled.
- The contact form and its write: it touches no modelled state.
- The form-only pages: `GET /create`, `/signup`, `/login` and `/profile`. They only render or redirect.
- `GET /post/:id`: a read-only lookup that answers 404 when the post is absent and applies no ownership guard. It changes nothing.
- The home page `GET /`. It lists every post, and that is what `Rules.ViewPosts` returns when it is not asked for the caller's own posts.
- bcrypt. Hashing is the server's `hash` function and `bcrypt.compare` is its `verify` function. The only law assumed is that a password verifies against its own hash. Salt and cost are not modelled.
- Ids, dates and clocks are parameters or opaque values:
  - An ObjectId is any id not yet in the map.
  - `toDateString()` is an opaque string passed to `Blog.Server.Submit`.
  - The user's `createdAt` is a timestamp passed to `Blog.Server.Signup`.
- Malformed ids. A request id that is not a valid ObjectId makes `findById` throw, giving a 500. Ids here are always well formed.
- Missing body fields. Title, text and the signup and login fields are always strings. Only `imageData` may be absent, which the handlers handle explicitly.
- Ordering. `sort({ createdAt: -1 })` sorts posts on a field the Post schema never defines, so lists are the set of matching posts, returned as maps.
- Rules.SearchPosts: treats the query as a literal substring with ASCII-only case folding. MongoDB treats it as a regular expression with Unicode case-insensitivity. Only "an empty or missing query lists every post" is claimed to agree with the real search.
- Blog.Server.Login: does not say which of two matching users `findOne` returns when one user's email is another user's username. The store's natural order decides, and it is not modelled.
- Concurrency. The race between signup's duplicate check and its insert is closed by the unique indexes at the storage layer, which requests running one at a time do not need. Likewise, a post deleted between an edit's lookup and its update is not modelled.
- Sessions of other clients. The server holds only the calling client's session. Cookies and session storage are not modelled.
- Code points versus UTF-16. Strings are sequences of Unicode code points, not UTF-16 code units.
