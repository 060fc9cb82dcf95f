# Posts router model

A Dafny model of the posts router of a small status-feed web application
(`src/server/api/routers/posts.ts`). The router has two procedures:

- `getAll` reads the newest posts from the post store, at most 100, newest first. It asks the
  identity directory for their authors and projects each user record to a client view
  (`filterUserForClient`). It then pairs every post with the first user whose id is the
  post's `authorId`. If any post has no such user, the whole call fails with
  `INTERNAL_SERVER_ERROR` / "Author not found" and no list is returned.
- `create` accepts `content` of 1 to 200 characters. It appends a post whose author is the
  session's user id, never a value from the request.

The model is pure, like the source: datatypes and functions, with lemmas about them.

- `wrappers.dfy`: `Option` (a value that may be JavaScript `null`) and `Result` (a value, or
  the error a procedure throws).
- `post_store.dfy` (module `PostStore`): the `Post` row and the store read of `getAll`. The
  store is a sequence of rows. The read sorts it by `createdAt` descending and takes the
  first `FeedLimit` (100) rows.
- `posts_router.dfy` (module `PostsRouter`): users, author views, feed entries and errors;
  `FilterUserForClient`, `FindFirst` (`Array.prototype.find`), `ComposeFeed` (the
  all-or-nothing join), `GetAll`, `CheckContent` (the `min(1).max(200)` schema) and
  `Create`. It ends with worked scenarios.

Inputs from outside the router are parameters:
- `GetAll` takes the store and the directory's answer (the user list).
- `Create` takes the store, the session's user id, and the `id` and `createdAt` that the
  store assigns to the new row.
- `Create` returns a `Mutation`: the store afterwards, and the post or the error.

A missing first or last name is `None`. It renders as the text `null`, because that is
what the JavaScript string concatenation produces. So the name of a user without a last
name ends in `" null"`.

The code hands the directory the author id of every post, duplicates included. It does not
collect a distinct set of ids first.

## Model

| member | source | states |
|---|---|---|
| `PostStore.SortNewestFirst` | src/server/api/routers/posts.ts:22-24 | the result is ordered by `createdAt`, never increasing, and is a permutation of the store |
| `PostStore.FetchRecent` | src/server/api/routers/posts.ts:20-25 | the read returns the smaller of the store size and 100 posts, newest first, all drawn from the store; every stored post left out is no newer than the last one returned |
| `PostsRouter.Render` | src/server/api/routers/posts.ts:14 | a present name part is kept verbatim; a null one reads `null` |
| `PostsRouter.FilterUserForClient` | src/server/api/routers/posts.ts:12-16 | id and profile image unchanged; the name is the first part, one space, the last part; both present gives exactly `first + " " + last`; a missing first part makes the name start with `"null "`, a missing last part makes it end with `" null"` |
| `PostsRouter.ProjectUsers` | src/server/api/routers/posts.ts:28-33 | the directory's answer is projected user by user, same length and order |
| `PostsRouter.FindFirst` | src/server/api/routers/posts.ts:37 | finds an author exactly when some author has the id; the one found has that id and no earlier author has it |
| `PostsRouter.FindFirstAppend` | src/server/api/routers/posts.ts:37 | a lookup in `xs + ys` is the lookup in `xs` when that succeeds and otherwise the lookup in `ys`: the earliest duplicate wins |
| `PostsRouter.ComposeFeed` | src/server/api/routers/posts.ts:36-48 | succeeds exactly when every post's author id resolves; the only failure is "Author not found" with `INTERNAL_SERVER_ERROR`; on success one entry per post, in post order, each author the first match and carrying the post's author id |
| `PostsRouter.FeedKeepsOrder` | src/server/api/routers/posts.ts:36-48 | joining newest-first posts gives entries that are newest first |
| `PostsRouter.ComposeFeedAppend` | src/server/api/routers/posts.ts:36-48 | the join of two runs of posts is the two joins concatenated when both succeed, and "Author not found" when either fails: no partial list |
| `PostsRouter.ComposeFeedIgnoresLaterAuthors` | src/server/api/routers/posts.ts:37 | when every post already resolves, authors appended after the list change nothing |
| `PostsRouter.GetAll` | src/server/api/routers/posts.ts:19-48 | succeeds exactly when every fetched post's author id is some user's id in the directory's answer; fails only with "Author not found" (`INTERNAL_SERVER_ERROR`); on success at most 100 entries, entry i holds fetched post i, newest first, every post a stored post, every author the projection of an answered user with the post's author id |
| `PostsRouter.GetAllSucceedsIff` | src/server/api/routers/posts.ts:28-42 | the join over the projected answer succeeds exactly when each post's author id is carried by some answered user |
| `PostsRouter.ResolvesProjected` | src/server/api/routers/posts.ts:28-37 | an id resolves among the projected users exactly when some user in the directory's answer carries it |
| `PostsRouter.FirstUserFound` | src/server/api/routers/posts.ts:37 | looking up a user's id in the projected answer yields the projection of the first user with that id |
| `PostsRouter.GetAllPicksFirstUser` | src/server/api/routers/posts.ts:37 | with several answered users sharing a post's author id, the entry's author is the projection of the first of them |
| `PostsRouter.CheckContent` | src/server/api/routers/posts.ts:52-56 | no issue exactly for lengths 1 to 200; "too small (1)" exactly for length 0; "too big (200)" exactly above 200 |
| `PostsRouter.Create` | src/server/api/routers/posts.ts:51-68 | succeeds exactly for content of 1 to 200 characters; a rejection is a `BAD_REQUEST` input error and leaves the store as it was; a success appends exactly one post, by the session's user, with the content unchanged and the store-assigned id and time, after the existing posts untouched |
| `PostsRouter.CreateThenFetchShowsNewPostFirst` | src/server/api/routers/posts.ts:58-65 | a post created later than every stored post is the first post of the next feed read |
| `PostsRouter.FeedScenario` | src/server/api/routers/posts.ts:19-48 | two posts by two users, stored oldest first, come back newest first with the names "A B" and "C D" |
| `PostsRouter.FeedScenarioMissingAuthor` | src/server/api/routers/posts.ts:37-42 | the same store with the second author missing from the answer fails with "Author not found" |
| `PostsRouter.CreateScenario` | src/server/api/routers/posts.ts:51-68 | `create("hello")` by u1 stores one post by u1; `create("")` is rejected as too small and stores nothing |

## Left out

- The post store's `findMany` and `create`, and the directory's `getUserList`: database and
  network calls. The store is a sequence, and the directory's answer is a parameter of
  `GetAll`. The model does not tie that answer to the requested ids, nor to the directory's
  `limit: 100`.
- `PostStore.SortNewestFirst`: the store does not promise an order among posts with equal
  `createdAt`. The model sorts them one particular way. The contracts state only the
  ordering, the permutation, and that the rows left out are no newer, which holds for any
  order of ties.
- How the store generates `id` and `createdAt`: these are parameters of `Create`.
- The `privateProcedure` session check: it is not part of this model. `Create` takes a
  session user id that is present.
- Infrastructure failures of the store or the directory: they propagate unchanged and
  the router adds no logic to them.
- `console.log(users)`: output with no effect on the result.
- `PostsRouter.CheckContent`: reports the failed rule (`TooSmall(1)` or `TooBig(200)`),
  not the text of the schema library's error message.
- `PostsRouter.CheckContent`: measures length in characters of the sequence. JavaScript
  counts UTF-16 code units, so characters outside the basic plane count once here, not
  twice.
- `src/pages/index.tsx`: page rendering and relative-time formatting, with no logic of
  the router.
