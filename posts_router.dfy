/** The posts router: the two procedures `getAll` (the feed) and `create` (a new
    post), with the author projection the feed uses. The store read, the identity
    directory's answer, the session's user id and the values the store assigns to a
    new row are inputs. */
module PostsRouter {
  import opened Wrappers
  import opened PostStore

  // ---------------------------------------------------------------------------
  // Users and the author projection
  // ---------------------------------------------------------------------------

  /** A user record from the identity directory; either name part may be null. */
  datatype User = User(id: string, firstName: Option<string>, lastName: Option<string>, profileImageUrl: string)

  /** The part of a user that is sent to the client. */
  datatype AuthorView = AuthorView(id: string, name: string, profileImageUrl: string)

  /** One element of the feed: a post and its resolved author. */
  datatype FeedEntry = FeedEntry(post: Post, author: AuthorView)

  /** How a null name part reads once concatenated into a string. */
  const NullText: string := "null"

  /** String concatenation of a possibly null value. */
  function Render(part: Option<string>): (r: string)
    ensures part.Some? ==> r == part.value
    ensures part.None? ==> r == NullText
  {
    match part
    case Some(text) => text
    case None => NullText
  }

  /** `filterUserForClient`: keeps the id and the image, joins the name parts with
      one space. */
  function FilterUserForClient(user: User): (a: AuthorView)
    ensures a.id == user.id && a.profileImageUrl == user.profileImageUrl
    ensures |a.name| == |Render(user.firstName)| + 1 + |Render(user.lastName)|
    ensures a.name[|Render(user.firstName)|] == ' '
    ensures a.name[..|Render(user.firstName)|] == Render(user.firstName)
    ensures a.name[|Render(user.firstName)| + 1..] == Render(user.lastName)
    ensures user.firstName.Some? && user.lastName.Some? ==> a.name == user.firstName.value + " " + user.lastName.value
    ensures user.firstName.None? ==> a.name[..|NullText| + 1] == NullText + " "
    ensures user.lastName.None? ==> a.name[|a.name| - |NullText| - 1..] == " " + NullText
  {
    AuthorView(user.id, Render(user.firstName) + " " + Render(user.lastName), user.profileImageUrl)
  }

  /** The identity directory's answer projected for the client, in its order. */
  function ProjectUsers(users: seq<User>): (r: seq<AuthorView>)
    ensures |r| == |users|
    ensures forall k | 0 <= k < |users| :: r[k] == FilterUserForClient(users[k])
  {
    seq(|users|, k requires 0 <= k < |users| => FilterUserForClient(users[k]))
  }

  // ---------------------------------------------------------------------------
  // Author lookup
  // ---------------------------------------------------------------------------

  /** Some author in `authors` has the id `id`. */
  predicate Resolves(authors: seq<AuthorView>, id: string)
  {
    exists k | 0 <= k < |authors| :: authors[k].id == id
  }

  /** `users.find(user => user.id === id)`: the first author with that id. */
  function FindFirst(authors: seq<AuthorView>, id: string): (r: Option<AuthorView>)
    ensures r.Some? <==> Resolves(authors, id)
    ensures r.Some? ==> r.value.id == id
    ensures r.Some? ==> exists k | 0 <= k < |authors| :: authors[k] == r.value && forall j | 0 <= j < k :: authors[j].id != id
  {
    if authors == [] then
      None
    else if authors[0].id == id then
      Some(authors[0])
    else
      var r := FindFirst(authors[1..], id);
      assert forall k | 1 <= k < |authors| :: authors[k] == authors[1..][k - 1];
      if r.Some? then
        var k :| 0 <= k < |authors[1..]| && authors[1..][k] == r.value && forall j | 0 <= j < k :: authors[1..][j].id != id;
        assert authors[k + 1] == r.value && forall j | 0 <= j < k + 1 :: authors[j].id != id;
        r
      else
        r
  }

  /** Looking up in two lists joined is looking up in the first, then in the second:
      of several users with one id, the earliest in the list is the one used. */
  lemma {:induction false} FindFirstAppend(xs: seq<AuthorView>, ys: seq<AuthorView>, id: string)
    ensures FindFirst(xs + ys, id) == if FindFirst(xs, id).Some? then FindFirst(xs, id) else FindFirst(ys, id)
  {
    if xs == [] {
      assert xs + ys == ys;
    } else {
      assert (xs + ys)[1..] == xs[1..] + ys;
      FindFirstAppend(xs[1..], ys, id);
    }
  }

  // ---------------------------------------------------------------------------
  // Feed composition
  // ---------------------------------------------------------------------------

  datatype ErrorCode = InternalServerError | BadRequest

  /** A failed input check on `content`. */
  datatype ContentIssue = TooSmall(minimum: nat) | TooBig(maximum: nat)

  /** What a procedure throws: a router error with its code and message, or the
      rejection of an input that fails its declared schema. */
  datatype ApiError = RouterError(code: ErrorCode, message: string) | InvalidInput(issue: ContentIssue)
  {
    function Code(): ErrorCode
    {
      match this
      case RouterError(code, _) => code
      case InvalidInput(_) => BadRequest
    }
  }

  const AuthorNotFound: ApiError := RouterError(InternalServerError, "Author not found")

  /** Every post's author id is among the authors' ids. */
  predicate AllResolve(posts: seq<Post>, authors: seq<AuthorView>)
  {
    forall i | 0 <= i < |posts| :: Resolves(authors, posts[i].authorId)
  }

  /** `posts.map(...)` pairing each post with its first matching author; the first
      post without one throws "Author not found" and no list is returned. */
  function ComposeFeed(posts: seq<Post>, authors: seq<AuthorView>): (r: Result<seq<FeedEntry>, ApiError>)
    ensures r.Ok? <==> AllResolve(posts, authors)
    ensures r.Err? ==> r.error == AuthorNotFound
    ensures r.Ok? ==> |r.value| == |posts|
    ensures r.Ok? ==> forall i | 0 <= i < |posts| ::
      r.value[i].post == posts[i] && r.value[i].author.id == posts[i].authorId
      && FindFirst(authors, posts[i].authorId) == Some(r.value[i].author)
  {
    if posts == [] then
      Ok([])
    else
      match FindFirst(authors, posts[0].authorId)
      case None => Err(AuthorNotFound)
      case Some(author) =>
        var rest := ComposeFeed(posts[1..], authors);
        assert forall i | 1 <= i < |posts| :: posts[i] == posts[1..][i - 1];
        match rest
        case Err(e) => Err(e)
        case Ok(entries) => Ok([FeedEntry(posts[0], author)] + entries)
  }

  /** The join is all-or-nothing piece by piece: composing two runs of posts is
      composing each and joining the lists, and fails when either part fails. */
  lemma {:induction false} ComposeFeedAppend(xs: seq<Post>, ys: seq<Post>, authors: seq<AuthorView>)
    ensures ComposeFeed(xs + ys, authors) ==
      match (ComposeFeed(xs, authors), ComposeFeed(ys, authors))
      case (Ok(a), Ok(b)) => Ok(a + b)
      case _ => Err(AuthorNotFound)
  {
    if xs == [] {
      assert xs + ys == ys;
      if ComposeFeed(ys, authors).Ok? {
        assert [] + ComposeFeed(ys, authors).value == ComposeFeed(ys, authors).value;
      }
    } else {
      assert (xs + ys)[0] == xs[0] && (xs + ys)[1..] == xs[1..] + ys;
      ComposeFeedAppend(xs[1..], ys, authors);
      match FindFirst(authors, xs[0].authorId)
      case None =>
      case Some(author) =>
        match (ComposeFeed(xs[1..], authors), ComposeFeed(ys, authors))
        case (Ok(a), Ok(b)) =>
          assert [FeedEntry(xs[0], author)] + (a + b) == ([FeedEntry(xs[0], author)] + a) + b;
        case _ =>
    }
  }

  /** Authors listed after every needed one change nothing: the feed only depends on
      the first match of each id. */
  lemma {:induction false} ComposeFeedIgnoresLaterAuthors(posts: seq<Post>, authors: seq<AuthorView>, extra: seq<AuthorView>)
    requires AllResolve(posts, authors)
    ensures ComposeFeed(posts, authors + extra) == ComposeFeed(posts, authors)
  {
    if posts != [] {
      FindFirstAppend(authors, extra, posts[0].authorId);
      assert forall i | 1 <= i < |posts| :: posts[i] == posts[1..][i - 1];
      ComposeFeedIgnoresLaterAuthors(posts[1..], authors, extra);
    }
  }

  /** `getAll`: the newest `FeedLimit` posts of the store, each with its author as
      the directory's answer `users` gives it. */
  function GetAll(store: seq<Post>, users: seq<User>): (r: Result<seq<FeedEntry>, ApiError>)
    ensures r.Ok? <==> forall p | p in FetchRecent(store) :: exists u | u in users :: u.id == p.authorId
    ensures r.Err? ==> r.error == AuthorNotFound && r.error.Code() == InternalServerError
    ensures r.Ok? ==> |r.value| == |FetchRecent(store)| <= FeedLimit
    ensures r.Ok? ==> forall i | 0 <= i < |r.value| :: r.value[i].post == FetchRecent(store)[i]
    ensures r.Ok? ==> forall i, j | 0 <= i < j < |r.value| :: r.value[i].post.createdAt >= r.value[j].post.createdAt
    ensures r.Ok? ==> forall e | e in r.value ::
      e.post in store && e.author.id == e.post.authorId
      && exists u | u in users :: e.author == FilterUserForClient(u)
  {
    var posts := FetchRecent(store);
    var authors := ProjectUsers(users);
    var r := ComposeFeed(posts, authors);
    GetAllFacts(store, posts, users, authors, r);
    FeedKeepsOrder(posts, authors);
    r
  }

  /** A join of newest-first posts lists its entries newest first. */
  lemma FeedKeepsOrder(posts: seq<Post>, authors: seq<AuthorView>)
    requires NewestFirst(posts)
    ensures var r := ComposeFeed(posts, authors);
      r.Ok? ==> forall i, j | 0 <= i < j < |r.value| :: r.value[i].post.createdAt >= r.value[j].post.createdAt
  {
  }

  /** The projection keeps ids, so an id resolves among the projected authors
      exactly when some user in the answer carries it. */
  lemma ResolvesProjected(users: seq<User>, id: string)
    ensures Resolves(ProjectUsers(users), id) <==> exists u | u in users :: u.id == id
  {
    var authors := ProjectUsers(users);
    if Resolves(authors, id) {
      var k :| 0 <= k < |authors| && authors[k].id == id;
      assert users[k] in users;
    }
    if u :| u in users && u.id == id {
      var k :| 0 <= k < |users| && users[k] == u;
      assert authors[k].id == id;
    }
  }

  /** What `getAll` promises about the store and the directory's answer, derived
      from the join's contract. */
  lemma GetAllFacts(store: seq<Post>, posts: seq<Post>, users: seq<User>, authors: seq<AuthorView>, r: Result<seq<FeedEntry>, ApiError>)
    requires posts == FetchRecent(store) && authors == ProjectUsers(users) && r == ComposeFeed(posts, authors)
    ensures r.Ok? <==> forall p | p in posts :: exists u | u in users :: u.id == p.authorId
    ensures r.Ok? ==> forall e | e in r.value ::
      e.post in store && e.author.id == e.post.authorId
      && exists u | u in users :: e.author == FilterUserForClient(u)
  {
    GetAllSucceedsIff(posts, users);
    if r.Ok? {
      forall e | e in r.value
        ensures e.post in store && e.author.id == e.post.authorId
        ensures exists u | u in users :: e.author == FilterUserForClient(u)
      {
        var i :| 0 <= i < |r.value| && r.value[i] == e;
        EntryFromStore(store, posts, i);
        AuthorFromUsers(users, posts[i].authorId);
      }
    }
  }

  /** The join over the projected answer succeeds exactly when each post's author
      id is carried by some user in the answer. */
  lemma GetAllSucceedsIff(posts: seq<Post>, users: seq<User>)
    ensures ComposeFeed(posts, ProjectUsers(users)).Ok? <==> forall p | p in posts :: exists u | u in users :: u.id == p.authorId
  {
    forall i | 0 <= i < |posts|
      ensures Resolves(ProjectUsers(users), posts[i].authorId) <==> exists u | u in users :: u.id == posts[i].authorId
    {
      ResolvesProjected(users, posts[i].authorId);
    }
  }

  /** A found author is the projection of some user in the answer. */
  lemma AuthorFromUsers(users: seq<User>, id: string)
    requires FindFirst(ProjectUsers(users), id).Some?
    ensures exists u | u in users :: FindFirst(ProjectUsers(users), id).value == FilterUserForClient(u)
  {
    var authors := ProjectUsers(users);
    var k :| 0 <= k < |authors| && authors[k] == FindFirst(authors, id).value;
    assert users[k] in users;
  }

  /** Every fetched post is a stored post. */
  lemma EntryFromStore(store: seq<Post>, posts: seq<Post>, i: nat)
    requires posts == FetchRecent(store) && i < |posts|
    ensures posts[i] in store
  {
    assert posts[i] in multiset(posts);
  }

  /** When the directory's answer holds several users with a post's author id, the
      feed shows the first of them. */
  lemma GetAllPicksFirstUser(store: seq<Post>, users: seq<User>, i: nat, k: nat)
    ensures var r := GetAll(store, users);
      r.Ok? && i < |r.value| && k < |users| && users[k].id == r.value[i].post.authorId
      && (forall j | 0 <= j < k :: users[j].id != users[k].id)
      ==> r.value[i].author == FilterUserForClient(users[k])
  {
    if k < |users| && forall j | 0 <= j < k :: users[j].id != users[k].id {
      FirstUserFound(users, k);
    }
  }

  /** Looking up an id in the projected answer yields the projection of the first
      user carrying it. */
  lemma FirstUserFound(users: seq<User>, k: nat)
    requires k < |users|
    requires forall j | 0 <= j < k :: users[j].id != users[k].id
    ensures FindFirst(ProjectUsers(users), users[k].id) == Some(FilterUserForClient(users[k]))
  {
    var authors := ProjectUsers(users);
    var id := users[k].id;
    assert authors[k].id == id;
    var found := FindFirst(authors, id);
    var m :| 0 <= m < |authors| && authors[m] == found.value && forall j | 0 <= j < m :: authors[j].id != id;
    if m < k {
      assert false;
    }
    assert m == k;
  }

  // ---------------------------------------------------------------------------
  // Post creation
  // ---------------------------------------------------------------------------

  const MinContentLength: nat := 1
  const MaxContentLength: nat := 200

  /** `z.string().min(1).max(200)` on `content`: the issue it reports, if any. */
  function CheckContent(content: string): (r: Option<ContentIssue>)
    ensures r.None? <==> MinContentLength <= |content| <= MaxContentLength
    ensures r == Some(TooSmall(MinContentLength)) <==> |content| < MinContentLength
    ensures r == Some(TooBig(MaxContentLength)) <==> |content| > MaxContentLength
  {
    if |content| < MinContentLength then Some(TooSmall(MinContentLength))
    else if |content| > MaxContentLength then Some(TooBig(MaxContentLength))
    else None
  }

  /** The store after a procedure, and what the procedure returned or threw. */
  datatype Mutation = Mutation(store: seq<Post>, result: Result<Post, ApiError>)

  /** `create`: checks the content, then appends a post written by the session's
      user. `id` and `createdAt` are the values the store assigns to the new row. */
  function Create(store: seq<Post>, sessionUserId: string, content: string, id: string, createdAt: Timestamp): (m: Mutation)
    ensures m.result.Ok? <==> MinContentLength <= |content| <= MaxContentLength
    ensures m.result.Err? ==> m.store == store && m.result.error.Code() == BadRequest
    ensures m.result.Ok? ==>
      && m.store == store + [m.result.value]
      && m.result.value == Post(id, sessionUserId, content, createdAt)
  {
    match CheckContent(content)
    case Some(issue) => Mutation(store, Err(InvalidInput(issue)))
    case None =>
      var post := Post(id, sessionUserId, content, createdAt);
      Mutation(store + [post], Ok(post))
  }

  /** A post created later than every stored post heads the next feed. */
  lemma CreateThenFetchShowsNewPostFirst(store: seq<Post>, sessionUserId: string, content: string, id: string, createdAt: Timestamp)
    requires MinContentLength <= |content| <= MaxContentLength
    requires forall p | p in store :: p.createdAt < createdAt
    ensures var m := Create(store, sessionUserId, content, id, createdAt);
      FetchRecent(m.store) != [] && FetchRecent(m.store)[0] == m.result.value
  {
  }

  // ---------------------------------------------------------------------------
  // Worked scenarios
  // ---------------------------------------------------------------------------

  /** Two posts by two users, stored oldest first: the feed lists the newer post
      first, each with its author's joined name. */
  lemma FeedScenario()
    ensures GetAll([ScenarioPost2, ScenarioPost1], [ScenarioUser1, ScenarioUser2]) ==
      Ok([FeedEntry(ScenarioPost1, AuthorView("u1", "A B", "img1")), FeedEntry(ScenarioPost2, AuthorView("u2", "C D", "img2"))])
  {
    ScenarioFetch();
    ScenarioAuthors();
    ScenarioCompose();
  }

  /** The two users' projections in the feed scenario. */
  lemma ScenarioAuthors()
    ensures ProjectUsers([ScenarioUser1, ScenarioUser2]) == [AuthorView("u1", "A B", "img1"), AuthorView("u2", "C D", "img2")]
  {
    assert "A" + " " + "B" == "A B";
    assert "C" + " " + "D" == "C D";
  }

  /** The join of the feed scenario's posts with its authors. */
  lemma ScenarioCompose()
    ensures var a1, a2 := AuthorView("u1", "A B", "img1"), AuthorView("u2", "C D", "img2");
      ComposeFeed([ScenarioPost1, ScenarioPost2], [a1, a2]) == Ok([FeedEntry(ScenarioPost1, a1), FeedEntry(ScenarioPost2, a2)])
  {
    var p1, p2 := ScenarioPost1, ScenarioPost2;
    var a1, a2 := AuthorView("u1", "A B", "img1"), AuthorView("u2", "C D", "img2");
    assert FindFirst([a1, a2], "u1") == Some(a1);
    assert FindFirst([a1, a2], "u2") == Some(a2) by {
      assert [a1, a2][1..] == [a2];
    }
    assert ComposeFeed([p2], [a1, a2]) == Ok([FeedEntry(p2, a2)]) by {
      assert [p2][1..] == [] && [p2][0] == p2;
      assert ComposeFeed([], [a1, a2]) == Ok([]);
      assert [FeedEntry(p2, a2)] + [] == [FeedEntry(p2, a2)];
    }
    assert [p1, p2][1..] == [p2] && [p1, p2][0] == p1;
    assert [FeedEntry(p1, a1)] + [FeedEntry(p2, a2)] == [FeedEntry(p1, a1), FeedEntry(p2, a2)];
  }

  /** The same store, but the directory does not return the second author: the
      whole feed fails. */
  lemma FeedScenarioMissingAuthor()
    ensures GetAll([ScenarioPost2, ScenarioPost1], [ScenarioUser1]) == Err(AuthorNotFound)
  {
    ScenarioFetch();
    var a1 := FilterUserForClient(ScenarioUser1);
    assert ProjectUsers([ScenarioUser1]) == [a1];
    assert !Resolves([a1], "u2");
    assert !AllResolve([ScenarioPost1, ScenarioPost2], [a1]);
  }

  const ScenarioPost1 := Post("p1", "u1", "first", 2)
  const ScenarioPost2 := Post("p2", "u2", "second", 1)
  const ScenarioUser1 := User("u1", Some("A"), Some("B"), "img1")
  const ScenarioUser2 := User("u2", Some("C"), Some("D"), "img2")

  /** The feed scenario's store read comes back newest first. */
  lemma ScenarioFetch()
    ensures FetchRecent([ScenarioPost2, ScenarioPost1]) == [ScenarioPost1, ScenarioPost2]
  {
    var p1, p2 := ScenarioPost1, ScenarioPost2;
    assert [p2, p1][1..] == [p1];
    assert SortNewestFirst([p1]) == [p1];
    assert SortNewestFirst([p2, p1]) == [p1, p2];
  }

  /** Creating "hello" as user u1 stores one post by u1; empty content stores nothing. */
  lemma CreateScenario(store: seq<Post>)
    ensures Create(store, "u1", "hello", "p", 0) == Mutation(store + [Post("p", "u1", "hello", 0)], Ok(Post("p", "u1", "hello", 0)))
    ensures Create(store, "u1", "", "p", 0) == Mutation(store, Err(InvalidInput(TooSmall(1))))
  {
  }
}
