/** The stored post rows and the one read the feed makes of them: at most
    `FeedLimit` posts, ordered by `createdAt` descending (newest first). The store
    itself is a sequence of rows in insertion order. */
module PostStore {

  /** A creation time as the store assigns it; only its order matters here. */
  type Timestamp = int

  datatype Post = Post(id: string, authorId: string, content: string, createdAt: Timestamp)

  /** `take: 100` of the feed query. */
  const FeedLimit: nat := 100

  /** Each post is at least as recent as every post after it. */
  predicate NewestFirst(s: seq<Post>)
  {
    forall i, j | 0 <= i < j < |s| :: s[i].createdAt >= s[j].createdAt
  }

  /** Places `p` in front of the first post that is no newer than it. */
  function Insert(p: Post, s: seq<Post>): (r: seq<Post>)
    requires NewestFirst(s)
    ensures NewestFirst(r)
    ensures multiset(r) == multiset(s) + multiset{p}
  {
    if s == [] || p.createdAt >= s[0].createdAt then
      [p] + s
    else
      var rest := Insert(p, s[1..]);
      assert s == [s[0]] + s[1..];
      NoNewerThan(s[0], p, s[1..], rest);
      [s[0]] + rest
  }

  /** The store ordered by `createdAt` descending. The order among posts created
      at the same instant is not promised by the store; this is one such order. */
  function SortNewestFirst(store: seq<Post>): (r: seq<Post>)
    ensures NewestFirst(r)
    ensures multiset(r) == multiset(store)
    ensures |r| == |store|
  {
    if store == [] then
      []
    else
      assert store == [store[0]] + store[1..];
      Insert(store[0], SortNewestFirst(store[1..]))
  }

  /** The feed query: posts ordered newest first, the first `FeedLimit` of them. */
  function FetchRecent(store: seq<Post>): (r: seq<Post>)
    ensures |r| == if |store| < FeedLimit then |store| else FeedLimit
    ensures NewestFirst(r)
    ensures multiset(r) <= multiset(store)
    ensures forall p | p in multiset(store) - multiset(r) :: r != [] && p.createdAt <= r[|r| - 1].createdAt
  {
    var sorted := SortNewestFirst(store);
    var n := if |store| < FeedLimit then |store| else FeedLimit;
    TakeNewest(sorted, n);
    sorted[..n]
  }

  /** In a newest-first sequence, every post past position `n` is no newer than
      the post at `n - 1` (and there is none past the end). */
  lemma TailNoNewer(s: seq<Post>, n: nat)
    requires NewestFirst(s) && (0 < n <= |s| || n == |s|)
    ensures forall p | p in multiset(s[n..]) :: 0 < n && p.createdAt <= s[n - 1].createdAt
  {
    forall p | p in multiset(s[n..])
      ensures 0 < n && p.createdAt <= s[n - 1].createdAt
    {
      var k :| 0 <= k < |s[n..]| && s[n..][k] == p;
      assert s[n + k] == p;
    }
  }

  /** Taking a prefix of a newest-first sequence keeps it newest first, and what
      is left behind is no newer than the last post taken. */
  lemma TakeNewest(s: seq<Post>, n: nat)
    requires NewestFirst(s) && (0 < n <= |s| || n == |s|)
    ensures NewestFirst(s[..n])
    ensures multiset(s[..n]) <= multiset(s)
    ensures multiset(s) - multiset(s[..n]) == multiset(s[n..])
    ensures forall p | p in multiset(s) - multiset(s[..n]) :: 0 < n && p.createdAt <= s[..n][n - 1].createdAt
  {
    assert s == s[..n] + s[n..];
    TailNoNewer(s, n);
  }

  /** If `p` and every post of `tail` are older than or as old as `head`, so is
      every post of an arrangement of `tail` with `p`; put in front of such a
      newest-first arrangement, `head` keeps it newest first. */
  lemma NoNewerThan(head: Post, p: Post, tail: seq<Post>, rest: seq<Post>)
    requires p.createdAt <= head.createdAt
    requires forall k | 0 <= k < |tail| :: tail[k].createdAt <= head.createdAt
    requires multiset(rest) == multiset(tail) + multiset{p}
    requires NewestFirst(rest)
    ensures NewestFirst([head] + rest)
  {
    forall k | 0 <= k < |rest|
      ensures rest[k].createdAt <= head.createdAt
    {
      assert rest[k] in multiset(rest);
      if rest[k] != p {
        assert rest[k] in multiset(tail);
      }
    }
  }
}
