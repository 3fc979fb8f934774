/**
 * The post feeds and the delete handlers. A feed is a filter over the posts collection
 * (given in the order the database scans it) followed by a sort on `createdAt`,
 * newest first; the sort is stable, so posts created at the same instant keep their
 * collection order. The delete handlers are guarded removals over the store.
 */
module PostController {
  import opened Wrappers
  import opened UserModel
  import opened Db

  /** Milliseconds in a day; `setDate(getDate() - 7)` is taken as seven of them. */
  const DayMs: nat := 24 * 60 * 60 * 1000

  const ExploreWindowMs: nat := 7 * DayMs

  const PostNotFoundMessage := "Post not found"
  const CommentNotFoundMessage := "Comment not found"
  const PostForbiddenMessage := "Unauthorized to delete this post"
  const CommentForbiddenMessage := "Unauthorized to delete this comment"
  const PostDeletedMessage := "Post deleted successfully"
  const CommentDeletedMessage := "Comment deleted successfully"

  // ---------------------------------------------------------------------------
  // Filter and sort
  // ---------------------------------------------------------------------------

  /** A query filter: the posts of `s` that satisfy `keep`, in their order. */
  function Select(s: seq<Post>, keep: Post -> bool): (r: seq<Post>)
    ensures forall p :: multiset(r)[p] == if keep(p) then multiset(s)[p] else 0
    ensures forall p :: p in r <==> p in s && keep(p)
  {
    if s == [] then []
    else
      var rest := Select(s[1..], keep);
      assert s == [s[0]] + s[1..];
      if keep(s[0]) then [s[0]] + rest else rest
  }

  /** `.sort({ createdAt: -1 })` holds. */
  predicate NewestFirst(s: seq<Post>)
  {
    forall i, j :: 0 <= i < j < |s| ==> s[i].createdAt >= s[j].createdAt
  }

  /** Places `p` in a newest-first list, ahead of the posts exactly as old as it. */
  function Insert(p: Post, s: seq<Post>): (r: seq<Post>)
    requires NewestFirst(s)
    ensures NewestFirst(r)
    ensures multiset(r) == multiset(s) + multiset{p}
    ensures |r| == |s| + 1
    ensures r[0] == p || (s != [] && r[0] == s[0])
  {
    if s == [] || p.createdAt >= s[0].createdAt then [p] + s
    else
      var rest := Insert(p, s[1..]);
      assert s == [s[0]] + s[1..];
      [s[0]] + rest
  }

  /** A stable sort on `createdAt`, newest first. */
  function SortNewestFirst(s: seq<Post>): (r: seq<Post>)
    ensures NewestFirst(r)
    ensures multiset(r) == multiset(s)
  {
    if s == [] then []
    else
      assert s == [s[0]] + s[1..];
      Insert(s[0], SortNewestFirst(s[1..]))
  }

  /** Sorting an already sorted list changes nothing. */
  lemma {:induction false} SortSorted(s: seq<Post>)
    requires NewestFirst(s)
    ensures SortNewestFirst(s) == s
  {
    if s != [] {
      assert NewestFirst(s[1..]) by {
        forall i, j | 0 <= i < j < |s[1..]| ensures s[1..][i].createdAt >= s[1..][j].createdAt {
          assert s[1..][i] == s[i + 1] && s[1..][j] == s[j + 1];
        }
      }
      SortSorted(s[1..]);
      assert s == [s[0]] + s[1..];
    }
  }

  // ---------------------------------------------------------------------------
  // Feeds
  // ---------------------------------------------------------------------------

  /** `getFriendPosts`: posts whose author is among `me`'s friends, newest first. */
  function FriendFeed(users: map<UserId, User>, collection: seq<Post>, me: UserId): (feed: seq<Post>)
    requires me in users
    ensures NewestFirst(feed)
    ensures forall p :: multiset(feed)[p] == if p.author in users[me].friends then multiset(collection)[p] else 0
    ensures forall p :: p in feed <==> p in collection && p.author in users[me].friends
  {
    var friends := users[me].friends;
    SortNewestFirst(Select(collection, (p: Post) => p.author in friends))
  }

  /** The start of the explore window, seven days before `now`. */
  function ExploreCutoff(now: int): (cutoff: int)
    ensures cutoff == now - 604800000
  {
    now - ExploreWindowMs
  }

  /**
   * `getExplorePosts`: posts of the last seven days (inclusive of the cutoff) whose author
   * is neither `me` nor one of `me`'s friends, newest first.
   */
  function ExploreFeed(users: map<UserId, User>, collection: seq<Post>, me: UserId, now: int): (feed: seq<Post>)
    requires me in users
    ensures NewestFirst(feed)
    ensures forall p :: multiset(feed)[p] ==
              if p.author !in users[me].friends && p.author != me && p.createdAt >= ExploreCutoff(now)
              then multiset(collection)[p] else 0
    ensures forall p :: p in feed <==>
              p in collection && p.author !in users[me].friends + [me] && p.createdAt >= ExploreCutoff(now)
  {
    var excluded := users[me].friends + [me];
    var cutoff := ExploreCutoff(now);
    SortNewestFirst(Select(collection, (p: Post) => p.author !in excluded && p.createdAt >= cutoff))
  }

  /** No post is in both feeds: friends' posts are excluded from exploring. */
  lemma FeedsDisjoint(users: map<UserId, User>, collection: seq<Post>, me: UserId, now: int, p: Post)
    requires me in users
    ensures !(p in FriendFeed(users, collection, me) && p in ExploreFeed(users, collection, me, now))
  {
  }

  /** A user's own posts never show up in the explore feed. */
  lemma OwnPostsNotExplored(users: map<UserId, User>, collection: seq<Post>, me: UserId, now: int, p: Post)
    requires me in users && p.author == me
    ensures p !in ExploreFeed(users, collection, me, now)
  {
  }

  /** The `user` document of `getUserProfileData`, with its `posts` replaced by the post documents. */
  datatype Profile = Profile(user: User, posts: seq<Post>)

  /**
   * `getUserProfileData`: the user and the posts they wrote, newest first. A missing user
   * makes the handler assign to a property of `null`; the error is caught as a 500,
   * shown here as `None`.
   */
  function ProfileData(users: map<UserId, User>, collection: seq<Post>, id: UserId): (r: Option<Profile>)
    ensures r.None? <==> id !in users
    ensures r.Some? ==>
              && r.value.user == users[id]
              && NewestFirst(r.value.posts)
              && forall p :: multiset(r.value.posts)[p] == if p.author == id then multiset(collection)[p] else 0
  {
    if id !in users then None
    else Some(Profile(users[id], SortNewestFirst(Select(collection, (p: Post) => p.author == id))))
  }

  // ---------------------------------------------------------------------------
  // Deletion
  // ---------------------------------------------------------------------------

  /** `deletePost`: the author of post `postId` deletes it. */
  method DeletePost(store: Store, me: UserId, postId: PostId) returns (status: int, message: string)
    requires store.Valid()
    modifies store
    ensures store.Valid()
    ensures postId !in old(store.posts) ==> status == 404 && message == PostNotFoundMessage
    ensures postId in old(store.posts) && old(store.posts[postId].author) != me ==>
              status == 403 && message == PostForbiddenMessage
    ensures status == 200 <==> postId in old(store.posts) && old(store.posts[postId].author) == me
    ensures status != 200 ==> unchanged(store)
    // only that post goes: its comments and the users' `posts` lists are left as they were
    ensures status == 200 ==> store.posts == old(store.posts) - {postId} && message == PostDeletedMessage
    ensures store.users == old(store.users) && store.requests == old(store.requests)
    ensures store.comments == old(store.comments) && store.nextId == old(store.nextId)
  {
    if postId !in store.posts {
      status, message := 404, PostNotFoundMessage;
      return;
    }
    if store.posts[postId].author != me {
      status, message := 403, PostForbiddenMessage;
      return;
    }
    store.posts := store.posts - {postId};
    status, message := 200, PostDeletedMessage;
  }

  /**
   * `deleteComment`: the author of comment `commentId` deletes it. The post `postId` must
   * exist, but the comment need not belong to it.
   */
  method DeleteComment(store: Store, me: UserId, postId: PostId, commentId: CommentId)
    returns (status: int, message: string)
    requires store.Valid()
    modifies store
    ensures store.Valid()
    ensures postId !in old(store.posts) ==> status == 404 && message == PostNotFoundMessage
    ensures postId in old(store.posts) && commentId !in old(store.comments) ==>
              status == 404 && message == CommentNotFoundMessage
    ensures postId in old(store.posts) && commentId in old(store.comments) && old(store.comments[commentId].author) != me
            ==> status == 403 && message == CommentForbiddenMessage
    ensures status == 200 <==>
              postId in old(store.posts) && commentId in old(store.comments) && old(store.comments[commentId].author) == me
    ensures status != 200 ==> unchanged(store)
    ensures status == 200 ==> store.comments == old(store.comments) - {commentId} && message == CommentDeletedMessage
    ensures store.users == old(store.users) && store.requests == old(store.requests)
    ensures store.posts == old(store.posts) && store.nextId == old(store.nextId)
  {
    if postId !in store.posts {
      status, message := 404, PostNotFoundMessage;
      return;
    }
    if commentId !in store.comments {
      status, message := 404, CommentNotFoundMessage;
      return;
    }
    if store.comments[commentId].author != me {
      status, message := 403, CommentForbiddenMessage;
      return;
    }
    store.comments := store.comments - {commentId};
    status, message := 200, CommentDeletedMessage;
  }
}
