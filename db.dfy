/**
 * The document database as the controllers see it: four collections (users, friend
 * requests, posts, comments) held as maps from document id to document, one id
 * generator shared by all collections, and the invariants that the controllers keep.
 */
module Db {
  import opened Wrappers
  import opened UserModel

  type RequestId = nat
  type PostId = nat
  type CommentId = nat

  datatype RequestStatus = Pending | Accepted | Declined

  /**
   * A FriendRequest document. The FriendRequest schema is not part of this model; a new
   * request is taken to start out `Pending`.
   */
  datatype FriendRequest = FriendRequest(sender: UserId, recipient: UserId, status: RequestStatus)

  /** A Post document; `createdAt` is the timestamp in milliseconds. */
  datatype Post = Post(author: UserId, text: string, image: string, body: string, likes: seq<UserId>, createdAt: int)

  /** A Comment document; `post` is the post it was written under. */
  datatype Comment = Comment(author: UserId, post: PostId, text: string, likes: seq<UserId>, createdAt: int)

  predicate NoDuplicates<T(==)>(s: seq<T>)
  {
    forall i, j :: 0 <= i < j < |s| ==> s[i] != s[j]
  }

  /** How many times `x` occurs in `s`. */
  function Count<T(==)>(s: seq<T>, x: T): nat
  {
    if s == [] then 0 else (if s[0] == x then 1 else 0) + Count(s[1..], x)
  }

  /** An element of a duplicate-free sequence occurs exactly once. */
  lemma {:induction false} CountInDistinct<T>(s: seq<T>, x: T)
    requires NoDuplicates(s)
    ensures Count(s, x) == (if x in s then 1 else 0)
  {
    if s != [] {
      assert NoDuplicates(s[1..]) by {
        forall i, j | 0 <= i < j < |s[1..]| ensures s[1..][i] != s[1..][j] {
          assert s[1..][i] == s[i + 1] && s[1..][j] == s[j + 1];
        }
      }
      CountInDistinct(s[1..], x);
      if s[0] == x {
        assert x !in s[1..] by {
          forall k | 0 <= k < |s[1..]| ensures s[1..][k] != x {
            assert s[1..][k] == s[k + 1];
          }
        }
      } else {
        assert x in s <==> x in s[1..] by {
          if x in s {
            var k :| 0 <= k < |s| && s[k] == x;
            assert s[1..][k - 1] == x;
          }
        }
      }
    }
  }

  /** Mongo's `$addToSet` on an array field. */
  function AddToSet(s: seq<UserId>, x: UserId): (r: seq<UserId>)
    ensures forall y :: y in r <==> y in s || y == x
    ensures x in s ==> r == s
    ensures x !in s ==> r == s + [x]
    ensures NoDuplicates(s) ==> NoDuplicates(r)
  {
    if x in s then s else s + [x]
  }

  /** Adding an element that is already there changes nothing: a retried `$addToSet` is harmless. */
  lemma AddToSetIdempotent(s: seq<UserId>, x: UserId)
    ensures AddToSet(AddToSet(s, x), x) == AddToSet(s, x)
  {
  }

  /** The request connects `a` and `b`, in either direction. */
  predicate Between(r: FriendRequest, a: UserId, b: UserId)
  {
    (r.sender == a && r.recipient == b) || (r.sender == b && r.recipient == a)
  }

  /** The ids of all requests that connect `a` and `b`, in either direction. */
  function RequestsBetween(requests: map<RequestId, FriendRequest>, a: UserId, b: UserId): set<RequestId>
  {
    set id | id in requests && Between(requests[id], a, b)
  }

  ghost predicate IdsBelow<V>(m: map<nat, V>, bound: nat)
  {
    forall k :: k in m ==> k < bound
  }

  /** The unique index on `email`. */
  ghost predicate EmailsUnique(users: map<UserId, User>)
  {
    forall a, b :: a in users && b in users && users[a].email == users[b].email ==> a == b
  }

  /** Friendship is a symmetric, irreflexive relation between existing users. */
  ghost predicate FriendsSymmetric(users: map<UserId, User>)
  {
    forall a, b :: a in users && b in users[a].friends ==> a != b && b in users && a in users[b].friends
  }

  ghost predicate FriendListsDistinct(users: map<UserId, User>)
  {
    forall a :: a in users ==> NoDuplicates(users[a].friends)
  }

  /** Every request joins two different existing users. */
  ghost predicate RequestsWellFormed(requests: map<RequestId, FriendRequest>, users: map<UserId, User>)
  {
    forall id :: id in requests ==>
      requests[id].sender in users && requests[id].recipient in users && requests[id].sender != requests[id].recipient
  }

  /** No two requests connect the same unordered pair of users. */
  ghost predicate OneRequestPerPair(requests: map<RequestId, FriendRequest>)
  {
    forall i, j :: i in requests && j in requests && i != j ==>
      !Between(requests[j], requests[i].sender, requests[i].recipient)
  }

  /** Changing the status of a request keeps the pair it connects, so it keeps the one-per-pair rule. */
  lemma SetStatusKeepsOnePerPair(requests: map<RequestId, FriendRequest>, id: RequestId, status: RequestStatus)
    requires OneRequestPerPair(requests) && id in requests
    ensures OneRequestPerPair(requests[id := requests[id].(status := status)])
  {
    var requests' := requests[id := requests[id].(status := status)];
    forall i, j | i in requests' && j in requests' && i != j
      ensures !Between(requests'[j], requests'[i].sender, requests'[i].recipient)
    {
      assert requests'[i].sender == requests[i].sender && requests'[i].recipient == requests[i].recipient;
      assert requests'[j].sender == requests[j].sender && requests'[j].recipient == requests[j].recipient;
    }
  }

  /** Under the one-per-pair rule, a request between two users is the only one between them. */
  lemma OnlyRequestBetween(requests: map<RequestId, FriendRequest>, id: RequestId, a: UserId, b: UserId)
    requires OneRequestPerPair(requests)
    requires id in requests && Between(requests[id], a, b)
    ensures RequestsBetween(requests, a, b) == {id}
  {
    assert forall j :: j in requests && j != id ==>
      !Between(requests[j], requests[id].sender, requests[id].recipient);
  }

  /** An accepted request is backed by a friendship (in both directions, by symmetry). */
  ghost predicate AcceptedAreFriends(requests: map<RequestId, FriendRequest>, users: map<UserId, User>)
  {
    forall id :: id in requests && requests[id].status == Accepted ==>
      requests[id].sender in users && requests[id].recipient in users[requests[id].sender].friends
  }

  ghost predicate PostLikesDistinct(posts: map<PostId, Post>)
  {
    forall p :: p in posts ==> NoDuplicates(posts[p].likes)
  }

  ghost predicate CommentLikesDistinct(comments: map<CommentId, Comment>)
  {
    forall c :: c in comments ==> NoDuplicates(comments[c].likes)
  }

  /** The invariants of the database, over the contents of its collections. */
  ghost predicate ValidState(
    users: map<UserId, User>, requests: map<RequestId, FriendRequest>,
    posts: map<PostId, Post>, comments: map<CommentId, Comment>, nextId: nat)
  {
    && IdsBelow(users, nextId) && IdsBelow(requests, nextId)
    && IdsBelow(posts, nextId) && IdsBelow(comments, nextId)
    && EmailsUnique(users)
    && FriendsSymmetric(users)
    && FriendListsDistinct(users)
    && RequestsWellFormed(requests, users)
    && OneRequestPerPair(requests)
    && AcceptedAreFriends(requests, users)
    && PostLikesDistinct(posts)
    && CommentLikesDistinct(comments)
  }

  class Store {
    var users: map<UserId, User>
    var requests: map<RequestId, FriendRequest>
    var posts: map<PostId, Post>
    var comments: map<CommentId, Comment>
    /** The next id the database hands out; every id in use is below it. */
    var nextId: nat

    ghost predicate Valid()
      reads this
    {
      ValidState(users, requests, posts, comments, nextId)
    }

    /** An empty database. */
    constructor ()
      ensures Valid()
      ensures users == map[] && requests == map[] && posts == map[] && comments == map[]
    {
      users, requests, posts, comments := map[], map[], map[], map[];
      nextId := 0;
    }

    /** `User.findOne({ email })`: exact, case-sensitive match. */
    method FindUserByEmail(email: string) returns (found: Option<UserId>)
      requires Valid()
      ensures found.Some? ==> found.value in users && users[found.value].email == email
      ensures found.None? ==> forall u :: u in users ==> users[u].email != email
    {
      if exists u :: u in users && users[u].email == email {
        var u :| u in users && users[u].email == email;
        found := Some(u);
      } else {
        found := None;
      }
    }

    /**
     * `FriendRequest.findOne({ $or: [{sender: a, recipient: b}, {sender: b, recipient: a}] })`.
     * In a valid store at most one request matches, so the answer is determined.
     */
    method FindRequestBetween(a: UserId, b: UserId) returns (found: Option<RequestId>)
      requires Valid()
      ensures found.None? ==> RequestsBetween(requests, a, b) == {}
      ensures found.Some? ==> RequestsBetween(requests, a, b) == {found.value}
    {
      if exists id :: id in requests && Between(requests[id], a, b) {
        var id :| id in requests && Between(requests[id], a, b);
        found := Some(id);
        OnlyRequestBetween(requests, id, a, b);
      } else {
        found := None;
      }
    }

    /** A new document id, distinct from every id in use. */
    method FreshId() returns (id: nat)
      requires Valid()
      modifies this`nextId
      ensures id == old(nextId) && nextId == id + 1
      ensures id !in users && id !in requests && id !in posts && id !in comments
      ensures Valid()
    {
      id := nextId;
      nextId := nextId + 1;
    }
  }
}
