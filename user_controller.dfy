/**
 * The friend-request lifecycle, the request and recommendation listings, and likes on
 * posts and comments. Each handler is a method over the store that returns the HTTP
 * status it responds with. The acting user is the one the authentication middleware
 * resolved from the session token, so it exists in the store.
 */
module UserController {
  import opened Wrappers
  import opened UserModel
  import opened Db

  const SelfRequestMessage := "You cannot send a friend request to yourself."
  const RecipientNotFoundMessage := "Recipient user not found."
  const AlreadyFriendsMessage := "You are already friends with this user."
  const AcceptedExistsMessage := "You are already friends."
  const PendingExistsMessage := "A friend request is already pending."

  /** Every request between the two users, if any, is declined. */
  ghost predicate NoActiveRequest(requests: map<RequestId, FriendRequest>, a: UserId, b: UserId)
  {
    forall id :: id in requests && Between(requests[id], a, b) ==> requests[id].status == Declined
  }

  /** What the one request found between two users, or its absence, says about every request between them. */
  lemma ExistingRequestStatus(requests: map<RequestId, FriendRequest>, a: UserId, b: UserId, existing: Option<RequestId>)
    requires existing.None? ==> RequestsBetween(requests, a, b) == {}
    requires existing.Some? ==> RequestsBetween(requests, a, b) == {existing.value}
    ensures existing.Some? ==> existing.value in requests && Between(requests[existing.value], a, b)
    ensures (exists id :: id in requests && Between(requests[id], a, b) && requests[id].status == Accepted)
              <==> existing.Some? && requests[existing.value].status == Accepted
    ensures (exists id :: id in requests && Between(requests[id], a, b) && requests[id].status == Pending)
              <==> existing.Some? && requests[existing.value].status == Pending
    ensures NoActiveRequest(requests, a, b) <==> existing.None? || requests[existing.value].status == Declined
  {
    assert forall id :: id in requests && Between(requests[id], a, b) ==> id in RequestsBetween(requests, a, b);
    if existing.Some? {
      assert existing.value in RequestsBetween(requests, a, b);
    }
  }

  /** `sendFriendRequest`: `me` asks `recipientId` to become friends. */
  method SendFriendRequest(store: Store, me: UserId, recipientId: UserId)
    returns (status: int, message: string, created: Option<RequestId>)
    requires store.Valid()
    requires me in store.users
    modifies store
    ensures store.Valid()
    // the guards, in the order the handler checks them
    ensures me == recipientId ==> status == 400 && message == SelfRequestMessage
    ensures me != recipientId && recipientId !in old(store.users) ==> status == 404 && message == RecipientNotFoundMessage
    ensures me != recipientId && recipientId in old(store.users) && me in old(store.users[recipientId].friends)
            ==> status == 400 && message == AlreadyFriendsMessage
    ensures me != recipientId && recipientId in old(store.users) && me !in old(store.users[recipientId].friends)
            && (exists id :: id in old(store.requests) && Between(old(store.requests[id]), me, recipientId)
                             && old(store.requests[id].status) == Accepted)
            ==> status == 400 && message == AcceptedExistsMessage
    ensures me != recipientId && recipientId in old(store.users) && me !in old(store.users[recipientId].friends)
            && (exists id :: id in old(store.requests) && Between(old(store.requests[id]), me, recipientId)
                             && old(store.requests[id].status) == Pending)
            ==> status == 400 && message == PendingExistsMessage
    ensures status == 201 <==>
            && me != recipientId && recipientId in old(store.users)
            && me !in old(store.users[recipientId].friends)
            && NoActiveRequest(old(store.requests), me, recipientId)
    ensures status == 201 || status == 400 || status == 404
    // a refused request changes nothing
    ensures status != 201 ==> created.None? && unchanged(store)
    // a sent request replaces any declined one between the pair by exactly one new pending request
    ensures status == 201 ==>
            && created.Some? && created.value !in old(store.requests)
            && store.requests == (old(store.requests) - RequestsBetween(old(store.requests), me, recipientId))
                                 [created.value := FriendRequest(me, recipientId, Pending)]
            && RequestsBetween(store.requests, me, recipientId) == {created.value}
            && created.value in OutgoingRequests(store.requests, me)
            && created.value in IncomingRequests(store.requests, recipientId)
    ensures store.users == old(store.users) && store.posts == old(store.posts) && store.comments == old(store.comments)
  {
    created := None;
    message := "";
    if me == recipientId {
      status, message := 400, SelfRequestMessage;
      return;
    }
    if recipientId !in store.users {
      status, message := 404, RecipientNotFoundMessage;
      return;
    }
    var recipient := store.users[recipientId];
    if me in recipient.friends {
      status, message := 400, AlreadyFriendsMessage;
      return;
    }
    var existing := store.FindRequestBetween(me, recipientId);
    ExistingRequestStatus(store.requests, me, recipientId, existing);
    if existing.Some? {
      var request := store.requests[existing.value];
      if request.status == Accepted {
        status, message := 400, AcceptedExistsMessage;
        return;
      }
      if request.status == Pending {
        status, message := 400, PendingExistsMessage;
        return;
      }
    }
    var id := ReplaceWithPending(store, me, recipientId, existing);
    status, created := 201, Some(id);
  }

  /**
   * The creating half of `sendFriendRequest`, once the guards have passed: delete the
   * declined request between the pair, if any, and create a new pending one.
   */
  method ReplaceWithPending(store: Store, me: UserId, recipientId: UserId, existing: Option<RequestId>)
    returns (id: RequestId)
    requires store.Valid()
    requires me in store.users && recipientId in store.users && me != recipientId
    requires NoActiveRequest(store.requests, me, recipientId)
    requires existing.None? ==> RequestsBetween(store.requests, me, recipientId) == {}
    requires existing.Some? ==> RequestsBetween(store.requests, me, recipientId) == {existing.value}
    modifies store
    ensures store.Valid()
    ensures id !in old(store.requests)
    ensures store.requests == (old(store.requests) - RequestsBetween(old(store.requests), me, recipientId))
                              [id := FriendRequest(me, recipientId, Pending)]
    ensures RequestsBetween(store.requests, me, recipientId) == {id}
    ensures id in OutgoingRequests(store.requests, me) && id in IncomingRequests(store.requests, recipientId)
    ensures store.users == old(store.users) && store.posts == old(store.posts) && store.comments == old(store.comments)
  {
    if existing.Some? {
      store.requests := store.requests - {existing.value};
    }
    assert store.requests == old(store.requests) - RequestsBetween(old(store.requests), me, recipientId);
    id := store.FreshId();
    store.requests := store.requests[id := FriendRequest(me, recipientId, Pending)];
    SendKeepsValid(old(store.users), old(store.requests), store.posts, store.comments, id, me, recipientId);
  }

  /** Replacing the declined requests between two users by a new pending one keeps the database invariants. */
  lemma SendKeepsValid(
    users: map<UserId, User>, requests: map<RequestId, FriendRequest>,
    posts: map<PostId, Post>, comments: map<CommentId, Comment>, nextId: nat, me: UserId, other: UserId)
    requires ValidState(users, requests, posts, comments, nextId)
    requires me in users && other in users && me != other
    requires NoActiveRequest(requests, me, other)
    ensures var requests' := (requests - RequestsBetween(requests, me, other))[nextId := FriendRequest(me, other, Pending)];
            && ValidState(users, requests', posts, comments, nextId + 1)
            && RequestsBetween(requests', me, other) == {nextId}
  {
    assert nextId !in requests;
    SendKeepsOnePerPair(requests, me, other, nextId);
    SendKeepsRequestFacts(users, requests, me, other, nextId);
    assert IdsBelow(users, nextId + 1) && IdsBelow(posts, nextId + 1) && IdsBelow(comments, nextId + 1);
  }

  /** The new request joins two existing users, is not accepted, and is the only one between them. */
  lemma SendKeepsRequestFacts(users: map<UserId, User>, requests: map<RequestId, FriendRequest>,
                              me: UserId, other: UserId, nextId: nat)
    requires RequestsWellFormed(requests, users) && AcceptedAreFriends(requests, users) && IdsBelow(requests, nextId)
    requires me in users && other in users && me != other
    ensures var requests' := (requests - RequestsBetween(requests, me, other))[nextId := FriendRequest(me, other, Pending)];
            && IdsBelow(requests', nextId + 1)
            && RequestsWellFormed(requests', users)
            && AcceptedAreFriends(requests', users)
            && RequestsBetween(requests', me, other) == {nextId}
  {
    var kept := requests - RequestsBetween(requests, me, other);
    var requests' := kept[nextId := FriendRequest(me, other, Pending)];
    assert forall id :: id in kept ==> requests'[id] == requests[id] && !Between(requests[id], me, other);
  }

  /** Dropping the requests between two users and adding one new request between them keeps one request per pair. */
  lemma SendKeepsOnePerPair(requests: map<RequestId, FriendRequest>, me: UserId, other: UserId, nextId: nat)
    requires OneRequestPerPair(requests) && nextId !in requests
    ensures OneRequestPerPair((requests - RequestsBetween(requests, me, other))[nextId := FriendRequest(me, other, Pending)])
  {
    var kept := requests - RequestsBetween(requests, me, other);
    var requests' := kept[nextId := FriendRequest(me, other, Pending)];
    forall i, j | i in requests' && j in requests' && i != j
      ensures !Between(requests'[j], requests'[i].sender, requests'[i].recipient)
    {
      if i == nextId {
        assert j in kept;
      } else if j == nextId {
        assert i in kept;
      } else {
        assert requests'[i] == requests[i] && requests'[j] == requests[j];
      }
    }
  }

  /** `acceptFriendRequest`: the recipient of request `requestId` accepts it. */
  method AcceptFriendRequest(store: Store, actor: UserId, requestId: RequestId) returns (status: int)
    requires store.Valid()
    modifies store
    ensures store.Valid()
    // a missing request makes the handler dereference null; the error is caught as a 500
    ensures requestId !in old(store.requests) ==> status == 500
    ensures requestId in old(store.requests) && old(store.requests[requestId].recipient) != actor ==> status == 403
    ensures status == 200 <==> requestId in old(store.requests) && old(store.requests[requestId].recipient) == actor
    ensures status != 200 ==> unchanged(store)
    ensures status == 200 ==>
            var r := old(store.requests[requestId]);
            && store.requests == old(store.requests)[requestId := r.(status := Accepted)]
            && store.users == Befriend(old(store.users), r.sender, r.recipient)
            && r.recipient in store.users[r.sender].friends && r.sender in store.users[r.recipient].friends
            // no prior-status check: accepting again, or accepting a declined request, is allowed,
            // and when the two already were friends the friend lists stay as they were
            && (r.recipient in old(store.users[r.sender].friends) ==> store.users == old(store.users))
            && requestId !in IncomingRequests(store.requests, actor)
            && requestId in AcceptedSent(store.requests, r.sender)
    ensures store.posts == old(store.posts) && store.comments == old(store.comments) && store.nextId == old(store.nextId)
  {
    if requestId !in store.requests {
      status := 500;
      return;
    }
    var request := store.requests[requestId];
    if request.recipient != actor {
      status := 403;
      return;
    }
    ghost var users0 := store.users;
    store.requests := store.requests[requestId := request.(status := Accepted)];
    // the sender's and then the recipient's `friends` get the other by `$addToSet`
    store.users := Befriend(store.users, request.sender, request.recipient);
    status := 200;
    AcceptKeepsValid(users0, old(store.requests), store.posts, store.comments, store.nextId, requestId);
  }

  /** The two `$addToSet` updates of an accept: each user gains the other as a friend. */
  function Befriend(users: map<UserId, User>, a: UserId, b: UserId): (users': map<UserId, User>)
    requires a in users && b in users
    ensures users'.Keys == users.Keys
    ensures forall x :: x in users ==> users'[x] == users[x].(friends := users'[x].friends)
  {
    var s := users[a];
    var users1 := users[a := s.(friends := AddToSet(s.friends, b))];
    var t := users1[b];
    users1[b := t.(friends := AddToSet(t.friends, a))]
  }

  /** Who `x` counts as friends once `a` and `b` have befriended each other. */
  lemma BefriendFriends(users: map<UserId, User>, a: UserId, b: UserId, x: UserId)
    requires a in users && b in users && a != b && x in users
    ensures forall y :: y in Befriend(users, a, b)[x].friends <==>
              y in users[x].friends || (x == a && y == b) || (x == b && y == a)
    ensures NoDuplicates(users[x].friends) ==> NoDuplicates(Befriend(users, a, b)[x].friends)
  {
  }

  /** Befriending two users who already are friends changes nothing. */
  lemma BefriendExisting(users: map<UserId, User>, a: UserId, b: UserId)
    requires FriendsSymmetric(users)
    requires a in users && b in users[a].friends
    ensures b in users && Befriend(users, a, b) == users
  {
    assert a in users[b].friends;
    assert users[a := users[a]] == users;
  }

  /** Accepting again adds nothing: befriending the same pair twice is befriending it once. */
  lemma BefriendIdempotent(users: map<UserId, User>, a: UserId, b: UserId)
    requires a in users && b in users
    ensures Befriend(Befriend(users, a, b), a, b) == Befriend(users, a, b)
  {
    var once := Befriend(users, a, b);
    AddToSetIdempotent(users[a].friends, b);
    AddToSetIdempotent(users[b].friends, a);
    if a != b {
      assert once[a].friends == AddToSet(users[a].friends, b);
      assert once[b].friends == AddToSet(users[b].friends, a);
    } else {
      AddToSetIdempotent(AddToSet(users[a].friends, a), a);
    }
    var s := once[a];
    var users1 := once[a := s.(friends := AddToSet(s.friends, b))];
    assert users1 == once;
  }

  /** Befriending two different existing users keeps friendship symmetric and friend lists duplicate-free. */
  lemma BefriendKeepsGraph(users: map<UserId, User>, a: UserId, b: UserId)
    requires FriendsSymmetric(users) && FriendListsDistinct(users) && EmailsUnique(users)
    requires a in users && b in users && a != b
    ensures FriendsSymmetric(Befriend(users, a, b))
    ensures FriendListsDistinct(Befriend(users, a, b))
    ensures EmailsUnique(Befriend(users, a, b))
  {
    var users' := Befriend(users, a, b);
    forall x, y | x in users' && y in users'[x].friends
      ensures x != y && y in users' && x in users'[y].friends
    {
      BefriendFriends(users, a, b, x);
      BefriendFriends(users, a, b, y);
    }
    forall x | x in users' ensures NoDuplicates(users'[x].friends) {
      BefriendFriends(users, a, b, x);
    }
  }

  /** A successful accept keeps the database invariants. */
  lemma AcceptKeepsValid(
    users: map<UserId, User>, requests: map<RequestId, FriendRequest>,
    posts: map<PostId, Post>, comments: map<CommentId, Comment>, nextId: nat, requestId: RequestId)
    requires ValidState(users, requests, posts, comments, nextId)
    requires requestId in requests
    ensures var r := requests[requestId];
            var users' := Befriend(users, r.sender, r.recipient);
            && ValidState(users', requests[requestId := r.(status := Accepted)], posts, comments, nextId)
            && r.recipient in users'[r.sender].friends && r.sender in users'[r.recipient].friends
            && (r.recipient in users[r.sender].friends ==> users' == users)
  {
    var r := requests[requestId];
    BefriendKeepsGraph(users, r.sender, r.recipient);
    AcceptKeepsRequests(users, requests, requestId);
    SetStatusKeepsOnePerPair(requests, requestId, Accepted);
    BefriendFriends(users, r.sender, r.recipient, r.sender);
    BefriendFriends(users, r.sender, r.recipient, r.recipient);
    if r.recipient in users[r.sender].friends {
      BefriendExisting(users, r.sender, r.recipient);
    }
  }

  /** Marking a request accepted while befriending its two users keeps the request invariants. */
  lemma AcceptKeepsRequests(users: map<UserId, User>, requests: map<RequestId, FriendRequest>, requestId: RequestId)
    requires RequestsWellFormed(requests, users) && AcceptedAreFriends(requests, users)
    requires requestId in requests
    ensures var r := requests[requestId];
            var requests' := requests[requestId := r.(status := Accepted)];
            var users' := Befriend(users, r.sender, r.recipient);
            && RequestsWellFormed(requests', users')
            && AcceptedAreFriends(requests', users')
  {
    var r := requests[requestId];
    var requests' := requests[requestId := r.(status := Accepted)];
    var users' := Befriend(users, r.sender, r.recipient);
    forall id | id in requests' && requests'[id].status == Accepted
      ensures requests'[id].sender in users' && requests'[id].recipient in users'[requests'[id].sender].friends
    {
      BefriendFriends(users, r.sender, r.recipient, requests'[id].sender);
    }
  }

  /** `declineFriendRequest`: the recipient of request `requestId` declines it. */
  method DeclineFriendRequest(store: Store, actor: UserId, requestId: RequestId) returns (status: int)
    requires store.Valid()
    modifies store
    ensures store.Valid()
    ensures requestId !in old(store.requests) ==> status == 500
    ensures requestId in old(store.requests) && old(store.requests[requestId].recipient) != actor ==> status == 403
    ensures status == 200 <==> requestId in old(store.requests) && old(store.requests[requestId].recipient) == actor
    ensures status != 200 ==> unchanged(store)
    // the status becomes declined whatever it was, and the friend lists are never touched
    ensures status == 200 ==>
            store.requests == old(store.requests)[requestId := old(store.requests[requestId]).(status := Declined)]
    ensures store.users == old(store.users)
    ensures store.posts == old(store.posts) && store.comments == old(store.comments) && store.nextId == old(store.nextId)
  {
    if requestId !in store.requests {
      status := 500;
      return;
    }
    var request := store.requests[requestId];
    if request.recipient != actor {
      status := 403;
      return;
    }
    store.requests := store.requests[requestId := request.(status := Declined)];
    status := 200;
    DeclineKeepsValid(store.users, old(store.requests), store.posts, store.comments, store.nextId, requestId);
  }

  /** Declining keeps the database invariants: no friend list changes, and a declined request needs none. */
  lemma DeclineKeepsValid(
    users: map<UserId, User>, requests: map<RequestId, FriendRequest>,
    posts: map<PostId, Post>, comments: map<CommentId, Comment>, nextId: nat, requestId: RequestId)
    requires ValidState(users, requests, posts, comments, nextId)
    requires requestId in requests
    ensures ValidState(users, requests[requestId := requests[requestId].(status := Declined)], posts, comments, nextId)
  {
    SetStatusKeepsOnePerPair(requests, requestId, Declined);
    DeclineKeepsRequests(users, requests, requestId);
  }

  lemma DeclineKeepsRequests(users: map<UserId, User>, requests: map<RequestId, FriendRequest>, requestId: RequestId)
    requires RequestsWellFormed(requests, users) && AcceptedAreFriends(requests, users)
    requires requestId in requests
    ensures var requests' := requests[requestId := requests[requestId].(status := Declined)];
            RequestsWellFormed(requests', users) && AcceptedAreFriends(requests', users)
  {
    var requests' := requests[requestId := requests[requestId].(status := Declined)];
    assert forall id :: id in requests' ==>
      requests'[id].sender == requests[id].sender && requests'[id].recipient == requests[id].recipient;
  }

  /** `incomingRequests` of `getFriendRequest`: pending requests addressed to `me`. */
  function IncomingRequests(requests: map<RequestId, FriendRequest>, me: UserId): set<RequestId>
  {
    set id | id in requests && requests[id].recipient == me && requests[id].status == Pending
  }

  /** `acceptReqs` of `getFriendRequest`: requests `me` sent that were accepted. */
  function AcceptedSent(requests: map<RequestId, FriendRequest>, me: UserId): set<RequestId>
  {
    set id | id in requests && requests[id].sender == me && requests[id].status == Accepted
  }

  /** `getOutgoingFriendRequest`: pending requests `me` sent. */
  function OutgoingRequests(requests: map<RequestId, FriendRequest>, me: UserId): set<RequestId>
  {
    set id | id in requests && requests[id].sender == me && requests[id].status == Pending
  }

  /** `getRecomendedUsers`: onboarded users other than `me` and `me`'s friends. */
  function RecommendedUsers(users: map<UserId, User>, me: UserId): set<UserId>
    requires me in users
  {
    set u | u in users && u != me && u !in users[me].friends && users[u].isOnboarded
  }

  /** A recommended user does not count `me` among their friends either. */
  lemma RecommendedAreStrangers(users: map<UserId, User>, me: UserId, u: UserId)
    requires FriendsSymmetric(users)
    requires me in users
    requires u in RecommendedUsers(users, me)
    ensures me !in users[u].friends
  {
  }

  /** Every accepted request `me` sent is matched by a friendship in both directions. */
  lemma AcceptedSentAreFriends(users: map<UserId, User>, requests: map<RequestId, FriendRequest>, me: UserId, id: RequestId)
    requires FriendsSymmetric(users) && AcceptedAreFriends(requests, users)
    requires id in AcceptedSent(requests, me)
    ensures me in users && requests[id].recipient in users[me].friends
    ensures requests[id].recipient in users && me in users[requests[id].recipient].friends
  {
  }

  /** The incoming list never shows two requests from the same sender. */
  lemma IncomingDistinctSenders(requests: map<RequestId, FriendRequest>, me: UserId, i: RequestId, j: RequestId)
    requires OneRequestPerPair(requests)
    requires i in IncomingRequests(requests, me) && j in IncomingRequests(requests, me) && i != j
    ensures requests[i].sender != requests[j].sender
  {
    assert !Between(requests[j], requests[i].sender, requests[i].recipient);
  }

  /** A friend appears exactly once in each friend list, however often a request was accepted. */
  lemma FriendListedOnce(users: map<UserId, User>, a: UserId, b: UserId)
    requires FriendsSymmetric(users) && FriendListsDistinct(users)
    requires a in users && b in users[a].friends
    ensures Count(users[a].friends, b) == 1 && Count(users[b].friends, a) == 1
  {
    CountInDistinct(users[a].friends, b);
    CountInDistinct(users[b].friends, a);
  }

  /** `likePost`: `me` likes post `postId`. */
  method LikePost(store: Store, me: UserId, postId: PostId) returns (status: int)
    requires store.Valid()
    modifies store
    ensures store.Valid()
    ensures postId !in old(store.posts) ==> status == 404
    ensures postId in old(store.posts) && me in old(store.posts[postId].likes) ==> status == 400
    ensures status == 200 <==> postId in old(store.posts) && me !in old(store.posts[postId].likes)
    ensures status != 200 ==> unchanged(store)
    ensures status == 200 ==>
            store.posts == old(store.posts)[postId := old(store.posts[postId]).(likes := old(store.posts[postId].likes) + [me])]
    // whether this call added the like or refused a second one, the post holds it exactly once
    ensures status != 404 ==> postId in store.posts && Count(store.posts[postId].likes, me) == 1
    ensures store.users == old(store.users) && store.requests == old(store.requests)
    ensures store.comments == old(store.comments) && store.nextId == old(store.nextId)
  {
    if postId !in store.posts {
      status := 404;
      return;
    }
    var post := store.posts[postId];
    if me in post.likes {
      status := 400;
      CountInDistinct(post.likes, me);
      return;
    }
    var likes := post.likes + [me];
    assert NoDuplicates(likes);
    store.posts := store.posts[postId := post.(likes := likes)];
    status := 200;
    CountInDistinct(likes, me);
  }

  /** `addLikeToComment`: `me` likes comment `commentId`. */
  method AddLikeToComment(store: Store, me: UserId, commentId: CommentId) returns (status: int)
    requires store.Valid()
    modifies store
    ensures store.Valid()
    ensures commentId !in old(store.comments) ==> status == 404
    ensures commentId in old(store.comments) && me in old(store.comments[commentId].likes) ==> status == 400
    ensures status == 200 <==> commentId in old(store.comments) && me !in old(store.comments[commentId].likes)
    ensures status != 200 ==> unchanged(store)
    ensures status == 200 ==>
            store.comments == old(store.comments)[commentId := old(store.comments[commentId]).(likes := old(store.comments[commentId].likes) + [me])]
    ensures status != 404 ==> commentId in store.comments && Count(store.comments[commentId].likes, me) == 1
    ensures store.users == old(store.users) && store.requests == old(store.requests)
    ensures store.posts == old(store.posts) && store.nextId == old(store.nextId)
  {
    if commentId !in store.comments {
      status := 404;
      return;
    }
    var comment := store.comments[commentId];
    if me in comment.likes {
      status := 400;
      CountInDistinct(comment.likes, me);
      return;
    }
    var likes := comment.likes + [me];
    assert NoDuplicates(likes);
    store.comments := store.comments[commentId := comment.(likes := likes)];
    status := 200;
    CountInDistinct(likes, me);
  }
}
