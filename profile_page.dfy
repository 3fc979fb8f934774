/**
 * The relationship button of a user's profile page. The ids of the users the viewer has
 * asked, and of the users who have asked the viewer, are gathered from the two request
 * listings; the button then shows the strongest relationship, in the order friends,
 * request sent, request received, and only the last state, "Add Friend", sends a request.
 */
module ProfilePage {
  import opened Wrappers

  /** A request as the listings return it, with `sender._id` and `recipient._id` populated. */
  datatype RequestView = RequestView(sender: string, recipient: string)

  /** The body of the incoming-requests query; `incomingRequests` may be missing. */
  datatype IncomingPayload = IncomingPayload(incomingRequests: Option<seq<RequestView>>)

  /** The profile query's data; `friends` may be missing. */
  datatype ProfileView = ProfileView(id: string, friends: Option<seq<string>>)

  datatype ProfileButton = Friends | RequestSent | RequestReceived | AddFriend

  /** The recipients of a list of requests. */
  function RecipientIds(reqs: seq<RequestView>): set<string>
  {
    set i | 0 <= i < |reqs| :: reqs[i].recipient
  }

  /** The senders of a list of requests. */
  function SenderIds(reqs: seq<RequestView>): set<string>
  {
    set i | 0 <= i < |reqs| :: reqs[i].sender
  }

  /** The senders of the incoming requests, none when the payload or its list is missing. */
  function IncomingSenderIds(payload: Option<IncomingPayload>): set<string>
  {
    if payload.Some? && payload.value.incomingRequests.Some? then SenderIds(payload.value.incomingRequests.value)
    else {}
  }

  /** `outgoingIds`: one `ids.add` per outgoing request. */
  method OutgoingIds(outgoing: seq<RequestView>) returns (ids: set<string>)
    ensures ids == RecipientIds(outgoing)
    ensures |ids| <= |outgoing|
  {
    ids := {};
    if |outgoing| > 0 {
      var i := 0;
      while i < |outgoing|
        invariant 0 <= i <= |outgoing|
        invariant ids == RecipientIds(outgoing[..i])
        invariant |ids| <= i
      {
        assert outgoing[..i + 1] == outgoing[..i] + [outgoing[i]];
        ids := ids + {outgoing[i].recipient};
        i := i + 1;
        AddOneRecipient(outgoing[..i - 1], outgoing[i - 1]);
      }
      assert outgoing[..i] == outgoing;
    }
  }

  /** `incomingIds`: one `ids.add` per incoming request, when there is a list to go through. */
  method IncomingIds(payload: Option<IncomingPayload>) returns (ids: set<string>)
    ensures ids == IncomingSenderIds(payload)
  {
    ids := {};
    if payload.Some? && payload.value.incomingRequests.Some? && |payload.value.incomingRequests.value| > 0 {
      var incoming := payload.value.incomingRequests.value;
      var i := 0;
      while i < |incoming|
        invariant 0 <= i <= |incoming|
        invariant ids == SenderIds(incoming[..i])
      {
        ids := ids + {incoming[i].sender};
        i := i + 1;
        AddOneSender(incoming[..i - 1], incoming[i - 1]);
        assert incoming[..i] == incoming[..i - 1] + [incoming[i - 1]];
      }
      assert incoming[..i] == incoming;
    }
  }

  lemma AddOneRecipient(reqs: seq<RequestView>, r: RequestView)
    ensures RecipientIds(reqs + [r]) == RecipientIds(reqs) + {r.recipient}
  {
    var s := reqs + [r];
    assert forall i :: 0 <= i < |reqs| ==> s[i] == reqs[i];
    assert s[|reqs|] == r;
  }

  lemma AddOneSender(reqs: seq<RequestView>, r: RequestView)
    ensures SenderIds(reqs + [r]) == SenderIds(reqs) + {r.sender}
  {
    var s := reqs + [r];
    assert forall i :: 0 <= i < |reqs| ==> s[i] == reqs[i];
    assert s[|reqs|] == r;
  }

  /** `userProfile?.friends?.includes(me)`. */
  predicate IsFriend(profile: Option<ProfileView>, me: string)
  {
    profile.Some? && profile.value.friends.Some? && me in profile.value.friends.value
  }

  /** The button, by priority: friends, then request sent, then request received, then add. */
  function Button(isFriend: bool, sent: bool, received: bool): (b: ProfileButton)
    ensures b == Friends <==> isFriend
    ensures b == RequestSent <==> !isFriend && sent
    ensures b == RequestReceived <==> !isFriend && !sent && received
    ensures b == AddFriend <==> !isFriend && !sent && !received
  {
    if isFriend then Friends
    else if sent then RequestSent
    else if received then RequestReceived
    else AddFriend
  }

  /** The button on the profile of `viewed`, as seen by `me`. */
  function ButtonFor(me: string, viewed: string, profile: Option<ProfileView>,
                     outgoing: seq<RequestView>, incoming: Option<IncomingPayload>): ProfileButton
  {
    Button(IsFriend(profile, me), viewed in RecipientIds(outgoing), viewed in IncomingSenderIds(incoming))
  }

  /**
   * What a click on the button sends: only "Add Friend" has a handler, and it sends the
   * loaded profile's id (with no profile loaded the handler fails and nothing is sent).
   */
  function Click(b: ProfileButton, profile: Option<ProfileView>): (sent: Option<string>)
    ensures sent.Some? <==> b == AddFriend && profile.Some?
  {
    if b == AddFriend && profile.Some? then Some(profile.value.id) else None
  }

  /**
   * A click sends a request only to a loaded profile that is not a friend, has not been
   * asked already and has not asked the viewer.
   */
  lemma ClickOnlyFromAdd(me: string, viewed: string, profile: Option<ProfileView>,
                         outgoing: seq<RequestView>, incoming: Option<IncomingPayload>)
    requires Click(ButtonFor(me, viewed, profile, outgoing, incoming), profile).Some?
    ensures profile.Some? && Click(ButtonFor(me, viewed, profile, outgoing, incoming), profile) == Some(profile.value.id)
    ensures !IsFriend(profile, me)
    ensures forall r :: r in outgoing ==> r.recipient != viewed
    ensures incoming.Some? && incoming.value.incomingRequests.Some? ==>
              forall r :: r in incoming.value.incomingRequests.value ==> r.sender != viewed
  {
    forall r | r in outgoing ensures r.recipient != viewed {
      var i :| 0 <= i < |outgoing| && outgoing[i] == r;
      assert outgoing[i].recipient in RecipientIds(outgoing);
    }
    if incoming.Some? && incoming.value.incomingRequests.Some? {
      var reqs := incoming.value.incomingRequests.value;
      forall r | r in reqs ensures r.sender != viewed {
        var i :| 0 <= i < |reqs| && reqs[i] == r;
        assert reqs[i].sender in SenderIds(reqs);
      }
    }
  }
}
