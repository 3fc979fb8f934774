/**
 * The friend-request button on each recommended user's card of the friends page. The id
 * sets are built exactly as on the profile page; a card's button is disabled while a
 * request between the two exists in either direction or one is being sent, and an
 * enabled button sends a request to that card's user.
 */
module FriendsPage {
  import opened Wrappers
  import opened ProfilePage

  datatype Label = RequestSentLabel | RequestReceivedLabel | Spinner | SendRequestLabel

  /** `disabled={isRequestSent || isReceivedRequest || isPending}`. */
  predicate Disabled(sent: bool, received: bool, isPending: bool)
  {
    sent || received || isPending
  }

  /** The button's text: either request wins over the loading spinner, and a sent request over a received one. */
  function ButtonLabel(sent: bool, received: bool, loadingLists: bool): (l: Label)
    ensures l == RequestSentLabel <==> sent
    ensures l == RequestReceivedLabel <==> !sent && received
    ensures l == Spinner <==> !sent && !received && loadingLists
    ensures l == SendRequestLabel <==> !sent && !received && !loadingLists
  {
    if sent || received then (if sent then RequestSentLabel else RequestReceivedLabel)
    else if loadingLists then Spinner
    else SendRequestLabel
  }

  /** The state of one recommended user's card. */
  datatype Card = Card(disabled: bool, text: Label, onClick: Option<string>)

  /** The card of recommended user `user`, given the id sets and the mutation and loading flags. */
  function CardFor(user: string, outgoingIds: set<string>, incomingIds: set<string>,
                   isPending: bool, loadingLists: bool): (c: Card)
    ensures c.disabled <==> user in outgoingIds || user in incomingIds || isPending
    // a disabled button does not fire its handler; an enabled one sends this user's id
    ensures c.onClick.Some? <==> !c.disabled
    ensures c.onClick.Some? ==> c.onClick.value == user
  {
    var sent, received := user in outgoingIds, user in incomingIds;
    var disabled := Disabled(sent, received, isPending);
    Card(disabled, ButtonLabel(sent, received, loadingLists), if disabled then None else Some(user))
  }

  /** A button that says a request exists is always disabled, and an enabled button always offers to send one. */
  lemma LabelAgreesWithDisabled(user: string, outgoingIds: set<string>, incomingIds: set<string>,
                                isPending: bool, loadingLists: bool)
    ensures var c := CardFor(user, outgoingIds, incomingIds, isPending, loadingLists);
            && (c.text == RequestSentLabel || c.text == RequestReceivedLabel ==> c.disabled && c.onClick.None?)
            && (!c.disabled ==> c.text == SendRequestLabel || c.text == Spinner)
  {
  }

  /** With both request listings empty, neither id set holds anyone, so only a pending send disables a card. */
  lemma EmptyListingsEnableAll(user: string, isPending: bool, loadingLists: bool)
    ensures RecipientIds([]) == {} && IncomingSenderIds(Some(IncomingPayload(Some([])))) == {}
    ensures IncomingSenderIds(None) == {} && IncomingSenderIds(Some(IncomingPayload(None))) == {}
    ensures CardFor(user, RecipientIds([]), IncomingSenderIds(None), isPending, loadingLists).disabled <==> isPending
  {
  }

  /** A card's button sends a request to its user only if no request exists between them in either direction. */
  lemma ClickMeansNoRequest(user: string, outgoing: seq<RequestView>, incoming: Option<IncomingPayload>,
                            isPending: bool, loadingLists: bool)
    requires CardFor(user, RecipientIds(outgoing), IncomingSenderIds(incoming), isPending, loadingLists).onClick.Some?
    ensures !isPending
    ensures forall r :: r in outgoing ==> r.recipient != user
    ensures incoming.Some? && incoming.value.incomingRequests.Some? ==>
              forall r :: r in incoming.value.incomingRequests.value ==> r.sender != user
  {
    forall r | r in outgoing ensures r.recipient != user {
      var i :| 0 <= i < |outgoing| && outgoing[i] == r;
      assert outgoing[i].recipient in RecipientIds(outgoing);
    }
    if incoming.Some? && incoming.value.incomingRequests.Some? {
      var reqs := incoming.value.incomingRequests.value;
      forall r | r in reqs ensures r.sender != user {
        var i :| 0 <= i < |reqs| && reqs[i] == r;
        assert reqs[i].sender in SenderIds(reqs);
      }
    }
  }
}
