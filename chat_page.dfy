/**
 * The chat page: once the signed-in user and a chat token are known, it connects to the
 * chat service and opens the messaging channel shared with the user named in the path.
 * The channel id is the two user ids in sorted order joined by a dash, so both users open
 * the same channel; the call button links to, and posts an invitation to, a call page
 * named after that channel.
 */
module ChatPage {
  import opened Wrappers
  import JsString

  /** `client.channel("messaging", channelId, { members })`. */
  datatype Channel = Channel(kind: string, id: string, members: seq<string>)

  /** The page's state: `isLoading`, and the channel once it is set (the client is set with it). */
  datatype ChatState = ChatState(isLoading: bool, channel: Option<Channel>)

  const Initial: ChatState := ChatState(true, None)

  const InvitationText: string := "\U{1F4DE} Video Call Invitation: Join me for a video call! Click here: "

  /** `[me, target].sort()`: the same two ids, the first not after the second in the default string order. */
  function SortPair(me: string, target: string): (sorted: (string, string))
    ensures multiset{sorted.0, sorted.1} == multiset{me, target}
    ensures !JsString.StringLess(sorted.1, sorted.0)
  {
    JsString.StringLessTrichotomy(me, target);
    if JsString.StringLess(target, me) then (target, me) else (me, target)
  }

  /** `[me, target].sort().join('-')`. */
  function ChannelId(me: string, target: string): (id: string)
    ensures id == me + "-" + target || id == target + "-" + me
  {
    var sorted := SortPair(me, target);
    assert sorted == (me, target) || sorted == (target, me) by {
      assert sorted.0 in multiset{me, target} && sorted.1 in multiset{me, target};
    }
    sorted.0 + "-" + sorted.1
  }

  /** The channel `me` opens to chat with `target`. */
  function OpenChannel(me: string, target: string): (c: Channel)
    ensures c.kind == "messaging" && c.members == [me, target]
  {
    Channel("messaging", ChannelId(me, target), [me, target])
  }

  /** Both users of a conversation open the same channel id, with the same members. */
  lemma ChannelIdSymmetric(a: string, b: string)
    ensures ChannelId(a, b) == ChannelId(b, a)
    ensures OpenChannel(a, b).id == OpenChannel(b, a).id
    ensures multiset(OpenChannel(a, b).members) == multiset(OpenChannel(b, a).members)
  {
    JsString.StringLessTrichotomy(a, b);
  }

  predicate NoDash(s: string)
  {
    forall i :: 0 <= i < |s| ==> s[i] != '-'
  }

  /** A dash-joined pair whose first part has no dash splits back uniquely. */
  lemma SplitAtDash(x: string, y: string, x': string, y': string)
    requires NoDash(x) && NoDash(x')
    requires x + "-" + y == x' + "-" + y'
    ensures x == x' && y == y'
  {
    var j, j' := x + "-" + y, x' + "-" + y';
    assert j[|x|] == '-' && j'[|x'|] == '-';
    assert forall i :: 0 <= i < |x| ==> j[i] == x[i];
    assert forall i :: 0 <= i < |x'| ==> j'[i] == x'[i];
    assert |x| == |x'| by {
      if |x| < |x'| {
        assert false;
      } else if |x'| < |x| {
        assert false;
      }
    }
    assert x == j[..|x|] && x' == j'[..|x|];
    assert y == j[|x| + 1..] && y' == j'[|x| + 1..];
  }

  /**
   * For ids without a dash (ObjectIds are hexadecimal), the channel id names the pair of
   * users: two conversations share a channel only if they are between the same two users.
   */
  lemma ChannelIdDeterminesPair(a: string, b: string, c: string, d: string)
    requires NoDash(a) && NoDash(b) && NoDash(c) && NoDash(d)
    requires ChannelId(a, b) == ChannelId(c, d)
    ensures (a == c && b == d) || (a == d && b == c)
  {
    if JsString.StringLess(b, a) {
      if JsString.StringLess(d, c) {
        SplitAtDash(b, a, d, c);
      } else {
        SplitAtDash(b, a, c, d);
      }
    } else {
      if JsString.StringLess(d, c) {
        SplitAtDash(a, b, d, c);
      } else {
        SplitAtDash(a, b, c, d);
      }
    }
  }

  /** The effect's guard: `if (!authUser || !tokenData?.token) return;`. */
  predicate ShouldInitChat(authUser: Option<string>, tokenData: Option<string>)
  {
    authUser.Some? && tokenData.Some? && tokenData.value != ""
  }

  /**
   * One run of the effect. `connected` says whether connecting and watching the channel
   * succeeded; a failure leaves the channel unset. Either way loading ends, unless the
   * guard returned early.
   */
  function InitChat(s: ChatState, authUser: Option<string>, tokenData: Option<string>,
                    target: string, connected: bool): (s': ChatState)
    ensures !ShouldInitChat(authUser, tokenData) ==> s' == s
    ensures ShouldInitChat(authUser, tokenData) ==> !s'.isLoading
    ensures ShouldInitChat(authUser, tokenData) && connected ==> s'.channel == Some(OpenChannel(authUser.value, target))
    ensures ShouldInitChat(authUser, tokenData) && !connected ==> s'.channel == s.channel
  {
    if !ShouldInitChat(authUser, tokenData) then s
    else if connected then ChatState(false, Some(OpenChannel(authUser.value, target)))
    else ChatState(false, s.channel)
  }

  /** `isLoading || !chatClient || !channel` shows the loader. */
  predicate ShowsLoader(s: ChatState)
  {
    s.isLoading || s.channel.None?
  }

  /** Without a signed-in user and a token the page never leaves the loader; after a failed connection neither. */
  lemma LoaderUntilConnected(authUser: Option<string>, tokenData: Option<string>, target: string, connected: bool)
    ensures !ShouldInitChat(authUser, tokenData) || !connected ==>
              ShowsLoader(InitChat(Initial, authUser, tokenData, target, connected))
    ensures ShouldInitChat(authUser, tokenData) && connected ==>
              !ShowsLoader(InitChat(Initial, authUser, tokenData, target, connected))
  {
  }

  /** `${window.location.origin}/call/${channel.id}`. */
  function CallUrl(origin: string, channelId: string): (url: string)
    ensures |url| == |origin| + 6 + |channelId|
  {
    origin + "/call/" + channelId
  }

  /** The call id a URL of this origin names, the inverse of `CallUrl`. */
  function CallIdOf(origin: string, url: string): (id: Option<string>)
    ensures id.Some? ==> CallUrl(origin, id.value) == url
  {
    var prefix := origin + "/call/";
    if |prefix| <= |url| && url[..|prefix|] == prefix then
      assert url == prefix + url[|prefix|..];
      Some(url[|prefix|..])
    else None
  }

  lemma CallUrlRoundTrip(origin: string, channelId: string)
    ensures CallIdOf(origin, CallUrl(origin, channelId)) == Some(channelId)
  {
    var url, prefix := CallUrl(origin, channelId), origin + "/call/";
    assert url == prefix + channelId;
    assert url[..|prefix|] == prefix && url[|prefix|..] == channelId;
  }

  /** The call button's link, `getCallUrl()`; the button exists only once the page has left the loader. */
  function CallLink(s: ChatState, origin: string): (link: Option<string>)
    ensures link.Some? <==> !ShowsLoader(s)
    ensures link.Some? ==> CallIdOf(origin, link.value) == Some(s.channel.value.id)
  {
    if ShowsLoader(s) then None
    else
      CallUrlRoundTrip(origin, s.channel.value.id);
      Some(CallUrl(origin, s.channel.value.id))
  }

  /** `handleVideoCall`: with a channel, the invitation text it posts there; without one, nothing. */
  function VideoCallMessage(s: ChatState, origin: string): (text: Option<string>)
    ensures text.Some? <==> s.channel.Some?
    ensures text.Some? ==> |InvitationText| <= |text.value|
                           && text.value[..|InvitationText|] == InvitationText
                           && CallIdOf(origin, text.value[|InvitationText|..]) == Some(s.channel.value.id)
  {
    if s.channel.None? then None
    else
      var url := CallUrl(origin, s.channel.value.id);
      CallUrlRoundTrip(origin, s.channel.value.id);
      assert (InvitationText + url)[..|InvitationText|] == InvitationText;
      assert (InvitationText + url)[|InvitationText|..] == url;
      Some(InvitationText + url)
  }

  /**
   * Whichever of the two users sends the invitation, after a successful connection it
   * points at the same call, the one the call button links to.
   */
  lemma BothSidesShareCall(a: string, b: string, tokenA: string, tokenB: string, origin: string)
    requires tokenA != "" && tokenB != ""
    ensures var sa := InitChat(Initial, Some(a), Some(tokenA), b, true);
            var sb := InitChat(Initial, Some(b), Some(tokenB), a, true);
            && CallLink(sa, origin).Some? && CallLink(sa, origin) == CallLink(sb, origin)
            && VideoCallMessage(sa, origin) == VideoCallMessage(sb, origin)
  {
    ChannelIdSymmetric(a, b);
  }
}
