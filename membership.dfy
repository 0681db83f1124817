/** The channel-membership checks that handlers/users/start.py and
    handlers/users/middleware.py both perform. Telegram's get_chat_member is
    an oracle from (channel id, user id) to a member status or an error. */
module Membership {
  import opened PyStr
  import opened Relations
  import opened Keyboard
  import opened ChannelStore

  /** What get_chat_member gives back: the member's status, or an exception. */
  datatype Lookup = Status(status: string) | LookupError

  type Oracle = (int, int) -> Lookup

  const SubscribedStatuses: seq<string> := ["member", "administrator", "creator"]

  /** check_channel_subscription (start.py) and _check_single_channel
      (middleware.py): the user counts as subscribed when the status is one
      of the three; a failed lookup counts as not subscribed. */
  predicate ChannelPasses(lookup: Oracle, userId: int, channelId: int) {
    match lookup(channelId, userId)
    case Status(s) => s in SubscribedStatuses
    case LookupError => false
  }

  predicate AllPass(channels: seq<Channel>, lookup: Oracle, userId: int) {
    forall i :: 0 <= i < |channels| ==> ChannelPasses(lookup, userId, channels[i].channelId)
  }

  function Failing(lookup: Oracle, userId: int): Channel -> bool {
    (c: Channel) => !ChannelPasses(lookup, userId, c.channelId)
  }

  /** The (link, title) pair the unsubscribed lists carry. */
  function LinkAndTitle(cs: seq<Channel>): (r: seq<(string, string)>)
    ensures |r| == |cs|
    ensures forall i :: 0 <= i < |cs| ==> r[i] == (cs[i].inviteLink, cs[i].title)
  {
    seq(|cs|, i requires 0 <= i < |cs| => (cs[i].inviteLink, cs[i].title))
  }

  /** The failing channels' (link, title) pairs, in store order. */
  function UnsubscribedOf(channels: seq<Channel>, lookup: Oracle, userId: int): seq<(string, string)>
  {
    LinkAndTitle(Filter(channels, Failing(lookup, userId)))
  }

  /** check_all_subscriptions (start.py): True for an empty channel list;
      otherwise the channels are looked up in store order and the first
      failure answers False. `looked` is how many lookups were made. */
  method CheckAllSubscriptions(channels: seq<Channel>, lookup: Oracle, userId: int)
    returns (ok: bool, ghost looked: nat)
    ensures ok <==> AllPass(channels, lookup, userId)
    ensures channels == [] ==> ok && looked == 0
    ensures ok ==> looked == |channels|
    ensures !ok ==>
              && 1 <= looked <= |channels|
              && !ChannelPasses(lookup, userId, channels[looked - 1].channelId)
              && AllPass(channels[..looked - 1], lookup, userId)
  {
    looked := 0;
    if channels == [] {
      return true, looked;
    }
    var i := 0;
    while i < |channels|
      invariant 0 <= i <= |channels| && looked == i
      invariant AllPass(channels[..i], lookup, userId)
    {
      looked := looked + 1;
      if !ChannelPasses(lookup, userId, channels[i].channelId) {
        return false, looked;
      }
      i := i + 1;
    }
    assert channels[..i] == channels;
    ok := true;
  }

  /** One more channel: its pair is appended exactly when it fails. */
  lemma UnsubscribedStep(channels: seq<Channel>, lookup: Oracle, userId: int, i: nat)
    requires i < |channels|
    ensures UnsubscribedOf(channels[..i + 1], lookup, userId) ==
      UnsubscribedOf(channels[..i], lookup, userId)
      + (if ChannelPasses(lookup, userId, channels[i].channelId) then [] else [(channels[i].inviteLink, channels[i].title)])
  {
    var c := channels[i];
    assert channels[..i + 1] == channels[..i] + [c];
    FilterSnoc(channels[..i], c, Failing(lookup, userId));
    var before := Filter(channels[..i], Failing(lookup, userId));
    var after := Filter(channels[..i + 1], Failing(lookup, userId));
    var expected := UnsubscribedOf(channels[..i], lookup, userId)
      + (if ChannelPasses(lookup, userId, c.channelId) then [] else [(c.inviteLink, c.title)]);
    assert |LinkAndTitle(after)| == |expected|;
    forall k | 0 <= k < |after| ensures LinkAndTitle(after)[k] == expected[k] {
      if k < |before| {
        assert after[k] == before[k];
      }
    }
  }

  /** The loop of get_unsubscribed_channels (start.py) and of
      _get_unsubscribed_channels (middleware.py): (link, title) appended for
      every failing channel. */
  method CollectUnsubscribed(channels: seq<Channel>, lookup: Oracle, userId: int)
    returns (unsubscribed: seq<(string, string)>)
    ensures unsubscribed == UnsubscribedOf(channels, lookup, userId)
  {
    unsubscribed := [];
    var i := 0;
    while i < |channels|
      invariant 0 <= i <= |channels|
      invariant unsubscribed == UnsubscribedOf(channels[..i], lookup, userId)
    {
      UnsubscribedStep(channels, lookup, userId, i);
      if !ChannelPasses(lookup, userId, channels[i].channelId) {
        unsubscribed := unsubscribed + [(channels[i].inviteLink, channels[i].title)];
      }
      i := i + 1;
    }
    assert channels[..i] == channels;
  }

  /** The unsubscribed list names exactly the failing channels, is no longer
      than the channel list, and is empty exactly when every channel passes. */
  lemma UnsubscribedSpec(channels: seq<Channel>, lookup: Oracle, userId: int)
    ensures forall p :: p in UnsubscribedOf(channels, lookup, userId) <==>
      exists c :: c in channels && !ChannelPasses(lookup, userId, c.channelId) && p == (c.inviteLink, c.title)
    ensures |UnsubscribedOf(channels, lookup, userId)| <= |channels|
    ensures UnsubscribedOf(channels, lookup, userId) == [] <==> AllPass(channels, lookup, userId)
  {
    var f := Filter(channels, Failing(lookup, userId));
    var r := UnsubscribedOf(channels, lookup, userId);
    forall p | p in r
      ensures exists c :: c in channels && !ChannelPasses(lookup, userId, c.channelId) && p == (c.inviteLink, c.title)
    {
      var k :| 0 <= k < |r| && r[k] == p;
      assert f[k] in f;
    }
    forall c | c in channels && !ChannelPasses(lookup, userId, c.channelId)
      ensures (c.inviteLink, c.title) in r
    {
      assert c in f;
      var k :| 0 <= k < |f| && f[k] == c;
      assert r[k] == (c.inviteLink, c.title);
    }
    if !AllPass(channels, lookup, userId) {
      var i :| 0 <= i < |channels| && !ChannelPasses(lookup, userId, channels[i].channelId);
      assert channels[i] in f;
    } else {
      forall c | c in channels ensures !Failing(lookup, userId)(c) {
        var i :| 0 <= i < |channels| && channels[i] == c;
      }
      FilterAllOrNone(channels, Failing(lookup, userId));
    }
  }

  const TitleWidth: nat := 25
  const TelegramLinkPrefix: string := "https://t.me/"

  /** title[:25] + "..." when the title is longer than 25, else the title. */
  function DisplayTitle(title: string): (r: string)
    ensures |title| <= TitleWidth ==> r == title
    ensures |title| > TitleWidth ==> |r| == TitleWidth + 3 && StartsWith(title, r[..TitleWidth]) && EndsWith(r, "...")
  {
    if |title| > TitleWidth then title[..TitleWidth] + "..." else title
  }

  /** `link and link.startswith("https://t.me/")` */
  predicate IsTelegramLink(link: string) {
    StartsWith(link, TelegramLinkPrefix)
  }

  /** f"{index}. 📢 {display_title}" with the link as the button's URL. */
  function ChannelButton(index: nat, link: string, title: string): (b: InlineButton)
    ensures b.action == Link(link)
  {
    InlineButton(NatToDecimal(index) + ". 📢 " + DisplayTitle(title), Link(link))
  }
}
