/** handlers/users/middleware.py: SubscriptionMiddleware, the gate every
    update passes before any handler. The decision before the subscription
    check is a pure function of the update, the admin set and the
    conversation-state map; the subscription check itself reads and writes
    the per-user verdict cache, a dict kept in insertion order. */
module Gate {
  import opened PyStr
  import opened Ordering
  import opened Relations
  import opened Keyboard
  import opened ChannelStore
  import opened Membership
  import opened Start

  /** A chat message as the gate sees it; `text` is None for media. */
  datatype Message = Message(fromUser: int, chatId: int, chatType: string, text: Option<string>)

  /** An incoming update: a message, a callback query (with the message its
      button sits on, if any), or anything else. */
  datatype Update =
    | MessageUpdate(message: Message)
    | CallbackUpdate(fromUser: int, data: Option<string>, origin: Option<Message>)
    | OtherUpdate

  /** _extract_user_info: the user id, chat id and message of an update;
      None when there is no message, and when an id is 0, which Python's
      all([...]) treats as missing. */
  function ExtractUserInfo(u: Update): (r: Option<(int, int, Message)>)
    ensures r.Some? ==> r.value.0 != 0 && r.value.1 != 0 && r.value.2.chatId == r.value.1
    ensures r.Some? && u.MessageUpdate? ==> r.value.0 == u.message.fromUser && r.value.2 == u.message
    ensures r.Some? && u.CallbackUpdate? ==> r.value.0 == u.fromUser && u.origin == Some(r.value.2)
    ensures r.None? <==>
      || u.OtherUpdate?
      || (u.MessageUpdate? && (u.message.fromUser == 0 || u.message.chatId == 0))
      || (u.CallbackUpdate? && (u.origin.None? || u.fromUser == 0 || u.origin.value.chatId == 0))
  {
    match u
    case MessageUpdate(m) =>
      if m.fromUser != 0 && m.chatId != 0 then Some((m.fromUser, m.chatId, m)) else None
    case CallbackUpdate(userId, _, origin) =>
      if origin.Some? && userId != 0 && origin.value.chatId != 0 then Some((userId, origin.value.chatId, origin.value))
      else None
    case OtherUpdate => None
  }

  const AllowedCommands: seq<string> := ["/start", "/help", "/admin", "/cancel"]
  const AllowedCallbacks: seq<string> := ["check_subscription", "faculty_back", "no_action", "invalid_channel"]
  const AdminButtons: seq<string> := [
    "➕ Dars Qo'shish", "🗑 Dars O'chirish", "➕ Fakultet Qo'shish", "🗑 Fakultet O'chirish",
    "📊 Statistika", "🔙 Admin menyu", "📣 Reklama", "📢 Kanallar", "👤 Admin Qo'shish",
    "🗑 Admin O'chirish", "📋 Adminlar Ro'yxati", "✅Tasdiqlash", "❌Bekor qilish"
  ]
  const AdminCallbackPrefixes: seq<string> := ["add_course_", "del_fakultet_", "fakultetdel_"]

  /** text.split()[0]: the characters before the first whitespace. */
  function FirstWord(s: string): (r: string)
    ensures StartsWith(s, r)
    ensures forall i :: 0 <= i < |r| ==> !IsSpace(r[i])
    ensures |r| < |s| ==> IsSpace(s[|r|])
  {
    if s == [] || IsSpace(s[0]) then [] else [s[0]] + FirstWord(s[1..])
  }

  /** text.strip().split()[0].lower(); None where split() has no first
      element and the IndexError is raised. */
  function CommandOf(text: string): (r: Option<string>)
    ensures r.None? <==> forall i :: 0 <= i < |text| ==> IsSpace(text[i])
    ensures r.Some? ==> r.value != [] && forall i :: 0 <= i < |r.value| ==> !IsSpace(r.value[i])
  {
    var t := Strip(text);
    StripEmptyIff(text);
    if t == [] then None else Some(Lower(FirstWord(t)))
  }

  predicate HasAdminPrefix(data: string) {
    exists i :: 0 <= i < |AdminCallbackPrefixes| && StartsWith(data, AdminCallbackPrefixes[i])
  }

  /** _is_allowed_action, with isAdmin the answer _is_admin gives. For a
      message with text: the command token must be allow-listed, or the
      stripped text an admin-panel button pressed by an admin; text made of
      whitespace only raises inside the try and is not allowed. For a
      callback: an allow-listed data string, or an admin prefix for an admin. */
  predicate IsAllowedAction(u: Update, isAdmin: bool) {
    match u
    case MessageUpdate(m) =>
      && m.text.Some? && m.text.value != []
      && (match CommandOf(m.text.value)
          case None => false
          case Some(command) =>
            command in AllowedCommands || (Strip(m.text.value) in AdminButtons && isAdmin))
    case CallbackUpdate(_, data, _) =>
      && data.Some? && data.value != []
      && (data.value in AllowedCallbacks || (HasAdminPrefix(data.value) && isAdmin))
    case OtherUpdate => false
  }

  /** _is_in_state: a non-empty FSM state is stored for (chat, user). */
  predicate InState(states: map<(int, int), string>, chatId: int, userId: int) {
    (chatId, userId) in states && states[(chatId, userId)] != []
  }

  /** Where on_pre_process_update stands before the subscription check. */
  datatype Step = PassThrough | CancelGroupChat | NeedsSubscription(userId: int)

  /** on_pre_process_update up to the subscription check, in the source's
      order: no user info, then admin, then chat type, then conversation
      state, then the allow-lists. `admins` holds every id _is_admin
      accepts (the configured ADMINS and the rows flagged is_admin). */
  function Decide(u: Update, admins: set<int>, states: map<(int, int), string>): (s: Step)
    ensures ExtractUserInfo(u).None? ==> s == PassThrough
    ensures ExtractUserInfo(u).Some? && ExtractUserInfo(u).value.0 in admins ==> s == PassThrough
    ensures s == CancelGroupChat <==>
      ExtractUserInfo(u).Some? && ExtractUserInfo(u).value.0 !in admins && ExtractUserInfo(u).value.2.chatType != "private"
    ensures (&& ExtractUserInfo(u).Some? && ExtractUserInfo(u).value.2.chatType == "private"
             && InState(states, ExtractUserInfo(u).value.1, ExtractUserInfo(u).value.0)) ==> s == PassThrough
    ensures s.NeedsSubscription? ==>
      && ExtractUserInfo(u).Some?
      && s.userId == ExtractUserInfo(u).value.0 && s.userId !in admins
      && ExtractUserInfo(u).value.2.chatType == "private"
      && !InState(states, ExtractUserInfo(u).value.1, s.userId)
      && !IsAllowedAction(u, false)
    ensures (&& ExtractUserInfo(u).Some? && ExtractUserInfo(u).value.0 !in admins
             && ExtractUserInfo(u).value.2.chatType == "private"
             && !InState(states, ExtractUserInfo(u).value.1, ExtractUserInfo(u).value.0)) ==>
      && (s == PassThrough <==> IsAllowedAction(u, false))
      && (!IsAllowedAction(u, false) ==> s == NeedsSubscription(ExtractUserInfo(u).value.0))
  {
    match ExtractUserInfo(u)
    case None => PassThrough
    case Some((userId, chatId, message)) =>
      if userId in admins then PassThrough
      else if message.chatType != "private" then CancelGroupChat
      else if InState(states, chatId, userId) then PassThrough
      else if IsAllowedAction(u, userId in admins) then PassThrough
      else NeedsSubscription(userId)
  }

  /** A private-chat command is let through without a subscription check
      when its first word, in any letter case, is an allow-listed command. */
  lemma AllowedCommandPasses(userId: int, chatId: int, text: string, admins: set<int>, states: map<(int, int), string>)
    requires userId != 0 && chatId != 0
    requires CommandOf(text).Some? && CommandOf(text).value in AllowedCommands
    ensures Decide(MessageUpdate(Message(userId, chatId, "private", Some(text))), admins, states) == PassThrough
  {
    assert text != [];
  }

  /** Text that is only whitespace is never allow-listed: the gate goes on
      to the subscription check for a non-admin in a private chat. */
  lemma BlankTextIsChecked(userId: int, chatId: int, text: string, admins: set<int>, states: map<(int, int), string>)
    requires userId != 0 && chatId != 0 && userId !in admins && !InState(states, chatId, userId)
    requires forall i :: 0 <= i < |text| ==> IsSpace(text[i])
    ensures Decide(MessageUpdate(Message(userId, chatId, "private", Some(text))), admins, states) == NeedsSubscription(userId)
  {
  }

  /** The buttons of the gate's own subscription keyboard are allow-listed,
      so pressing them never meets the subscription check; start.py's
      "check_sub" button is not, so its press is checked like any other. */
  lemma KeyboardCallbacksAllowed(userId: int, origin: Message, admins: set<int>, states: map<(int, int), string>)
    requires userId != 0 && origin.chatId != 0 && origin.chatType == "private"
    requires userId !in admins && !InState(states, origin.chatId, userId)
    ensures Decide(CallbackUpdate(userId, Some(CheckSubscriptionButton.action.data), Some(origin)), admins, states) == PassThrough
    ensures Decide(CallbackUpdate(userId, Some(InvalidLinkButton(1).action.data), Some(origin)), admins, states) == PassThrough
    ensures Decide(CallbackUpdate(userId, Some(CheckSubButton.action.data), Some(origin)), admins, states) == NeedsSubscription(userId)
  {
    var data := CheckSubButton.action.data;
    assert data[6] == 's';
    assert !HasAdminPrefix(data) by {
      assert data[0] != 'a' && data[0] != 'd' && data[0] != 'f';
      forall i | 0 <= i < |AdminCallbackPrefixes| ensures !StartsWith(data, AdminCallbackPrefixes[i]) {
        assert AdminCallbackPrefixes[i][0] == 'a' || AdminCallbackPrefixes[i][0] == 'd' || AdminCallbackPrefixes[i][0] == 'f';
      }
    }
  }

  /** The verdict-cache lifetime, in seconds. */
  const CacheDuration: int := 30

  /** A cached verdict younger than 30 seconds (strict). */
  predicate FreshEntry(cache: map<int, (bool, int)>, userId: int, now: int) {
    userId in cache && now - cache[userId].1 < CacheDuration
  }

  function FreshAt(cache: map<int, (bool, int)>, now: int): int -> bool {
    (userId: int) => FreshEntry(cache, userId, now)
  }

  /** The key order of a Python dict after d[k] = v: a new key goes last,
      an existing key keeps its place. */
  function Remember(order: seq<int>, userId: int): (r: seq<int>)
    ensures forall k :: k in r <==> k in order || k == userId
    ensures Distinct(order) ==> Distinct(r)
  {
    if userId in order then order else order + [userId]
  }

  /** A duplicate-free key list has as many entries as its key set. */
  lemma {:induction false} DistinctKeysCount(order: seq<int>, keys: set<int>)
    requires Distinct(order)
    requires forall k :: k in order ==> k in keys
    requires forall k :: k in keys ==> k in order
    ensures |keys| == |order|
  {
    if order != [] {
      var tail := order[1..];
      var first := order[0];
      assert first in keys by {
        assert first in order;
      }
      assert Distinct(tail) by {
        forall i, j | 0 <= i < j < |tail| ensures tail[i] != tail[j] {
          assert tail[i] == order[i + 1] && tail[j] == order[j + 1];
        }
      }
      assert order[0] !in tail by {
        forall j | 0 <= j < |tail| ensures tail[j] != order[0] {
          assert tail[j] == order[j + 1];
        }
      }
      forall k | k in tail ensures k in keys - {order[0]} {
        assert k in order;
      }
      forall k | k in keys - {order[0]} ensures k in tail {
        assert order == [order[0]] + tail;
      }
      DistinctKeysCount(tail, keys - {order[0]});
      assert keys == (keys - {order[0]}) + {order[0]};
    } else {
      forall k | k in keys ensures false {
        assert false;
      }
      assert keys == {};
    }
  }

  class SubscriptionMiddleware {
    /** _subscription_cache: user id to (subscribed, timestamp). */
    var cache: map<int, (bool, int)>
    /** The cache's keys in insertion order, as the dict iterates them. */
    var order: seq<int>

    ghost predicate Valid()
      reads this
    {
      Distinct(order) && forall k :: k in cache <==> k in order
    }

    constructor ()
      ensures Valid() && cache == map[] && order == []
    {
      cache := map[];
      order := [];
    }

    /** _check_subscription at time `now`; `fetched` is what
        get_all_channels gave, None when it raised. A fresh cached verdict
        is returned as is. Otherwise: a raising store and an empty channel
        list both answer True and cache nothing; else the verdict is whether
        every channel passes, and it is cached with timestamp `now`. */
    method CheckSubscription(userId: int, now: int, fetched: Option<seq<Channel>>, lookup: Oracle)
      returns (subscribed: bool)
      requires Valid()
      modifies this
      ensures Valid()
      ensures FreshEntry(old(cache), userId, now) ==>
        subscribed == old(cache)[userId].0 && cache == old(cache) && order == old(order)
      ensures !FreshEntry(old(cache), userId, now) && (fetched.None? || fetched.value == []) ==>
        subscribed && cache == old(cache) && order == old(order)
      ensures !FreshEntry(old(cache), userId, now) && fetched.Some? && fetched.value != [] ==>
        && subscribed == AllPass(fetched.value, lookup, userId)
        && cache == old(cache)[userId := (subscribed, now)]
        && order == Remember(old(order), userId)
    {
      if FreshEntry(cache, userId, now) {
        return cache[userId].0;
      }
      if fetched.None? || fetched.value == [] {
        return true;
      }
      var allPass, _ := CheckAllSubscriptions(fetched.value, lookup, userId);
      cache := cache[userId := (allPass, now)];
      order := Remember(order, userId);
      subscribed := allPass;
    }

    /** get_cache_stats: how many users are cached, and how many of those
        verdicts are younger than 30 seconds. */
    method GetCacheStats(now: int) returns (total: nat, active: nat, duration: int)
      requires Valid()
      ensures total == |cache|
      ensures active == |Filter(order, FreshAt(cache, now))|
      ensures active <= total
      ensures duration == CacheDuration
    {
      active := 0;
      var i := 0;
      while i < |order|
        invariant 0 <= i <= |order|
        invariant active == |Filter(order[..i], FreshAt(cache, now))|
      {
        assert order[..i + 1] == order[..i] + [order[i]];
        FilterSnoc(order[..i], order[i], FreshAt(cache, now));
        if now - cache[order[i]].1 < CacheDuration {
          active := active + 1;
        }
        i := i + 1;
      }
      assert order[..i] == order;
      DistinctKeysCount(order, cache.Keys);
      total := |order|;
      duration := CacheDuration;
    }

    /** clear_cache */
    method ClearCache()
      modifies this
      ensures Valid() && cache == map[] && order == []
    {
      cache := map[];
      order := [];
    }

    /** on_pre_process_update: the pure decision, then, when it gets that
        far, the subscription check. A non-subscriber is cancelled and shown
        the keyboard of the failing channels (none when the list came back
        empty); every other path passes. The verdict cache changes only as
        the subscription check changes it. */
    method OnPreProcessUpdate(u: Update, admins: set<int>, states: map<(int, int), string>, now: int,
                              fetched: Option<seq<Channel>>, lookup: Oracle)
      returns (pass: bool, prompt: Option<seq<InlineButton>>)
      requires Valid()
      modifies this
      ensures Valid()
      ensures !Decide(u, admins, states).NeedsSubscription? ==>
        pass == (Decide(u, admins, states) == PassThrough) && prompt.None? && cache == old(cache) && order == old(order)
      ensures Decide(u, admins, states).NeedsSubscription? && FreshEntry(old(cache), Decide(u, admins, states).userId, now) ==>
        pass == old(cache)[Decide(u, admins, states).userId].0
      ensures Decide(u, admins, states).NeedsSubscription? && !FreshEntry(old(cache), Decide(u, admins, states).userId, now) ==>
        pass == (fetched.None? || fetched.value == [] || AllPass(fetched.value, lookup, Decide(u, admins, states).userId))
      ensures pass ==> prompt.None?
      ensures !pass && Decide(u, admins, states).NeedsSubscription? ==>
        prompt == PromptFor(fetched, lookup, Decide(u, admins, states).userId)
      ensures Decide(u, admins, states).NeedsSubscription? ==>
        var userId := Decide(u, admins, states).userId;
        if FreshEntry(old(cache), userId, now) || fetched.None? || fetched.value == [] then
          cache == old(cache) && order == old(order)
        else
          cache == old(cache)[userId := (pass, now)] && order == Remember(old(order), userId)
    {
      var step := Decide(u, admins, states);
      match step
      case PassThrough =>
        return true, None;
      case CancelGroupChat =>
        return false, None;
      case NeedsSubscription(userId) =>
        var subscribed := CheckSubscription(userId, now, fetched, lookup);
        if subscribed {
          return true, None;
        }
        var unsubscribed := GetUnsubscribedChannels(fetched, lookup, userId);
        if unsubscribed == [] {
          return false, None;
        }
        var keyboard := BuildSubscriptionKeyboard(unsubscribed);
        return false, Some(keyboard);
    }
  }

  /** _get_unsubscribed_channels: the failing channels' (link, title)
      pairs in store order; an empty list when the store raised. */
  method GetUnsubscribedChannels(fetched: Option<seq<Channel>>, lookup: Oracle, userId: int)
    returns (unsubscribed: seq<(string, string)>)
    ensures fetched.None? ==> unsubscribed == []
    ensures fetched.Some? ==> unsubscribed == UnsubscribedOf(fetched.value, lookup, userId)
  {
    if fetched.None? {
      return [];
    }
    unsubscribed := CollectUnsubscribed(fetched.value, lookup, userId);
  }

  /** What _handle_unsubscribed_user shows: nothing when no channel is
      found failing (or the store raised), else the subscription keyboard. */
  function PromptFor(fetched: Option<seq<Channel>>, lookup: Oracle, userId: int): Option<seq<InlineButton>>
  {
    if fetched.None? || UnsubscribedOf(fetched.value, lookup, userId) == [] then None
    else Some(GateButtons(UnsubscribedOf(fetched.value, lookup, userId), 1) + [CheckSubscriptionButton])
  }

  const CheckSubscriptionButton: InlineButton :=
    InlineButton("✅ Obuna bo'ldim, tekshirish", Callback("check_subscription"))

  /** f"{index}. ❌ Noto'g'ri havola" with the no_action callback. */
  function InvalidLinkButton(index: nat): (b: InlineButton)
    ensures b.action == Callback("no_action")
  {
    InlineButton(NatToDecimal(index) + ". ❌ Noto'g'ri havola", Callback("no_action"))
  }

  /** The gate's button for the index-th unsubscribed channel. */
  function GateButton(index: nat, link: string, title: string): InlineButton {
    if IsTelegramLink(link) then ChannelButton(index, link, title) else InvalidLinkButton(index)
  }

  function GateButtons(unsubscribed: seq<(string, string)>, index: nat): (r: seq<InlineButton>)
    ensures |r| == |unsubscribed|
    ensures forall i :: 0 <= i < |r| ==> r[i] == GateButton(index + i, unsubscribed[i].0, unsubscribed[i].1)
  {
    seq(|unsubscribed|, i requires 0 <= i < |unsubscribed| => GateButton(index + i, unsubscribed[i].0, unsubscribed[i].1))
  }

  /** _build_subscription_keyboard: nothing for an empty list; otherwise a
      button per entry, numbered from 1 (a URL button for a t.me link, a
      no_action button for any other link), then the check button. */
  method BuildSubscriptionKeyboard(unsubscribed: seq<(string, string)>) returns (kb: seq<InlineButton>)
    ensures unsubscribed == [] ==> kb == []
    ensures unsubscribed != [] ==> kb == GateButtons(unsubscribed, 1) + [CheckSubscriptionButton]
  {
    kb := [];
    if unsubscribed == [] {
      return;
    }
    var i := 0;
    while i < |unsubscribed|
      invariant 0 <= i <= |unsubscribed|
      invariant kb == GateButtons(unsubscribed[..i], 1)
    {
      var (link, title) := unsubscribed[i];
      if IsTelegramLink(link) {
        kb := kb + [ChannelButton(i + 1, link, title)];
      } else {
        kb := kb + [InvalidLinkButton(i + 1)];
      }
      i := i + 1;
    }
    assert unsubscribed[..i] == unsubscribed;
    kb := kb + [CheckSubscriptionButton];
  }

  function IsUrlButton(): InlineButton -> bool {
    (b: InlineButton) => b.action.Link?
  }

  /** The two subscription keyboards agree on their URL buttons, numbering
      included: start.py's keyboard is the gate's with the no_action buttons
      dropped and check_sub in place of the gate's check button. */
  lemma {:induction false} KeyboardsAgree(unsubscribed: seq<(string, string)>, index: nat)
    ensures StartChannelButtons(unsubscribed, index) == Filter(GateButtons(unsubscribed, index), IsUrlButton())
    decreases |unsubscribed|
  {
    if unsubscribed != [] {
      var g := GateButtons(unsubscribed, index);
      var rest := GateButtons(unsubscribed[1..], index + 1);
      var (link, title) := unsubscribed[0];
      assert g[0] == GateButton(index, link, title);
      assert IsUrlButton()(g[0]) <==> IsTelegramLink(link);
      forall k | 0 <= k < |rest| ensures g[1..][k] == rest[k] {
        assert g[1..][k] == g[k + 1];
      }
      assert g[1..] == rest;
      KeyboardsAgree(unsubscribed[1..], index + 1);
    }
  }
}
