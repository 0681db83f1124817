/** handlers/users/start.py: the /start command, user registration, the
    subscription keyboard of this file, and the bounded automatic recheck. */
module Start {
  import opened PyStr
  import opened Relations
  import opened Keyboard
  import opened ChannelStore
  import opened UserStore
  import opened Membership

  const CheckSubButton: InlineButton := InlineButton("✅ Tekshirish", Callback("check_sub"))

  function HasTelegramLink(): ((string, string)) -> bool {
    (p: (string, string)) => IsTelegramLink(p.0)
  }

  /** The channel buttons of build_subscription_keyboard: entries are
      numbered by their position in the list (from `index`), and an entry
      whose link is not a t.me link gets no button, though its number is used. */
  function StartChannelButtons(unsubscribed: seq<(string, string)>, index: nat): (r: seq<InlineButton>)
    ensures |r| == |Filter(unsubscribed, HasTelegramLink())|
    ensures forall b :: b in r ==> b.action.Link? && IsTelegramLink(b.action.url)
    decreases |unsubscribed|
  {
    if unsubscribed == [] then []
    else
      assert unsubscribed == [unsubscribed[0]] + unsubscribed[1..];
      var rest := StartChannelButtons(unsubscribed[1..], index + 1);
      var (link, title) := unsubscribed[0];
      (if IsTelegramLink(link) then [ChannelButton(index, link, title)] else []) + rest
  }

  /** build_subscription_keyboard (start.py): a button per t.me link, then
      the check_sub button, which is there even when the list is empty. */
  function StartKeyboard(unsubscribed: seq<(string, string)>): (kb: seq<InlineButton>)
    ensures |kb| == |Filter(unsubscribed, HasTelegramLink())| + 1
    ensures kb[|kb| - 1] == CheckSubButton
    ensures forall i :: 0 <= i < |kb| - 1 ==> kb[i].action.Link? && IsTelegramLink(kb[i].action.url)
  {
    var buttons := StartChannelButtons(unsubscribed, 1);
    assert forall i :: 0 <= i < |buttons| ==> buttons[i] in buttons;
    buttons + [CheckSubButton]
  }

  /** A row after a returning user's /start: new names, last_active = now. */
  function Refreshed(u: UserRow, username: Option<string>, firstName: Option<string>, lastName: Option<string>, now: int): UserRow
  {
    u.(username := username, firstName := firstName, lastName := lastName, lastActive := now)
  }

  /** The Users table after register_user: an unknown user appended with
      the next id, no faculty and created_at = last_active = now; a known
      user's row with its names replaced and last_active set to now. */
  function Registered(users: seq<UserRow>, nextId: int, userId: int, username: Option<string>,
                      firstName: Option<string>, lastName: Option<string>, now: int): seq<UserRow>
  {
    if First(users, TelegramIdIs(userId)).None? then
      users + [UserRow(nextId, userId, username, firstName, lastName, None, false, false, now, now, 0)]
    else
      MapWhere(MapWhere(users, TelegramIdIs(userId), SetInfo(username, firstName, lastName)),
               TelegramIdIs(userId), SetLastActive(now))
  }

  /** register_user: an unknown user is inserted (no faculty); a known one
      gets its names and last_active refreshed and is never inserted again.
      Store faults are not modelled, so the result is always True. */
  method RegisterUser(udb: UserDatabase, userId: int, username: Option<string>, firstName: Option<string>,
                      lastName: Option<string>, now: int) returns (ok: bool)
    requires udb.Valid()
    modifies udb
    ensures udb.Valid() && ok
    ensures udb.users == Registered(old(udb.users), old(udb.nextId), userId, username, firstName, lastName, now)
    ensures udb.SelectUser(userId).Some?
    ensures old(udb.SelectUser(userId)).None? ==>
      udb.users == old(udb.users) + [UserRow(old(udb.nextId), userId, username, firstName, lastName, None, false, false, now, now, 0)]
    ensures old(udb.SelectUser(userId)).Some? ==>
      && |udb.users| == |old(udb.users)|
      && udb.SelectUser(userId) == Some(Refreshed(old(udb.SelectUser(userId)).value, username, firstName, lastName, now))
      && (forall i :: 0 <= i < |udb.users| && old(udb.users)[i].telegramId != userId ==> udb.users[i] == old(udb.users)[i])
  {
    var user := udb.SelectUser(userId);
    if user.None? {
      udb.AddUser(userId, username, firstName, lastName, None, now);
      assert udb.users[|udb.users| - 1] in udb.users;
    } else {
      RefreshSpec(udb.users, userId, username, firstName, lastName, now);
      udb.UpdateUserInfo(userId, username, firstName, lastName);
      udb.UpdateLastActive(userId, now);
    }
    ok := true;
  }

  /** The two updates of a returning user, as one change of the table. */
  lemma RefreshSpec(s: seq<UserRow>, userId: int, username: Option<string>, firstName: Option<string>,
                    lastName: Option<string>, now: int)
    requires First(s, TelegramIdIs(userId)).Some?
    ensures var after := MapWhere(MapWhere(s, TelegramIdIs(userId), SetInfo(username, firstName, lastName)),
                                  TelegramIdIs(userId), SetLastActive(now));
      && |after| == |s|
      && First(after, TelegramIdIs(userId)) ==
           Some(Refreshed(First(s, TelegramIdIs(userId)).value, username, firstName, lastName, now))
      && (forall i :: 0 <= i < |s| && s[i].telegramId != userId ==> after[i] == s[i])
  {
    var info := SetInfo(username, firstName, lastName);
    var middle := MapWhere(s, TelegramIdIs(userId), info);
    var after := MapWhere(middle, TelegramIdIs(userId), SetLastActive(now));
    UpdateThenSelect(s, userId, info);
    UpdateThenSelect(middle, userId, SetLastActive(now));
    var u := First(s, TelegramIdIs(userId)).value;
    assert First(middle, TelegramIdIs(userId)) == Some(info(u));
    assert SetLastActive(now)(info(u)) == Refreshed(u, username, firstName, lastName, now);
    forall i | 0 <= i < |s| && s[i].telegramId != userId ensures after[i] == s[i] {
      assert middle[i] == s[i];
    }
  }

  /** The outcome of one recheck: still missing a channel; all subscribed
      and the welcome shown; or an exception (from the check or the edit). */
  datatype Attempt = StillMissing | Welcomed | Raised

  const MaxAttempts: nat := 60

  /** auto_check_subscription: at most 60 attempts; it stops at the first
      success and, by the `break`, at the first exception. `welcomed` tells
      whether the welcome replaced the timeout message. */
  method AutoCheckSubscription(outcome: nat -> Attempt) returns (attempts: nat, welcomed: bool)
    ensures 1 <= attempts <= MaxAttempts
    ensures forall k :: 0 <= k < attempts - 1 ==> outcome(k) == StillMissing
    ensures welcomed <==> outcome(attempts - 1) == Welcomed
    ensures !welcomed ==> attempts == MaxAttempts || outcome(attempts - 1) == Raised
  {
    attempts := 0;
    welcomed := false;
    while attempts < MaxAttempts
      invariant attempts <= MaxAttempts && !welcomed
      invariant forall k :: 0 <= k < attempts ==> outcome(k) == StillMissing
    {
      var result := outcome(attempts);
      attempts := attempts + 1;
      if result == Welcomed {
        welcomed := true;
        return;
      } else if result == Raised {
        return;
      }
    }
  }

  datatype StartReply =
    | PrivateChatOnly
    | AdminPanel
    | FacultyMenu
    | SubscriptionConfirmed
    | SubscribePrompt(keyboard: seq<InlineButton>)

  /** start_handler: a non-private chat is answered and nothing else
      happens; an admin (configured or flagged in Users) gets the panel and
      is not registered; anyone else is registered, then shown the faculty
      menu when there are no channels or every channel passes, and the
      subscription keyboard of the failing channels otherwise. */
  method StartHandler(udb: UserDatabase, cdb: ChannelDB, admins: set<int>, userId: int,
                      username: Option<string>, firstName: Option<string>, lastName: Option<string>,
                      isPrivate: bool, lookup: Oracle, now: int) returns (reply: StartReply)
    requires udb.Valid() && cdb.Valid()
    modifies udb
    ensures udb.Valid()
    ensures !isPrivate ==> reply == PrivateChatOnly && udb.users == old(udb.users)
    ensures isPrivate && (userId in admins || old(udb.CheckIfAdmin(userId))) ==>
      reply == AdminPanel && udb.users == old(udb.users)
    ensures isPrivate && !(userId in admins || old(udb.CheckIfAdmin(userId))) ==>
      && udb.users == Registered(old(udb.users), old(udb.nextId), userId, username, firstName, lastName, now)
      && udb.SelectUser(userId).Some?
      && |udb.users| == |old(udb.users)| + (if old(udb.SelectUser(userId)).None? then 1 else 0)
      && reply == (if cdb.rows == [] then FacultyMenu
                   else if AllPass(cdb.rows, lookup, userId) then SubscriptionConfirmed
                   else SubscribePrompt(StartKeyboard(UnsubscribedOf(cdb.rows, lookup, userId))))
  {
    if !isPrivate {
      return PrivateChatOnly;
    }
    if userId in admins || udb.CheckIfAdmin(userId) {
      return AdminPanel;
    }
    var registered := RegisterUser(udb, userId, username, firstName, lastName, now);
    var channels := cdb.GetAllChannels();
    if channels == [] {
      return FacultyMenu;
    }
    var subscribed, _ := CheckAllSubscriptions(channels, lookup, userId);
    if subscribed {
      reply := SubscriptionConfirmed;
    } else {
      var unsubscribed := CollectUnsubscribed(channels, lookup, userId);
      reply := SubscribePrompt(StartKeyboard(unsubscribed));
    }
  }
}
