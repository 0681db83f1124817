/** The Users table of utils/db_api/user.py. Rows are kept in rowid order;
    telegram_id is UNIQUE. Timestamps are integers (seconds), passed in by
    the caller in place of the local clock, and the UPDATE statements match
    rows by telegram_id, so an unknown id changes nothing. */
module UserStore {
  import opened PyStr
  import opened Ordering
  import opened Relations

  datatype UserRow = UserRow(
    id: int, telegramId: int,
    username: Option<string>, firstName: Option<string>, lastName: Option<string>,
    faculty: Option<string>, isBlocked: bool, isAdmin: bool,
    createdAt: int, lastActive: int, totalDownloads: nat)

  /** One day, for the [start of today, start of tomorrow) window. */
  const DaySeconds: int := 86400

  /** Rowid order and the UNIQUE telegram_id, between an earlier and a later row. */
  predicate UserBefore(a: UserRow, b: UserRow) { a.id < b.id && a.telegramId != b.telegramId }

  // WHERE clauses.
  function TelegramIdIs(telegramId: int): UserRow -> bool { (u: UserRow) => u.telegramId == telegramId }
  function NotBlocked(): UserRow -> bool { (u: UserRow) => !u.isBlocked }
  function IsAdminRow(): UserRow -> bool { (u: UserRow) => u.isAdmin }
  function CreatedIn(from: int, until: int): UserRow -> bool { (u: UserRow) => from <= u.createdAt < until }
  function CreatedSince(from: int): UserRow -> bool { (u: UserRow) => from <= u.createdAt }
  function ActiveIn(from: int, until: int): UserRow -> bool { (u: UserRow) => from <= u.lastActive < until && !u.isBlocked }
  function ActiveSince(from: int): UserRow -> bool { (u: UserRow) => from <= u.lastActive && !u.isBlocked }
  function InFaculty(faculty: string): UserRow -> bool { (u: UserRow) => u.faculty == Some(faculty) && !u.isBlocked }
  function Downloader(): UserRow -> bool { (u: UserRow) => !u.isBlocked && u.totalDownloads > 0 }

  // SET clauses.
  function SetInfo(username: Option<string>, firstName: Option<string>, lastName: Option<string>): UserRow -> UserRow
  {
    (u: UserRow) => u.(username := username, firstName := firstName, lastName := lastName)
  }
  function SetLastActive(now: int): UserRow -> UserRow { (u: UserRow) => u.(lastActive := now) }
  function SetFaculty(faculty: Option<string>): UserRow -> UserRow { (u: UserRow) => u.(faculty := faculty) }
  function SetAdminFlag(flag: bool): UserRow -> UserRow { (u: UserRow) => u.(isAdmin := flag) }
  function SetBlocked(flag: bool): UserRow -> UserRow { (u: UserRow) => u.(isBlocked := flag) }
  function Incremented(u: UserRow): UserRow { u.(totalDownloads := u.totalDownloads + 1) }
  function AddDownload(): UserRow -> UserRow { (u: UserRow) => Incremented(u) }

  /** ORDER BY total_downloads DESC. */
  predicate DownloadsDesc(a: UserRow, b: UserRow) { a.totalDownloads >= b.totalDownloads }
  /** ORDER BY created_at DESC. */
  predicate CreatedDesc(a: UserRow, b: UserRow) { a.createdAt >= b.createdAt }

  lemma DescOrdersTotal()
    ensures TotalPreorder(DownloadsDesc) && TotalPreorder(CreatedDesc)
  {
  }

  /** An update that keeps id and telegram_id keeps the table's order and key. */
  lemma {:induction false} KeysKept(s: seq<UserRow>, f: UserRow -> UserRow, telegramId: int, nextId: int)
    requires SortedBy(s, UserBefore) && forall u :: u in s ==> u.id < nextId
    requires forall u :: f(u).id == u.id && f(u).telegramId == u.telegramId
    ensures SortedBy(MapWhere(s, TelegramIdIs(telegramId), f), UserBefore)
    ensures forall u :: u in MapWhere(s, TelegramIdIs(telegramId), f) ==> u.id < nextId
  {
    var r := MapWhere(s, TelegramIdIs(telegramId), f);
    forall i, j | 0 <= i < j < |r| ensures UserBefore(r[i], r[j]) {
      assert UserBefore(s[i], s[j]);
    }
    forall u | u in r ensures u.id < nextId {
      var k :| 0 <= k < |r| && r[k] == u;
      assert s[k] in s;
    }
  }

  class UserDatabase {
    var users: seq<UserRow>
    var nextId: int

    ghost predicate Valid()
      reads this
    {
      && SortedBy(users, UserBefore)
      && (forall u :: u in users ==> u.id < nextId)
    }

    /** create_table on a fresh database. */
    constructor ()
      ensures Valid() && users == []
    {
      users := [];
      nextId := 1;
    }

    /** INSERT OR IGNORE with created_at = last_active = now: a new
        telegram_id gets a row with no downloads, not blocked and not admin;
        an existing one leaves the table unchanged. */
    method AddUser(telegramId: int, username: Option<string>, firstName: Option<string>,
                   lastName: Option<string>, faculty: Option<string>, now: int)
      requires Valid()
      modifies this
      ensures Valid()
      ensures old(SelectUser(telegramId)).Some? ==> users == old(users) && nextId == old(nextId)
      ensures old(SelectUser(telegramId)).None? ==>
        && users == old(users) + [UserRow(old(nextId), telegramId, username, firstName, lastName, faculty, false, false, now, now, 0)]
        && nextId == old(nextId) + 1
      ensures old(SelectUser(telegramId)).None? ==> forall dayStart ::
        CountDailyUsers(dayStart) == old(CountDailyUsers(dayStart)) + (if dayStart <= now < dayStart + DaySeconds then 1 else 0)
    {
      if First(users, TelegramIdIs(telegramId)).None? {
        var row := UserRow(nextId, telegramId, username, firstName, lastName, faculty, false, false, now, now, 0);
        forall u | u in users ensures UserBefore(u, row) {
          assert !TelegramIdIs(telegramId)(u);
        }
        var before := users;
        users := users + [row];
        nextId := nextId + 1;
        forall dayStart
          ensures CountDailyUsers(dayStart) ==
            |Filter(before, CreatedIn(dayStart, dayStart + DaySeconds))| + (if dayStart <= now < dayStart + DaySeconds then 1 else 0)
        {
          FilterSnoc(before, row, CreatedIn(dayStart, dayStart + DaySeconds));
        }
      }
    }

    /** SELECT * FROM Users WHERE telegram_id = ? */
    function SelectUser(telegramId: int): (r: Option<UserRow>)
      reads this
      ensures r.Some? <==> exists u :: u in users && u.telegramId == telegramId
      ensures r.Some? ==> r.value in users && r.value.telegramId == telegramId
    {
      First(users, TelegramIdIs(telegramId))
    }

    /** UPDATE Users SET username, first_name, last_name WHERE telegram_id=? */
    method UpdateUserInfo(telegramId: int, username: Option<string>, firstName: Option<string>, lastName: Option<string>)
      requires Valid()
      modifies this
      ensures Valid() && nextId == old(nextId)
      ensures users == MapWhere(old(users), TelegramIdIs(telegramId), SetInfo(username, firstName, lastName))
    {
      KeysKept(users, SetInfo(username, firstName, lastName), telegramId, nextId);
      users := MapWhere(users, TelegramIdIs(telegramId), SetInfo(username, firstName, lastName));
    }

    /** UPDATE Users SET last_active=now WHERE telegram_id=? */
    method UpdateLastActive(telegramId: int, now: int)
      requires Valid()
      modifies this
      ensures Valid() && nextId == old(nextId)
      ensures users == MapWhere(old(users), TelegramIdIs(telegramId), SetLastActive(now))
    {
      KeysKept(users, SetLastActive(now), telegramId, nextId);
      users := MapWhere(users, TelegramIdIs(telegramId), SetLastActive(now));
    }

    /** UPDATE Users SET faculty=? WHERE telegram_id=? */
    method UpdateFaculty(telegramId: int, faculty: Option<string>)
      requires Valid()
      modifies this
      ensures Valid() && nextId == old(nextId)
      ensures users == MapWhere(old(users), TelegramIdIs(telegramId), SetFaculty(faculty))
      ensures old(SelectUser(telegramId)).Some? ==> GetUserFaculty(telegramId) == faculty
      ensures old(SelectUser(telegramId)).None? ==> users == old(users) && GetUserFaculty(telegramId).None?
    {
      UpdateThenSelect(users, telegramId, SetFaculty(faculty));
      KeysKept(users, SetFaculty(faculty), telegramId, nextId);
      users := MapWhere(users, TelegramIdIs(telegramId), SetFaculty(faculty));
    }

    /** user['faculty'] if the row exists, else None. */
    function GetUserFaculty(telegramId: int): (r: Option<string>)
      reads this
      requires Valid()
      ensures (forall u :: u in users ==> u.telegramId != telegramId) ==> r.None?
      ensures forall u :: u in users && u.telegramId == telegramId ==> r == u.faculty
    {
      SelectIsTheRow(users, telegramId);
      match SelectUser(telegramId)
      case None => None
      case Some(u) => u.faculty
    }

    /** bool(user and user['is_admin']) */
    predicate CheckIfAdmin(telegramId: int)
      reads this
      requires Valid()
      ensures CheckIfAdmin(telegramId) <==> exists u :: u in users && u.telegramId == telegramId && u.isAdmin
    {
      SelectIsTheRow(users, telegramId);
      match SelectUser(telegramId)
      case None => false
      case Some(u) => u.isAdmin
    }

    /** UPDATE Users SET is_admin=1 WHERE telegram_id=? */
    method SetAdmin(telegramId: int)
      requires Valid()
      modifies this
      ensures Valid() && nextId == old(nextId)
      ensures users == MapWhere(old(users), TelegramIdIs(telegramId), SetAdminFlag(true))
      ensures CheckIfAdmin(telegramId) <==> old(SelectUser(telegramId)).Some?
      ensures old(SelectUser(telegramId)).None? ==> users == old(users)
    {
      var f := SetAdminFlag(true);
      var before := users;
      UpdateThenSelect(before, telegramId, f);
      KeysKept(before, f, telegramId, nextId);
      users := MapWhere(before, TelegramIdIs(telegramId), f);
      assert old(SelectUser(telegramId)) == First(before, TelegramIdIs(telegramId));
      assert SelectUser(telegramId) == First(users, TelegramIdIs(telegramId));
    }

    /** UPDATE Users SET is_admin=0 WHERE telegram_id=? */
    method RemoveAdmin(telegramId: int)
      requires Valid()
      modifies this
      ensures Valid() && nextId == old(nextId)
      ensures users == MapWhere(old(users), TelegramIdIs(telegramId), SetAdminFlag(false))
      ensures !CheckIfAdmin(telegramId)
      ensures old(SelectUser(telegramId)).None? ==> users == old(users)
    {
      UpdateThenSelect(users, telegramId, SetAdminFlag(false));
      KeysKept(users, SetAdminFlag(false), telegramId, nextId);
      users := MapWhere(users, TelegramIdIs(telegramId), SetAdminFlag(false));
    }

    /** SELECT ... FROM Users WHERE is_admin=1 */
    function GetAllAdmins(): (r: seq<UserRow>)
      reads this
      ensures forall u :: u in r <==> u in users && u.isAdmin
    {
      Filter(users, IsAdminRow())
    }

    /** UPDATE Users SET total_downloads = total_downloads + 1 WHERE telegram_id=? */
    method IncrementDownloads(telegramId: int)
      requires Valid()
      modifies this
      ensures Valid() && nextId == old(nextId)
      ensures users == MapWhere(old(users), TelegramIdIs(telegramId), AddDownload())
      ensures old(SelectUser(telegramId)).Some? ==>
        SelectUser(telegramId) == Some(Incremented(old(SelectUser(telegramId)).value))
      ensures old(SelectUser(telegramId)).None? ==> users == old(users)
    {
      var f := AddDownload();
      var before := users;
      UpdateThenSelect(before, telegramId, f);
      KeysKept(before, f, telegramId, nextId);
      users := MapWhere(before, TelegramIdIs(telegramId), f);
      assert old(SelectUser(telegramId)) == First(before, TelegramIdIs(telegramId));
      assert SelectUser(telegramId) == First(users, TelegramIdIs(telegramId));
    }

    /** UPDATE Users SET is_blocked=1 WHERE telegram_id=? */
    method BlockUser(telegramId: int)
      requires Valid()
      modifies this
      ensures Valid() && nextId == old(nextId)
      ensures users == MapWhere(old(users), TelegramIdIs(telegramId), SetBlocked(true))
      ensures CountUsers() == old(CountUsers()) -
        (if old(SelectUser(telegramId)).Some? && !old(SelectUser(telegramId)).value.isBlocked then 1 else 0)
    {
      BlockCount(users, telegramId, true);
      KeysKept(users, SetBlocked(true), telegramId, nextId);
      users := MapWhere(users, TelegramIdIs(telegramId), SetBlocked(true));
    }

    /** UPDATE Users SET is_blocked=0 WHERE telegram_id=? */
    method UnblockUser(telegramId: int)
      requires Valid()
      modifies this
      ensures Valid() && nextId == old(nextId)
      ensures users == MapWhere(old(users), TelegramIdIs(telegramId), SetBlocked(false))
      ensures CountUsers() == old(CountUsers()) +
        (if old(SelectUser(telegramId)).Some? && old(SelectUser(telegramId)).value.isBlocked then 1 else 0)
    {
      BlockCount(users, telegramId, false);
      KeysKept(users, SetBlocked(false), telegramId, nextId);
      users := MapWhere(users, TelegramIdIs(telegramId), SetBlocked(false));
    }

    // ==================== Statistics ====================

    /** SELECT COUNT(*) FROM Users WHERE is_blocked=0 */
    function CountUsers(): (n: nat)
      reads this
      ensures n <= |users|
    {
      |Filter(users, NotBlocked())|
    }

    /** New users in [dayStart, dayStart + one day), dayStart being the start of the local day. */
    function CountDailyUsers(dayStart: int): (n: nat)
      reads this
      ensures n <= |users|
    {
      |Filter(users, CreatedIn(dayStart, dayStart + DaySeconds))|
    }

    /** New users in the last 7 days. */
    function CountWeeklyUsers(now: int): (n: nat)
      reads this
      ensures n <= CountMonthlyUsers(now)
    {
      CreatedSinceShrinks(users, now - 30 * DaySeconds, now - 7 * DaySeconds);
      |Filter(users, CreatedSince(now - 7 * DaySeconds))|
    }

    /** New users in the last 30 days. */
    function CountMonthlyUsers(now: int): (n: nat)
      reads this
      ensures n <= |users|
    {
      |Filter(users, CreatedSince(now - 30 * DaySeconds))|
    }

    /** Non-blocked users active in [dayStart, dayStart + one day). */
    function CountActiveDailyUsers(dayStart: int): (n: nat)
      reads this
      ensures n <= CountUsers()
    {
      FilterInside(users, ActiveIn(dayStart, dayStart + DaySeconds), NotBlocked());
      |Filter(users, ActiveIn(dayStart, dayStart + DaySeconds))|
    }

    /** Non-blocked users active in the last 7 days. */
    function CountActiveWeeklyUsers(now: int): (n: nat)
      reads this
      ensures n <= CountActiveMonthlyUsers(now)
    {
      FilterInside(users, ActiveSince(now - 7 * DaySeconds), ActiveSince(now - 30 * DaySeconds));
      |Filter(users, ActiveSince(now - 7 * DaySeconds))|
    }

    /** Non-blocked users active in the last 30 days. */
    function CountActiveMonthlyUsers(now: int): (n: nat)
      reads this
      ensures n <= CountUsers()
    {
      FilterInside(users, ActiveSince(now - 30 * DaySeconds), NotBlocked());
      |Filter(users, ActiveSince(now - 30 * DaySeconds))|
    }

    /** Non-blocked users of a faculty. */
    function CountUsersByFaculty(faculty: string): (n: nat)
      reads this
      ensures n <= CountUsers()
    {
      FilterInside(users, InFaculty(faculty), NotBlocked());
      |Filter(users, InFaculty(faculty))|
    }

    /** At most `limit` non-blocked users with downloads, most downloads
        first: as many as the limit allows, drawn from the qualifying rows,
        and no qualifying row left out has more downloads than the last one
        shown. A negative limit (no LIMIT in SQLite) returns them all. */
    function GetTopDownloaders(limit: int): (r: seq<UserRow>)
      reads this
      ensures var sel := Filter(users, Downloader());
        && (0 <= limit ==> |r| == if |sel| < limit then |sel| else limit)
        && (limit < 0 ==> multiset(r) == multiset(sel))
        && multiset(r) <= multiset(sel)
        && (r != [] ==> forall u :: u in sel && u !in r ==> u.totalDownloads <= r[|r| - 1].totalDownloads)
      ensures forall u :: u in r ==> u in users && !u.isBlocked && u.totalDownloads > 0
      ensures forall i, j :: 0 <= i < j < |r| ==> r[i].totalDownloads >= r[j].totalDownloads
    {
      var sel := Filter(users, Downloader());
      DescOrdersTotal();
      SortBySorted(sel, DownloadsDesc);
      SortByMembers(sel, DownloadsDesc);
      var sorted := SortBy(sel, DownloadsDesc);
      TopOfSorted(sorted, limit);
      Limit(sorted, limit)
    }

    /** SELECT * FROM Users ORDER BY created_at DESC */
    function SelectAllUsers(): (r: seq<UserRow>)
      reads this
      ensures multiset(r) == multiset(users)
      ensures forall i, j :: 0 <= i < j < |r| ==> r[i].createdAt >= r[j].createdAt
    {
      DescOrdersTotal();
      SortBySorted(users, CreatedDesc);
      SortBy(users, CreatedDesc)
    }
  }

  /** A wider created_at window counts at least as many users. */
  lemma {:induction false} CreatedSinceShrinks(s: seq<UserRow>, early: int, late: int)
    requires early <= late
    ensures |Filter(s, CreatedSince(late))| <= |Filter(s, CreatedSince(early))|
  {
    if s != [] {
      CreatedSinceShrinks(s[1..], early, late);
    }
  }

  /** A selection inside another selects no more rows. */
  lemma {:induction false} FilterInside(s: seq<UserRow>, p: UserRow -> bool, q: UserRow -> bool)
    requires forall u :: p(u) ==> q(u)
    ensures |Filter(s, p)| <= |Filter(s, q)|
  {
    if s != [] {
      FilterInside(s[1..], p, q);
    }
  }

  /** Selecting a user after an update by its telegram_id finds the updated
      row; an update of an unknown telegram_id changes no row. */
  lemma {:induction false} UpdateThenSelect(s: seq<UserRow>, telegramId: int, f: UserRow -> UserRow)
    requires forall u :: f(u).telegramId == u.telegramId
    ensures First(s, TelegramIdIs(telegramId)).None? ==> MapWhere(s, TelegramIdIs(telegramId), f) == s
    ensures First(s, TelegramIdIs(telegramId)).Some? ==>
      First(MapWhere(s, TelegramIdIs(telegramId), f), TelegramIdIs(telegramId)) ==
        Some(f(First(s, TelegramIdIs(telegramId)).value))
  {
    if s != [] {
      var after := MapWhere(s, TelegramIdIs(telegramId), f);
      assert after[1..] == MapWhere(s[1..], TelegramIdIs(telegramId), f);
      UpdateThenSelect(s[1..], telegramId, f);
      if !TelegramIdIs(telegramId)(s[0]) {
        assert after == [s[0]] + after[1..];
      }
    }
  }

  /** After increment_downloads the user's row is the old one with one more download. */
  lemma IncrementThenSelect(s: seq<UserRow>, telegramId: int)
    ensures First(s, TelegramIdIs(telegramId)).Some? ==>
      First(MapWhere(s, TelegramIdIs(telegramId), AddDownload()), TelegramIdIs(telegramId)) ==
        Some(Incremented(First(s, TelegramIdIs(telegramId)).value))
  {
    UpdateThenSelect(s, telegramId, AddDownload());
  }

  lemma TailSorted(s: seq<UserRow>)
    requires s != [] && SortedBy(s, UserBefore)
    ensures SortedBy(s[1..], UserBefore)
    ensures forall u :: u in s[1..] ==> u.telegramId != s[0].telegramId
  {
    forall u | u in s[1..] ensures u.telegramId != s[0].telegramId {
      var k :| 0 <= k < |s[1..]| && s[1..][k] == u;
      assert s[k + 1] == u;
    }
  }

  /** LIMIT over rows sorted by downloads: a prefix, so it is part of the
      rows, and every row cut off has at most the last kept row's downloads. */
  lemma TopOfSorted(sorted: seq<UserRow>, limit: int)
    requires SortedBy(sorted, DownloadsDesc)
    ensures var r := Limit(sorted, limit);
      && multiset(r) <= multiset(sorted)
      && (forall u :: u in r ==> u in sorted)
      && (r != [] ==> forall u :: u in sorted && u !in r ==> u.totalDownloads <= r[|r| - 1].totalDownloads)
  {
    var r := Limit(sorted, limit);
    assert sorted == r + sorted[|r|..];
    assert multiset(sorted) == multiset(r) + multiset(sorted[|r|..]);
    if r != [] {
      forall u | u in sorted && u !in r ensures u.totalDownloads <= r[|r| - 1].totalDownloads {
        var k :| 0 <= k < |sorted| && sorted[k] == u;
        if |r| <= k {
          assert DownloadsDesc(sorted[|r| - 1], sorted[k]);
        }
      }
    }
  }

  /** With telegram_id UNIQUE, select_user finds the one row carrying the id. */
  lemma SelectIsTheRow(s: seq<UserRow>, telegramId: int)
    requires SortedBy(s, UserBefore)
    ensures forall u :: u in s && u.telegramId == telegramId ==> First(s, TelegramIdIs(telegramId)) == Some(u)
  {
    forall u | u in s && u.telegramId == telegramId
      ensures First(s, TelegramIdIs(telegramId)) == Some(u)
    {
      var k :| 0 <= k < |s| && s[k] == u;
      forall j | 0 <= j < k ensures !TelegramIdIs(telegramId)(s[j]) {
        assert UserBefore(s[j], s[k]);
      }
      FirstIsEarliest(s, TelegramIdIs(telegramId), k);
    }
  }

  /** Blocking a non-blocked user takes it out of count_users; unblocking a
      blocked user puts it back; every other case leaves the count alone. */
  lemma {:induction false} BlockCount(s: seq<UserRow>, telegramId: int, flag: bool)
    requires SortedBy(s, UserBefore)
    ensures |Filter(MapWhere(s, TelegramIdIs(telegramId), SetBlocked(flag)), NotBlocked())| ==
      |Filter(s, NotBlocked())| +
        (if First(s, TelegramIdIs(telegramId)).Some? && First(s, TelegramIdIs(telegramId)).value.isBlocked != flag
         then (if flag then -1 else 1) else 0)
  {
    if s != [] {
      var after := MapWhere(s, TelegramIdIs(telegramId), SetBlocked(flag));
      var tail := s[1..];
      TailSorted(s);
      assert after[1..] == MapWhere(tail, TelegramIdIs(telegramId), SetBlocked(flag));
      if TelegramIdIs(telegramId)(s[0]) {
        MapWhereNoMatch(tail, TelegramIdIs(telegramId), SetBlocked(flag));
      } else {
        BlockCount(tail, telegramId, flag);
      }
    }
  }
}
