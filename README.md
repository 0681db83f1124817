# Oriental course-file bot: a Dafny model of its core

The bot hands out university course files over Telegram. A student picks a
faculty (fakultet), then a topic (mavzu), then a lesson (dars), and gets the
lesson's file. Admins add faculties and lessons and remove lessons through
guided chat conversations. Every update first passes a subscription gate,
which holds back users who have not joined the configured channels.

This project models that core in Dafny and proves properties of the model.
Each module follows one source file.

| module | file | source | form |
|---|---|---|---|
| `ChannelStore` | channel_db.dfy | utils/db_api/channel.py | class `ChannelDB` over the `channels` table, kept in rowid order |
| `CourseStore` | course_db.dfy | utils/db_api/courses.py | class `CourseDatabase` over the Fakultet, Mavzu and Lesson tables |
| `UserStore` | user_db.dfy | utils/db_api/user.py | class `UserDatabase` over the Users table |
| `Seeding` | seeding.dfy | app.py | the default-faculty loop of `on_startup`, as a method with its invariant |
| `FacultyMenu` | faculty_menu.dfy | keyboards/inline/fakultet.py | the constant callback-to-faculty mapping and its menu |
| `UserMenu` | user_menu.dfy | keyboards/default/user_menu.py | the topic and lesson reply keyboards, as functions |
| `Membership` | membership.dfy | handlers/users/start.py | the channel-membership loops, shared with handlers/users/middleware.py |
| `Start` | start.dfy | handlers/users/start.py | registration, `/start` branching, the bounded recheck loop |
| `Gate` | middleware.dfy | handlers/users/middleware.py | the pure decision, plus class `SubscriptionMiddleware` holding the verdict cache |
| `AdminFlows` | admin_flows.dfy | handlers/users/admin_handler.py | class `AdminConversation`: the FSM state and the data dictionary |
| `Catalog` | catalog.dfy | handlers/users/main_handlers.py | grouping by topic, label parsing, lesson choice and delivery |

Four helper modules give the Python and SQL meaning the source relies on:

- `PyStr` (pystr.dfy): `strip`, `lower`, `upper`, slicing, `find`, `split` and `int()`, over code points.
- `Ordering` (ordering.dfy): the text orders behind `ORDER BY` and `sorted()`, and a stable sort with its permutation proof.
- `Relations` (relations.dfy): `WHERE` filters, "first matching row", `UPDATE ... WHERE` and `LIMIT` over a table held as a sequence.
- `Keyboard` (keyboard.dfy): inline buttons and reply keyboards as data.

Tables are sequences of records in rowid order. Each store method states its
new table outright and keeps the table's keys: channel_id, Lesson.code,
Users.telegram_id, Fakultet.name, and the (fakultet_id, name) pair of Mavzu.
External inputs become parameters:

- Telegram's `get_chat_member` is an oracle from (channel, user) to a status or an error.
- The clock is an integer `now`.
- Whether a file send succeeded is a boolean.
- Whether the channel store raised is an `Option`.

Several behaviours follow directly from the code and are modelled as it
has them:

- The gate asks whether the user is an admin (handlers/users/middleware.py:45) before it looks at the chat type (handlers/users/middleware.py:49), so an admin passes even in a group chat.
- A topic's lessons come from `ORDER BY l.title` (utils/db_api/courses.py:143), which is code-point order, and the reply shows the first 20 (handlers/users/main_handlers.py:152). The `page` and `total_pages` parameters of the keyboards (keyboards/default/user_menu.py:23, :51) are never passed by a handler, so every keyboard is a single page.
- The schema declares `ON DELETE CASCADE` (utils/db_api/courses.py:36, :52), but the connection never issues `PRAGMA foreign_keys`, so deleting a faculty leaves its topics and lessons in place.
- Adding a faculty stores any stripped name (handlers/users/admin_handler.py:360), the empty one included. Only the UNIQUE constraint can refuse it.
- In the add-lesson flow, a faculty id that is not found finishes the conversation (handlers/users/admin_handler.py:124-126); it does not re-prompt.
- "Boshqa" names both the lessons without a topic (handlers/users/main_handlers.py:75) and possibly a real topic. `show_mavzular` counts both kinds in one "Boshqa" group. Selecting "Boshqa" lists only the lessons without a topic (handlers/users/main_handlers.py:133, `Catalog.OtherSelection`).

## Model

| member | source | states |
|---|---|---|
| ChannelStore.UpsertMembers | utils/db_api/channel.py:41-47 | after INSERT OR REPLACE the table holds the new row and every old row with another key, and nothing else |
| ChannelStore.TailAbove | utils/db_api/channel.py:33 | in a table kept in rowid order every later row has a larger key than the first |
| ChannelStore.UpsertSorted | utils/db_api/channel.py:41-47 | an upsert keeps the rows in channel-id (rowid) order, so the key stays unique |
| ChannelStore.UpsertLength | utils/db_api/channel.py:41-47 | an upsert adds a row exactly when the id was new and otherwise keeps the count |
| ChannelStore.RemoveMembers | utils/db_api/channel.py:68-72 | DELETE drops exactly the rows with the id and keeps every other row |
| ChannelStore.RemoveSorted | utils/db_api/channel.py:68-72 | DELETE keeps the rowid order |
| ChannelStore.RemoveLength | utils/db_api/channel.py:68-72 | DELETE removes one row exactly when the id was present |
| ChannelStore.RemoveSpec | utils/db_api/channel.py:68-72 | the three facts about DELETE together |
| ChannelStore.ChannelDB.constructor | utils/db_api/channel.py:29-37 | a fresh table is empty and ordered |
| ChannelStore.ChannelDB.AddChannel | utils/db_api/channel.py:41-53 | True and the upsert of (id, title, link) when the title is present, a NULL link stored as the column's DEFAULT '' under the REPLACE conflict rule; False and nothing changed for a NULL title |
| ChannelStore.ChannelDB.GetAllChannels | utils/db_api/channel.py:55-58 | exactly the stored triples, in rowid order, as many as COUNT(*) |
| ChannelStore.ChannelDB.GetChannel | utils/db_api/channel.py:60-66 | the stored row with that id, or None exactly when there is none |
| ChannelStore.ChannelDB.DeleteChannel | utils/db_api/channel.py:68-77 | True, and the table without the rows with that id |
| ChannelStore.ChannelDB.ChannelExists | utils/db_api/channel.py:79-82 | true exactly when get_channel finds a row |
| ChannelStore.AddThenGet | utils/db_api/channel.py:41-66 | after an upsert the id is present and its only row is the latest (title, link) |
| ChannelStore.DeleteThenAbsent | utils/db_api/channel.py:68-82 | after delete_channel(id), channel_exists(id) is false |
| ChannelStore.IdCount | utils/db_api/channel.py:29-37 | a table keyed by channel_id has exactly as many rows as distinct ids |
| ChannelStore.ChannelDB.CountChannels | utils/db_api/channel.py:84-88 | the count is the number of distinct channel ids stored, i.e. added and not yet deleted |
| UserStore.DescOrdersTotal | utils/db_api/user.py:183-203 | ORDER BY total_downloads DESC and ORDER BY created_at DESC are total preorders, so the sorts are defined |
| UserStore.KeysKept | utils/db_api/user.py:64-102 | an UPDATE that changes neither id nor telegram_id keeps the rowid order, the UNIQUE telegram_id and the id bound |
| UserStore.UserDatabase.constructor | utils/db_api/user.py:26-43 | a fresh Users table is empty |
| UserStore.UserDatabase.AddUser | utils/db_api/user.py:47-57 | INSERT OR IGNORE: a known telegram_id leaves the table unchanged; a new one appends a row with created_at = last_active = now, no downloads, not blocked, not admin, and count_daily_users grows by one for the day holding now |
| UserStore.UserDatabase.SelectUser | utils/db_api/user.py:59-62 | the row with that telegram_id, or None exactly when there is none |
| UserStore.UserDatabase.UpdateUserInfo | utils/db_api/user.py:64-70 | the three name columns set on the rows with that telegram_id, every other row kept |
| UserStore.UserDatabase.UpdateLastActive | utils/db_api/user.py:72-75 | last_active = now on the rows with that telegram_id, every other row kept |
| UserStore.UserDatabase.UpdateFaculty | utils/db_api/user.py:78-86 | the faculty is set on the user's row; get_user_faculty then returns it for a known user, and for an unknown user nothing changes and it returns None |
| UserStore.UserDatabase.GetUserFaculty | utils/db_api/user.py:83-86 | None for a telegram_id with no row; for a stored user, exactly that row's faculty (telegram_id is UNIQUE) |
| UserStore.SelectIsTheRow | utils/db_api/user.py:31 | with telegram_id UNIQUE, select_user returns the one row carrying the id |
| UserStore.UserDatabase.CheckIfAdmin | utils/db_api/user.py:89-92 | true if and only if a stored row with that telegram_id has is_admin set |
| UserStore.UserDatabase.SetAdmin | utils/db_api/user.py:94-97 | is_admin = 1 on the user's row; check_if_admin is then true exactly when the user exists; an unknown id changes nothing |
| UserStore.UserDatabase.RemoveAdmin | utils/db_api/user.py:99-102 | is_admin = 0 on the user's row; check_if_admin is then false; an unknown id changes nothing |
| UserStore.UserDatabase.GetAllAdmins | utils/db_api/user.py:104-110 | exactly the stored rows with is_admin set |
| UserStore.UserDatabase.IncrementDownloads | utils/db_api/user.py:194-197 | total_downloads + 1 on the user's row and nowhere else; an unknown id changes nothing |
| UserStore.UserDatabase.BlockUser | utils/db_api/user.py:217-220 | is_blocked = 1 on the user's row; count_users drops by one exactly when the user existed and was not blocked |
| UserStore.UserDatabase.UnblockUser | utils/db_api/user.py:222-225 | is_blocked = 0 on the user's row; count_users grows by one exactly when the user existed and was blocked |
| UserStore.UserDatabase.CountUsers | utils/db_api/user.py:113-117 | the non-blocked rows, never more than the table |
| UserStore.UserDatabase.CountDailyUsers | utils/db_api/user.py:119-125 | the rows with created_at in [start of day, start of next day), never more than the table |
| UserStore.UserDatabase.CountWeeklyUsers | utils/db_api/user.py:127-132 | the rows created in the last 7 days, never more than the 30-day count |
| UserStore.UserDatabase.CountMonthlyUsers | utils/db_api/user.py:134-139 | the rows created in the last 30 days, never more than the table |
| UserStore.UserDatabase.CountActiveDailyUsers | utils/db_api/user.py:141-150 | non-blocked rows active in [start of day, start of next day), never more than count_users |
| UserStore.UserDatabase.CountActiveWeeklyUsers | utils/db_api/user.py:152-157 | non-blocked rows active in the last 7 days, never more than the 30-day count |
| UserStore.UserDatabase.CountActiveMonthlyUsers | utils/db_api/user.py:159-164 | non-blocked rows active in the last 30 days, never more than count_users |
| UserStore.UserDatabase.CountUsersByFaculty | utils/db_api/user.py:166-170 | non-blocked rows of the faculty, never more than count_users |
| UserStore.TopOfSorted | utils/db_api/user.py:183-192 | LIMIT over rows ordered by downloads DESC keeps a sub-multiset, and every row cut off has at most the last kept row's downloads |
| UserStore.UserDatabase.GetTopDownloaders | utils/db_api/user.py:183-192 | min(limit, number of qualifying rows) rows for a non-negative limit, all qualifying rows for a negative one (no LIMIT); a sub-multiset of the non-blocked rows with downloads, in non-increasing download order, and no qualifying row left out has more downloads than the last one shown |
| UserStore.UserDatabase.SelectAllUsers | utils/db_api/user.py:200-203 | a permutation of the table in non-increasing created_at order |
| UserStore.CreatedSinceShrinks | utils/db_api/user.py:127-139 | a later lower bound on created_at selects no more users |
| UserStore.FilterInside | utils/db_api/user.py:141-170 | a WHERE clause that implies another selects no more rows |
| UserStore.UpdateThenSelect | utils/db_api/user.py:59-102 | after an UPDATE by telegram_id, select_user finds the updated row; an unknown telegram_id changes no row |
| UserStore.IncrementThenSelect | utils/db_api/user.py:194-197 | after increment_downloads the user's row is the old row with one more download |
| UserStore.TailSorted | utils/db_api/user.py:31 | rows after the first have other telegram_ids and keep the order |
| UserStore.BlockCount | utils/db_api/user.py:217-225 | blocking removes a non-blocked user from count_users, unblocking adds a blocked one back, and every other case leaves it alone |
| CourseStore.FakultetNameLeTotal | utils/db_api/courses.py:70 | ORDER BY name on faculties is a total preorder |
| CourseStore.MavzuNameLeTotal | utils/db_api/courses.py:92 | ORDER BY name on topics is a total preorder |
| CourseStore.LessonTitleLeTotal | utils/db_api/courses.py:143 | ORDER BY l.title is a total preorder |
| CourseStore.DarsRowLeTotal | utils/db_api/courses.py:132 | ORDER BY m.name, l.title (NULL topic names first) is a total preorder |
| CourseStore.TitleSorted | utils/db_api/courses.py:143 | a permutation (same multiset) of the selected lessons, in title order |
| CourseStore.TopicRowsPermute | utils/db_api/courses.py:136-145 | projecting a permutation of lessons to (code, title, count_download) rows gives a permutation of the rows |
| CourseStore.TopicListingSpec | utils/db_api/courses.py:136-145 | get_dars_by_mavzu yields exactly the rows of the faculty's lessons whose topic row has the name, each once (multiset equality), each with a non-NULL topic, in title order |
| CourseStore.AppendKeepsOrder | utils/db_api/courses.py:116-122 | an INSERT with the next AUTOINCREMENT id and an unused code keeps the rowid order and the UNIQUE code |
| CourseStore.BumpKeepsIds | utils/db_api/courses.py:158-161 | the download UPDATE keeps ids and codes, so the table stays ordered and keyed |
| CourseStore.Bump | utils/db_api/courses.py:158-161 | the lessons with the code get count_download + 1; every other lesson is unchanged |
| CourseStore.BumpTotal | utils/db_api/courses.py:158-180 | the download total grows by the number of lessons with the code |
| CourseStore.WithMavzuIdempotent | utils/db_api/courses.py:85-88 | INSERT OR IGNORE of a (faculty, name) pair leaves it present, and a second insert of the pair changes nothing |
| CourseStore.CourseDatabase.constructor | utils/db_api/courses.py:20-59 | fresh tables are empty |
| CourseStore.CourseDatabase.AddFakultet | utils/db_api/courses.py:62-65 | an existing name violates UNIQUE and inserts nothing; a new one is appended with the next id; the other tables are unchanged |
| CourseStore.CourseDatabase.GetAllFakultetlar | utils/db_api/courses.py:68-71 | a permutation of the faculty rows in name order |
| CourseStore.CourseDatabase.GetFakultetByName | utils/db_api/courses.py:73-76 | the faculty row with the name, or None exactly when there is none |
| CourseStore.CourseDatabase.DeleteFakultet | utils/db_api/courses.py:78-81 | the faculty rows without that id; topics and lessons are not cascaded |
| CourseStore.CourseDatabase.AddMavzu | utils/db_api/courses.py:85-88 | INSERT OR IGNORE: an existing (faculty, name) pair leaves the table unchanged, a new one is appended |
| CourseStore.CourseDatabase.GetMavzularByFakultet | utils/db_api/courses.py:90-93 | exactly the faculty's topics, in name order |
| CourseStore.CourseDatabase.GetOrCreateMavzu | utils/db_api/courses.py:95-106 | always an id whose row is the (faculty, name) topic; an existing topic's id is returned with no write, otherwise one row is created |
| CourseStore.CourseDatabase.AddDars | utils/db_api/courses.py:109-122 | a topic is found or created only for a truthy name (else mavzu_id is NULL); a duplicate code fails with the lessons unchanged; otherwise one lesson is appended with the given columns and count_download 0 |
| CourseStore.CourseDatabase.GetDarsByFakultet | utils/db_api/courses.py:125-134 | a permutation of the faculty's lessons joined with their topic names, ordered by topic name then title, as many as count_dars_by_fakultet |
| CourseStore.CourseDatabase.GetDarsByMavzu | utils/db_api/courses.py:136-145 | as a multiset, exactly the rows of the faculty's lessons whose topic row has the name (never a NULL topic), in title order |
| CourseStore.CourseDatabase.SearchDarsByCode | utils/db_api/courses.py:147-150 | the lesson with the code, or None exactly when there is none |
| CourseStore.CourseDatabase.DeleteDars | utils/db_api/courses.py:152-155 | exactly the lessons with the code are removed; all others and the other tables are unchanged |
| CourseStore.CourseDatabase.UpdateDownloadCount | utils/db_api/courses.py:158-161 | the lesson with the code gets one more download; nothing else changes |
| CourseStore.CourseDatabase.CountDarsByFakultet | utils/db_api/courses.py:164-174 | at most count_all_darslar, and zero exactly when the faculty has no lesson |
| CourseStore.CodeIsKey | utils/db_api/courses.py:45 | at most one lesson has a given code |
| CourseStore.BumpAddsOne | utils/db_api/courses.py:158-180 | get_total_downloads grows by exactly one after bumping a stored code and stays the same for an unknown code |
| CourseStore.DeleteRemovesOne | utils/db_api/courses.py:152-168 | count_all_darslar drops by exactly one after deleting a stored code and stays the same for an unknown code |
| CourseStore.AddedLessonFound | utils/db_api/courses.py:116-150 | a lesson added with a new code is what search_dars_by_code then finds |
| CourseStore.TotalCoversEach | utils/db_api/courses.py:176-180 | each lesson's count_download is part of the sum |
| CourseStore.CourseDatabase.GetTotalDownloads | utils/db_api/courses.py:176-180 | 0 for an empty table, and never less than any single lesson's count |
| Seeding.DefaultsDistinct | app.py:27-42 | the default list has 14 names, none listed twice |
| Seeding.PresentAsBefore | app.py:45-50 | rows appended for the names already handled leave every other name's presence as it was at the start |
| Seeding.SeedOne | app.py:47-50 | one pass of the loop body: a missing name is appended with the next id and counted; a present name changes nothing; afterwards the name has a row |
| Seeding.SeedStep | app.py:44-50 | one more name keeps the loop invariant: the earlier rows untouched, the added rows named from the list, the count equal to the missing names so far |
| Seeding.SeededAll | app.py:44-50 | after the last name the invariant gives the whole promise of the pass |
| Seeding.SeedNames | app.py:44-50 | every listed name has a row; the old rows are kept unchanged and in place; added_count equals the number of names missing beforehand; every new row carries a listed name; topics and lessons are untouched |
| Seeding.SeedDefaults | app.py:27-50 | the same for the 14 default names |
| Seeding.SeedingIdempotent | app.py:47-50 | once every default has a row, no default is missing, so a second pass adds nothing |
| FacultyMenu.Lookup | keyboards/inline/fakultet.py:10-25 | FACULTY_MAPPING.get finds a value exactly for a key of the mapping, and that value is the key's entry |
| FacultyMenu.MappingKeys | keyboards/inline/fakultet.py:10-25 | 14 distinct keys, each starting with faculty_ |
| FacultyMenu.MappingInjective | keyboards/inline/fakultet.py:10-25 | no two keys map to the same faculty |
| FacultyMenu.MenuCallbacksInOrder | keyboards/inline/fakultet.py:10-44 | the menu has one button per mapping entry, in the same order, each with that entry's key as callback data |
| FacultyMenu.MenuCallbacksAreKeys | keyboards/inline/fakultet.py:29-44 | every menu button's callback data is a key of the mapping and selects the faculty at its position |
| FacultyMenu.LookupFindsDistinctKey | keyboards/inline/fakultet.py:10-25 | with distinct keys, looking up the i-th key gives the i-th value |
| FacultyMenu.BackIsNotAFaculty | keyboards/inline/fakultet.py:10-25 | "faculty_back" is not a key of the mapping |
| FacultyMenu.MappingMatchesDefaults | keyboards/inline/fakultet.py:10-25 | the mapping's values are exactly the default faculty list of app.py, in the same order |
| Membership.CheckAllSubscriptions | handlers/users/start.py:19-38 | True for an empty list; otherwise the answer is whether every channel's status is member, administrator or creator (a failed lookup counts as not subscribed); on False the lookups stopped at the first failing channel, and all before it passed |
| Membership.UnsubscribedStep | handlers/users/start.py:46-48 | one more channel appends its (link, title) exactly when it fails |
| Membership.CollectUnsubscribed | handlers/users/start.py:41-50 | the result is the (link, title) pairs of the failing channels, in store order |
| Membership.UnsubscribedSpec | handlers/users/start.py:41-50 | a pair is in the list iff some failing channel has that link and title; the list is no longer than the channel list and is empty iff every channel passes |
| Membership.DisplayTitle | handlers/users/middleware.py:263 | a title of at most 25 characters is kept; a longer one is cut to its first 25 characters followed by "..." |
| Membership.ChannelButton | handlers/users/start.py:58-62 | the channel button opens the channel's invite link |
| Start.StartChannelButtons | handlers/users/start.py:57-62 | one URL button per t.me link, so as many buttons as t.me links, each opening a t.me link |
| Start.StartKeyboard | handlers/users/start.py:53-65 | the channel buttons, then the check_sub button, present even for an empty list |
| Start.RegisterUser | handlers/users/start.py:69-101 | the new table is `Registered(old table)`: an unknown user is appended with the next id, no faculty and both timestamps now; a known user keeps its row count, gets new names and last_active, and no other row changes; afterwards the user is on record |
| Start.RefreshSpec | handlers/users/start.py:95-96 | update_user_info then update_last_active touch only the user's rows, and the user's row comes back with the new names and time |
| Start.AutoCheckSubscription | handlers/users/start.py:105-131 | between 1 and 60 attempts; every attempt before the last found a channel missing; the welcome is shown iff the last attempt succeeded; otherwise 60 attempts were used or the last one raised |
| Start.StartHandler | handlers/users/start.py:135-206 | a group chat only gets a reply; an admin gets the panel and is not registered; anyone else leaves the table as register_user makes it (`Start.Registered`: one row more iff new) and gets the faculty menu with no channels, the confirmation when every channel passes, else the keyboard of the failing channels |
| Gate.ExtractUserInfo | handlers/users/middleware.py:87-107 | the user id, chat id and message of a message or of a callback with a message; None exactly for other updates, a callback without a message, or a 0 id |
| Gate.FirstWord | handlers/users/middleware.py:131 | a prefix of the text with no whitespace, ended by whitespace or the end of the text |
| Gate.CommandOf | handlers/users/middleware.py:130-131 | None exactly when the text is only whitespace (split() is empty and [0] raises); otherwise a non-empty run with no whitespace |
| Gate.Decide | handlers/users/middleware.py:34-64 | no user info passes; an admin passes; a non-admin outside a private chat is cancelled, and only that is cancelled before the subscription check; a user in a conversation state passes; for a non-admin in a private chat with no state, the update passes iff its action is allowed and otherwise goes to the subscription check, which nothing else reaches |
| Gate.AllowedCommandPasses | handlers/users/middleware.py:125-134 | a private message whose first word is /start, /help, /admin or /cancel (in any letter case) passes |
| Gate.BlankTextIsChecked | handlers/users/middleware.py:127-181 | whitespace-only text raises inside the allow check, is treated as not allowed and goes to the subscription check |
| Gate.KeyboardCallbacksAllowed | handlers/users/middleware.py:158-164 | the gate keyboard's check_subscription and no_action buttons pass; start.py's check_sub button is not allow-listed and meets the subscription check |
| Gate.Remember | handlers/users/middleware.py:206-217 | a dict assignment adds the key once, keeping the keys duplicate-free |
| Gate.DistinctKeysCount | handlers/users/middleware.py:391 | a duplicate-free key list is as long as the key set, so len() of the cache is the list's length |
| Gate.SubscriptionMiddleware.constructor | handlers/users/middleware.py:19 | the cache starts empty |
| Gate.SubscriptionMiddleware.CheckSubscription | handlers/users/middleware.py:183-222 | a verdict younger than 30 seconds is returned unchanged; a raising store or an empty channel list answers True and caches nothing; otherwise the verdict is whether every channel passes, cached with the current time |
| Gate.SubscriptionMiddleware.GetCacheStats | handlers/users/middleware.py:380-394 | total is the number of cached users, active the number of verdicts younger than 30 seconds (never more than total), duration 30 |
| Gate.SubscriptionMiddleware.ClearCache | handlers/users/middleware.py:376-378 | the cache is empty afterwards |
| Gate.SubscriptionMiddleware.OnPreProcessUpdate | handlers/users/middleware.py:34-70 | updates that do not need the check pass or are cancelled as Decide says, cache untouched; otherwise the update passes iff the (cached or fresh) verdict is subscribed, the cache and its key order are left alone for a fresh entry, a raising store or no channels and otherwise take the new verdict stamped now, and a rejected user is shown the gate keyboard of the failing channels, or nothing when none is found |
| Gate.GetUnsubscribedChannels | handlers/users/middleware.py:233-251 | the failing channels' (link, title) pairs in store order; empty when the store raised |
| Gate.InvalidLinkButton | handlers/users/middleware.py:268-272 | the button for a non-t.me link carries the no_action callback |
| Gate.BuildSubscriptionKeyboard | handlers/users/middleware.py:253-280 | no buttons for an empty list; otherwise the numbered entry buttons then the check_subscription button |
| Gate.KeyboardsAgree | handlers/users/start.py:57-62 | the start.py keyboard's channel buttons are exactly the gate keyboard's URL buttons, numbers included |
| UserMenu.TopicLabel | keyboards/default/user_menu.py:29 | a topic label starts with the book emoji and a space |
| UserMenu.LessonLabel | keyboards/default/user_menu.py:59 | a lesson label starts with the target emoji |
| UserMenu.NavButtons | keyboards/default/user_menu.py:32-36 | "previous" is present iff page > 1, "next" iff page < total_pages; none iff neither holds |
| UserMenu.MavzuKeyboard | keyboards/default/user_menu.py:23-47 | the topic rows in input order, a navigation row only when it has buttons, then the faculties and help row |
| UserMenu.DarsKeyboard | keyboards/default/user_menu.py:51-77 | the first 15 lessons at most, one row each, then one row per navigation button, then the back-to-topics and main-menu rows |
| UserMenu.MavzuNavigation | keyboards/default/user_menu.py:32-45 | the topic keyboard has "previous" iff page > 1 and "next" iff page < total_pages; one page of one has no navigation row |
| UserMenu.HasButtonConcat | keyboards/default/user_menu.py:38-39 | a button is on two stacked keyboards iff it is on one of them |
| UserMenu.OnePerRowButtons | keyboards/default/user_menu.py:68-69 | a button is on the one-per-row keyboard iff it is in the list |
| UserMenu.DarsNavigation | keyboards/default/user_menu.py:62-75 | the lesson keyboard has "previous" iff page > 1 and "next" iff page < total_pages |
| Ordering.StrLeTotalPreorder | utils/db_api/courses.py:68-71 | ORDER BY name on text is total and transitive, so the sorted listings are well defined |
| Ordering.OptStrLeTotalOrder | utils/db_api/courses.py:125-134 | ORDER BY m.name with NULL first is a total order on nullable topic names |
| Ordering.SortBySorted | handlers/users/main_handlers.py:84 | sorted() returns an ordered permutation of its input |
| Ordering.SortByDistinct | handlers/users/main_handlers.py:84 | sorting the distinct topic names of a dict gives distinct names |
| PyStr.Strip | handlers/users/admin_handler.py:145 | strip() leaves no whitespace at either end and never lengthens the text |
| PyStr.StripEmptyIff | handlers/users/middleware.py:130 | strip() gives the empty string exactly for whitespace-only text |
| PyStr.IndexOf | handlers/users/main_handlers.py:112 | the index found is an occurrence and no earlier index is; None means no occurrence at all |
| PyStr.FirstField | handlers/users/main_handlers.py:112 | split(sep)[0] is the prefix of the text that ends where the separator first occurs (the whole text when it does not occur), and for a non-empty separator it holds no occurrence of it |
| PyStr.Take | handlers/users/main_handlers.py:152-153 | s[:n] has length min(len(s), n) and is a prefix of s |
| PyStr.IntRoundTrip | handlers/users/admin_handler.py:106 | int(str(i)) == i for every integer, negatives included |
| PyStr.ParseIntRoundTrip | handlers/users/admin_handler.py:106 | int(str(n)) == n for every natural number |
| AdminFlows.FakultetCallback | handlers/users/admin_handler.py:90 | a faculty button's callback data starts with addfak_ |
| AdminFlows.FakultetButton | handlers/users/admin_handler.py:88-91 | the button carries the callback addfak_ followed by the faculty's id |
| AdminFlows.FakultetCallbackRoundTrip | handlers/users/admin_handler.py:106 | int(data.split("_")[1]) on a faculty button's callback gives back that faculty's id, negative ids included |
| AdminFlows.FakultetNameById | handlers/users/admin_handler.py:110-122 | a name is found iff some faculty has the id, and it is that faculty's name |
| AdminFlows.FindFakultetName | handlers/users/admin_handler.py:110-122 | the loop returns the name of the first faculty with the id, or None when there is none |
| AdminFlows.SortedIdsDiffer | utils/db_api/courses.py:23-27 | in the Fakultet table, kept in id order, different rows have different ids and no row repeats |
| AdminFlows.ReorderedIdsDistinct | utils/db_api/courses.py:68-71 | a reordering of that table still has no two rows with one id |
| AdminFlows.ListedIdsDistinct | handlers/users/admin_handler.py:68-91 | the faculty list start_add_course shows has no two rows with one id |
| AdminFlows.ButtonFindsFakultet | handlers/users/admin_handler.py:77-122 | pressing the k-th faculty button reads back the k-th faculty's id, and select_fakultet finds that faculty's name |
| AdminFlows.StoredFileName | handlers/users/admin_handler.py:211-234 | a document keeps its own file name; an audio keeps its title when it has a non-empty one, else "audio"; video, voice and video note get a fixed non-empty name |
| AdminFlows.LessonCells | utils/db_api/courses.py:41-54 | a SELECT * row of Lesson has ten columns, in the order of the CREATE TABLE |
| AdminFlows.ConfirmShowsCodeAndFileName | handlers/users/admin_handler.py:299-305 | as written, the confirmation's "title" is the lesson's code column and its "downloads" is the file-name column, never the download count |
| AdminFlows.ConfirmDetails | handlers/users/admin_handler.py:293-317 | the title and download count shown are the row's title column and count_download column |
| AdminFlows.AddCourseRank | handlers/users/admin_handler.py:19-24 | the five add-lesson states are ranked 1 to 5, every other state 0 |
| AdminFlows.AddCourseInOrder | handlers/users/admin_handler.py:100-204 | a run of the conversation that reaches the k-th add-lesson step has passed through every earlier step |
| AdminFlows.UpperCharSpec | handlers/users/admin_handler.py:164 | upper() leaves no lower-case ASCII letter and keeps whitespace as whitespace |
| AdminFlows.UpperStripNormal | handlers/users/admin_handler.py:164 | stripping then upper-casing gives a code with no surrounding whitespace and no lower-case ASCII letter |
| AdminFlows.NormalizeCode | handlers/users/admin_handler.py:292 | the normalised code has no surrounding whitespace and no lower-case ASCII letter |
| AdminFlows.ExitLabels | handlers/users/admin_handler.py:43 | the three exit labels, in any letter case, leave the state |
| AdminFlows.AdminConversation.constructor | handlers/users/admin_handler.py:19-33 | a chat starts in no state with an empty data dictionary |
| AdminFlows.AdminConversation.Exit | handlers/users/admin_handler.py:43-61 | from any state, back to no state with empty data; the reply says whether the user is an admin |
| AdminFlows.AdminConversation.StartAddCourse | handlers/users/admin_handler.py:65-100 | no faculty: nothing starts; otherwise one button per faculty in name order, and the faculty step |
| AdminFlows.AdminConversation.SelectFakultet | handlers/users/admin_handler.py:103-139 | an unparsable id changes nothing; a missing faculty or empty name finishes the flow; otherwise the id and name are stored and the topic step follows |
| AdminFlows.AdminConversation.AddMavzu | handlers/users/admin_handler.py:142-158 | a stripped topic shorter than 2 is refused with nothing changed; otherwise it is stored and the code step follows |
| AdminFlows.AdminConversation.AddCode | handlers/users/admin_handler.py:161-180 | the stripped, upper-cased code is refused when shorter than 3 or already used, with nothing changed; otherwise it is stored and the title step follows |
| AdminFlows.AdminConversation.AddTitle | handlers/users/admin_handler.py:183-204 | a stripped title shorter than 2 is refused with nothing changed; otherwise it is stored, the topic, code and title are echoed and the file step follows |
| AdminFlows.AdminConversation.AddFile | handlers/users/admin_handler.py:207-274 | the flow always finishes; the topic exists afterwards; the write fails iff the code is already used, leaving the lessons as they were; otherwise exactly one lesson is appended, with the stored faculty, code and title, the attachment's file id, name and size, and no downloads |
| AdminFlows.AdminConversation.StartDeleteCourse | handlers/users/admin_handler.py:278-286 | the delete flow starts at the code step |
| AdminFlows.AdminConversation.ConfirmDelete | handlers/users/admin_handler.py:289-322 | the code is normalised; an unknown code is refused with the state kept; a known one moves to the confirmation step, storing and showing the corrected title and download count (`AdminFlows.ConfirmDetails`) rather than the code and file name the source reads (see Findings) |
| AdminFlows.AdminConversation.DeleteConfirmed | handlers/users/admin_handler.py:325-345 | the stored code's lesson is gone afterwards, the other lessons and tables are kept, and the flow finishes |
| AdminFlows.AdminConversation.StartAddFakultet | handlers/users/admin_handler.py:349-353 | the add-faculty flow starts at the name step |
| AdminFlows.AdminConversation.AddFakultet | handlers/users/admin_handler.py:356-374 | a new stripped name is appended with the next id; an existing one fails the UNIQUE constraint and changes nothing; the flow finishes either way |
| AdminFlows.AdminConversation.HandleMenu | handlers/users/admin_handler.py:65-353 | with no state, an admin's add-lesson text starts that flow (or refuses with no faculty), the delete and add-faculty texts move to their first steps, and any other input or a non-admin is ignored with nothing changed |
| AdminFlows.AdminConversation.HandleInState | handlers/users/admin_handler.py:103-374 | in each state, an input its handler takes gives that handler's outcome (the same outcome the step method promises); an input it does not take changes nothing, tables included |
| AdminFlows.AdminConversation.Handle | handlers/users/admin_handler.py:43-374 | an exit text always cancels; otherwise, with no state, each menu text's outcome, and in each state, that state's handler's outcome for the input kinds it takes and nothing changed for the others; every update moves the state by one allowed step, and lessons, topics and faculties change only in their own steps |
| Catalog.FakultetIdByName | handlers/users/main_handlers.py:37-43 | an id is found iff some faculty has the name, and it is that faculty's id |
| Catalog.FindFakultetId | handlers/users/main_handlers.py:37-43 | the loop gives the id of the first faculty with the name, or None |
| Catalog.GroupKeys | handlers/users/main_handlers.py:73-79 | the grouping dictionary has no more keys than there are lessons |
| Catalog.GroupKeysSpec | handlers/users/main_handlers.py:73-79 | the dictionary's keys are distinct and are exactly the lessons' topics, "Boshqa" standing for a missing or empty topic |
| Catalog.GroupStep | handlers/users/main_handlers.py:75-79 | one more lesson adds its topic as a new key when unseen and appends the lesson to that topic's group, other groups unchanged |
| Catalog.GroupByTopic | handlers/users/main_handlers.py:73-79 | the loop builds the dictionary: keys in first-seen order, each group the topic's lessons in listing order |
| Catalog.SortedKeysSpec | handlers/users/main_handlers.py:84 | sorted(keys) is ordered, distinct and holds exactly the lessons' topics |
| Catalog.CountSnoc | handlers/users/main_handlers.py:75-79 | one more lesson adds one to the count of its topic |
| Catalog.SumOfCounts | handlers/users/main_handlers.py:73-79 | when every lesson's topic is listed once, the group sizes add up to the number of lessons |
| Catalog.TopicCountsOrdered | handlers/users/main_handlers.py:84-86 | the topic buttons come in strictly increasing order of topic name |
| Catalog.TopicCountsCover | handlers/users/main_handlers.py:84-86 | every lesson's topic has a button, and each button's count is the number of that topic's lessons |
| Catalog.TopicCountsSum | handlers/users/main_handlers.py:84-96 | the counts on the topic buttons add up to the total the message shows |
| Catalog.SinglePageKeyboard | handlers/users/main_handlers.py:84-91 | the topic rows followed by the faculties and help row form the single-page topic keyboard |
| Catalog.GroupedCounts | handlers/users/main_handlers.py:84-86 | reading the built dictionary in sorted key order gives each topic with the size of its group |
| Catalog.TopicButtons | handlers/users/main_handlers.py:84-86 | one button row per sorted topic, labelled with the topic and its group size |
| Catalog.TopicKeyboard | handlers/users/main_handlers.py:73-91 | the keyboard built by the loops is the topic keyboard of the sorted topics and their counts, with no navigation row |
| Catalog.MavzularReply | handlers/users/main_handlers.py:56-103 | no lessons gives the "no lessons" reply; otherwise one button per topic, the faculties and help row last, and the total number of lessons |
| Catalog.ShowMavzular | handlers/users/main_handlers.py:56-103 | the reply is the one for the faculty's lessons |
| Catalog.ParseLabel | handlers/users/main_handlers.py:111-112 | the parsed name is the prefix of the stripped label text after its first two characters that ends at the first " (", and holds no " (" itself |
| Catalog.IndexAfterName | handlers/users/main_handlers.py:112 | in a name without " (" followed by " (", the first " (" is right after the name |
| Catalog.LabelRoundTrip | handlers/users/main_handlers.py:111-112 | parsing "<emoji> <name> (<count>)" gives the name back when the name has no " (" and does not start with whitespace |
| Catalog.TopicLabelRoundTrip | handlers/users/main_handlers.py:111-112 | a pressed topic label parses back to its topic |
| Catalog.OtherRows | handlers/users/main_handlers.py:133-135 | the "Boshqa" list holds exactly the lessons with a missing or empty topic |
| Catalog.OtherSelection | handlers/users/main_handlers.py:133-135 | selecting "Boshqa" lists exactly the faculty's lessons whose topic is missing or empty |
| Catalog.DarslarKeyboard | handlers/users/main_handlers.py:147-169 | at most the first 20 lessons, titles cut to 35 characters, one row each, then the back-to-topics and main-menu rows |
| Catalog.LessonsReply | handlers/users/main_handlers.py:137-143 | no lessons gives "not found"; otherwise the lesson keyboard and the full number of lessons |
| Catalog.SelectMavzu | handlers/users/main_handlers.py:107-143 | no saved faculty asks to choose one; a faculty not found by name is an error; otherwise the lessons of the parsed topic ("Boshqa": those without a topic) are shown |
| Catalog.FindByPrefix | handlers/users/main_handlers.py:198-201 | the loop gives the first listed lesson whose title starts with the prefix, or None |
| Catalog.RowHasLesson | utils/db_api/courses.py:125-150 | a lesson listed for a faculty is found again by search_dars_by_code on its code |
| Catalog.PickedIsStored | handlers/users/main_handlers.py:198-205 | a picked row always has its stored lesson, so the "not found" answer after the search never follows a successful match |
| Catalog.BumpOne | utils/db_api/courses.py:158-180 | bumping a stored code adds exactly one download in total |
| Catalog.FindLesson | handlers/users/main_handlers.py:173-205 | the lesson found is the stored lesson of the first of the faculty's lessons whose title starts with the parsed title's first 20 characters |
| Catalog.CountLessonDownload | handlers/users/main_handlers.py:221 | the lesson's count_download goes up by one, and so does the total; other tables are unchanged |
| Catalog.Deliver | handlers/users/main_handlers.py:208-223 | after a send: the lesson's downloads up by one, the user's downloads up by one, last_active set; the caption shows the new count |
| Catalog.SelectDars | handlers/users/main_handlers.py:173-229 | no faculty, or no matching lesson, or a failed send leaves every counter unchanged; a successful send bumps exactly the lesson's and the user's counters |
| Catalog.PressedLessonMatches | handlers/users/main_handlers.py:152-201 | a pressed lesson label parses back to the cut title, and the lesson's own title starts with its first 20 characters, so the pressed lesson is always a candidate |
| Catalog.SelectFaculty | handlers/users/main_handlers.py:16-52 | "faculty_back" shows the menu and an unknown callback an error, writing nothing; a known faculty is saved on the user first, then its topics are shown, or an error when no Fakultet row has that name |
| Catalog.BackToMavzular | handlers/users/main_handlers.py:242-260 | the topics of the user's saved faculty again; an error when none is saved or it is not found |

## Left out

- Telegram transport: sending, editing and answering messages, stickers to admins, HTML texts, `MessageNotModified`/`BotBlocked` handling. Replies are modelled as data values; keyboards as sequences of buttons.
- `bot.get_chat_member` is an oracle parameter. It answers the same within one call; a status that changes between two lookups of one check is not modelled.
- Wall clock, `time.time()`, `datetime` and pytz. Time is an integer parameter, and the stored timestamps are integers, so `created_at[:10]` in the delivery caption is not modelled.
- `asyncio.sleep` and `create_task`. Of `auto_check_subscription` only the attempt bound and the stopping rule are kept (`Start.AutoCheckSubscription`); each attempt's outcome is a parameter.
- SQLite plumbing: connections, commit, rollback, `close()`. Store faults other than constraint violations are not modelled, so the store methods never raise. Constraint violations (UNIQUE, NOT NULL) are modelled.
- Start.RegisterUser: always answers True, since the store faults that make `register_user` return False are not modelled.
- ChannelStore.ChannelDB.DeleteChannel: always answers True, for the same reason. `ChannelStore.ChannelDB.AddChannel` answers False only for a NULL title.
- Seeding.SeedNames: the per-name exception swallowed by the seeding loop cannot arise in the model, since only missing names are added.
- Gate.SubscriptionMiddleware.OnPreProcessUpdate: "fail open" is modelled only for the channel store raising inside the subscription check (the verdict is True). Other internal exceptions in the gate are not modelled.
- `on_post_process_update` (refreshing last_active after each update), `_handle_group_chat`, `_edit_or_send_message` and `_send_subscription_message` are message sending and are not part of this model. So is the middleware's registration with the dispatcher.
- `check_subscription_callback` in start.py (the check_sub button's handler). It repeats `start_handler`'s checks on a callback and only edits messages.
- PyStr.Lower: `str.lower()` is modelled on ASCII letters only. The comparisons it serves are between ASCII command words and fixed labels.
- PyStr.Upper: `str.upper()` is modelled on ASCII letters only, so lesson codes with non-ASCII letters are not upper-cased as Python would.
- The order in which aiogram tries handlers across files. `AdminFlows.AdminConversation.Handle` covers the handlers of admin_handler.py only.
- The admin allow-listing in the gate for admin-panel texts and admin callback prefixes. It is modelled in `Gate.IsAllowedAction`, but an admin has already passed the earlier admin check, so those branches never decide anything.
- `size_mb` in `add_file` (floating-point display).
- `show_simple_stats` and `list_all_courses` in admin_handler.py. The first only formats three counts the model has. The second uses a `connection` attribute that the course store does not have.
- keyboards/default/confirm_menu.py and keyboards/default/admin_menu.py (constant menus) are not part of this model.
- `back_to_faculties`, `main_menu` and `support` in main_handlers.py. They send constant replies and change nothing.
- From courses.py: `get_top_downloaded_darslar`, `get_recent_darslar`, `get_fakultet_stats` and `search_dars_by_title`. No handler in the core uses them.
- From user.py: `get_faculty_distribution` and `search_users`. No handler in the core uses them.
- CourseStore.CourseDatabase.CountAllDarslar: `COUNT(*)` is the table's length. It has no contract of its own; `CountDarsByFakultet` and `DeleteRemovesOne` state what it means.
- AdminFlows.AdminConversation.ConfirmDelete: stores and shows the lesson's title and count_download columns (the corrected reading, `AdminFlows.ConfirmDetails`). handlers/users/admin_handler.py:300-305 stores and shows columns 3 and 6, the code and the file name. `AdminFlows.ConfirmShowsCodeAndFileName` states the as-written reading; see Findings.
- Logging, configuration loading and the loader module.

## Findings

| source | as written | input that shows it | evidently intended | confidence | as-written member | corrected member |
|---|---|---|---|---|---|---|
| handlers/users/admin_handler.py:299-305 | the confirmation reads the found lesson row's columns 3 and 6 as its title and download count; in the Lesson table (utils/db_api/courses.py:41-54) those columns are `code` and `file_name` | a lesson with code "ABC", title "Intro", file name "a.pdf" and 5 downloads: the confirmation shows "ABC" as the title and "a.pdf" as the downloads | show the row's `title` (column 4) and `count_download` (column 9) | not executed | AdminFlows.ConfirmShowsCodeAndFileName | AdminFlows.ConfirmDetails |
