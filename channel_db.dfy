/** The `channels` table (utils/db_api/channel.py). `channel_id` is an
    INTEGER PRIMARY KEY, i.e. SQLite's rowid, so a plain SELECT scans the
    rows in increasing channel id; the table is kept as a sequence in that
    order, which also makes the key unique. */
module ChannelStore {
  import opened PyStr

  datatype Channel = Channel(channelId: int, title: string, inviteLink: string)

  predicate IdsIncreasing(rows: seq<Channel>) {
    forall i, j :: 0 <= i < j < |rows| ==> rows[i].channelId < rows[j].channelId
  }

  predicate HasId(rows: seq<Channel>, channelId: int) {
    exists c :: c in rows && c.channelId == channelId
  }

  /** The table after INSERT OR REPLACE of `row`: the row holding the same
      key, if any, is replaced; otherwise `row` goes into its rowid position. */
  function Upsert(rows: seq<Channel>, row: Channel): seq<Channel>
  {
    if rows == [] then [row]
    else if rows[0].channelId < row.channelId then [rows[0]] + Upsert(rows[1..], row)
    else if rows[0].channelId == row.channelId then [row] + rows[1..]
    else [row] + rows
  }

  /** The table after DELETE FROM channels WHERE channel_id = channelId. */
  function Remove(rows: seq<Channel>, channelId: int): seq<Channel>
  {
    if rows == [] then []
    else if rows[0].channelId == channelId then Remove(rows[1..], channelId)
    else [rows[0]] + Remove(rows[1..], channelId)
  }

  /** The rows after an upsert: the new row, and every old row with another key. */
  lemma {:induction false} UpsertMembers(rows: seq<Channel>, row: Channel)
    requires IdsIncreasing(rows)
    ensures forall c :: c in Upsert(rows, row) <==> (c in rows && c.channelId != row.channelId) || c == row
  {
    if rows != [] {
      TailAbove(rows);
      assert rows == [rows[0]] + rows[1..];
      if rows[0].channelId < row.channelId {
        UpsertMembers(rows[1..], row);
      }
    }
  }

  lemma {:induction false} TailAbove(rows: seq<Channel>)
    requires rows != [] && IdsIncreasing(rows)
    ensures IdsIncreasing(rows[1..])
    ensures forall c :: c in rows[1..] ==> rows[0].channelId < c.channelId
  {
    forall c | c in rows[1..] ensures rows[0].channelId < c.channelId {
      var m :| 0 <= m < |rows[1..]| && rows[1..][m] == c;
      assert rows[m + 1] == c;
    }
  }

  /** The ids present in the table. */
  function ChannelIds(rows: seq<Channel>): set<int> {
    set c | c in rows :: c.channelId
  }

  /** A table kept in key order has as many rows as distinct ids. */
  lemma {:induction false} IdCount(rows: seq<Channel>)
    requires IdsIncreasing(rows)
    ensures |ChannelIds(rows)| == |rows|
  {
    if rows != [] {
      var tail := rows[1..];
      TailAbove(rows);
      IdCount(tail);
      forall id | id in ChannelIds(rows) ensures id == rows[0].channelId || id in ChannelIds(tail) {
        var c :| c in rows && c.channelId == id;
        var k :| 0 <= k < |rows| && rows[k] == c;
        if k > 0 {
          assert tail[k - 1] == c;
        }
      }
      forall id | id in ChannelIds(tail) ensures id in ChannelIds(rows) {
        var c :| c in tail && c.channelId == id;
        assert c in rows;
      }
      assert rows[0] in rows;
      assert ChannelIds(rows) == {rows[0].channelId} + ChannelIds(tail);
      assert rows[0].channelId !in ChannelIds(tail);
    }
  }

  /** An upsert keeps the rows in key order. */
  lemma {:induction false} UpsertSorted(rows: seq<Channel>, row: Channel)
    requires IdsIncreasing(rows)
    ensures IdsIncreasing(Upsert(rows, row))
  {
    if rows != [] {
      TailAbove(rows);
      if rows[0].channelId < row.channelId {
        UpsertSorted(rows[1..], row);
        UpsertMembers(rows[1..], row);
        var u := Upsert(rows[1..], row);
        forall k | 0 <= k < |u| ensures rows[0].channelId < u[k].channelId {
          assert u[k] in u;
        }
      }
    }
  }

  /** An upsert grows the table by one row exactly when the key was new. */
  lemma {:induction false} UpsertLength(rows: seq<Channel>, row: Channel)
    requires IdsIncreasing(rows)
    ensures |Upsert(rows, row)| == |rows| + (if HasId(rows, row.channelId) then 0 else 1)
  {
    if rows != [] {
      TailAbove(rows);
      assert rows == [rows[0]] + rows[1..];
      if rows[0].channelId < row.channelId {
        UpsertLength(rows[1..], row);
        assert HasId(rows, row.channelId) == HasId(rows[1..], row.channelId);
      } else if rows[0].channelId == row.channelId {
        assert HasId(rows, row.channelId) by { assert rows[0] in rows; }
      } else {
        assert !HasId(rows, row.channelId);
      }
    }
  }

  /** A delete drops exactly the rows with the key. */
  lemma {:induction false} RemoveMembers(rows: seq<Channel>, channelId: int)
    ensures forall c :: c in Remove(rows, channelId) <==> c in rows && c.channelId != channelId
  {
    if rows != [] {
      assert rows == [rows[0]] + rows[1..];
      RemoveMembers(rows[1..], channelId);
    }
  }

  /** A delete keeps the key order. */
  lemma {:induction false} RemoveSorted(rows: seq<Channel>, channelId: int)
    requires IdsIncreasing(rows)
    ensures IdsIncreasing(Remove(rows, channelId))
  {
    if rows != [] {
      TailAbove(rows);
      RemoveSorted(rows[1..], channelId);
      RemoveMembers(rows[1..], channelId);
      var r := Remove(rows[1..], channelId);
      if rows[0].channelId != channelId {
        forall k | 0 <= k < |r| ensures rows[0].channelId < r[k].channelId {
          assert r[k] in r;
        }
      }
    }
  }

  /** A delete shrinks the table by one row exactly when the key was present. */
  lemma {:induction false} RemoveLength(rows: seq<Channel>, channelId: int)
    requires IdsIncreasing(rows)
    ensures |Remove(rows, channelId)| == |rows| - (if HasId(rows, channelId) then 1 else 0)
  {
    if rows != [] {
      TailAbove(rows);
      RemoveLength(rows[1..], channelId);
      assert rows == [rows[0]] + rows[1..];
      if rows[0].channelId == channelId {
        assert !HasId(rows[1..], channelId);
        assert HasId(rows, channelId) by { assert rows[0] in rows; }
      } else {
        assert HasId(rows, channelId) == HasId(rows[1..], channelId);
      }
    }
  }

  /** A delete keeps the key order, drops exactly the rows with the key, and
      shrinks the table by one row exactly when the key was present. */
  lemma RemoveSpec(rows: seq<Channel>, channelId: int)
    requires IdsIncreasing(rows)
    ensures IdsIncreasing(Remove(rows, channelId))
    ensures forall c :: c in Remove(rows, channelId) <==> c in rows && c.channelId != channelId
    ensures |Remove(rows, channelId)| == |rows| - (if HasId(rows, channelId) then 1 else 0)
  {
    RemoveMembers(rows, channelId);
    RemoveSorted(rows, channelId);
    RemoveLength(rows, channelId);
  }

  /** The invite_link a row gets: the given text, or the column's DEFAULT ''
      when NULL is given (REPLACE resolves a NOT NULL violation that way). */
  function StoredLink(inviteLink: Option<string>): string
  {
    if inviteLink.Some? then inviteLink.value else ""
  }

  class ChannelDB {
    var rows: seq<Channel>

    ghost predicate Valid()
      reads this
    {
      IdsIncreasing(rows)
    }

    /** CREATE TABLE IF NOT EXISTS on a fresh database file. */
    constructor ()
      ensures Valid() && rows == []
    {
      rows := [];
    }

    /** INSERT OR REPLACE INTO channels: an upsert keyed by channel_id. A NULL
        title violates NOT NULL; the error is caught and False is returned
        with the table unchanged. A NULL invite link also violates NOT NULL,
        but under the REPLACE conflict rule SQLite stores the column's
        DEFAULT '' instead, so the row goes in. */
    method AddChannel(channelId: int, title: Option<string>, inviteLink: Option<string>) returns (ok: bool)
      requires Valid()
      modifies this
      ensures Valid()
      ensures ok == title.Some?
      ensures !ok ==> rows == old(rows)
      ensures ok ==> rows == Upsert(old(rows), Channel(channelId, title.value, StoredLink(inviteLink)))
    {
      if title.None? {
        return false;
      }
      var row := Channel(channelId, title.value, StoredLink(inviteLink));
      UpsertSorted(rows, row);
      rows := Upsert(rows, row);
      ok := true;
    }

    /** SELECT channel_id, title, invite_link FROM channels: every stored row
        exactly once, in rowid (channel id) order. */
    function GetAllChannels(): (r: seq<Channel>)
      reads this
      requires Valid()
      ensures IdsIncreasing(r)
      ensures forall c :: c in r <==> c in rows
      ensures |r| == CountChannels()
    {
      rows
    }

    /** SELECT * FROM channels WHERE channel_id=? */
    function GetChannel(channelId: int): (r: Option<Channel>)
      reads this
      requires Valid()
      ensures r.Some? <==> HasId(rows, channelId)
      ensures r.Some? ==> r.value in rows && r.value.channelId == channelId
    {
      if HasId(rows, channelId) then
        var i :| 0 <= i < |rows| && rows[i].channelId == channelId;
        Some(rows[i])
      else
        None
    }

    /** DELETE FROM channels WHERE channel_id=? */
    method DeleteChannel(channelId: int) returns (ok: bool)
      requires Valid()
      modifies this
      ensures Valid()
      ensures ok
      ensures rows == Remove(old(rows), channelId)
    {
      RemoveSpec(rows, channelId);
      rows := Remove(rows, channelId);
      ok := true;
    }

    /** SELECT 1 FROM channels WHERE channel_id=? */
    predicate ChannelExists(channelId: int)
      reads this
      requires Valid()
      ensures ChannelExists(channelId) <==> GetChannel(channelId).Some?
    {
      HasId(rows, channelId)
    }

    /** SELECT COUNT(*) FROM channels: one row per distinct channel id. */
    function CountChannels(): (n: nat)
      reads this
      requires Valid()
      ensures n == |ChannelIds(rows)|
    {
      IdCount(rows);
      |rows|
    }
  }

  /** Adding a channel makes it retrievable with the stored title and link;
      deleting it makes it absent; the count moves by one exactly when the key
      was new (resp. present). */
  lemma AddThenGet(rows: seq<Channel>, row: Channel)
    requires IdsIncreasing(rows)
    ensures row in Upsert(rows, row) && HasId(Upsert(rows, row), row.channelId)
    ensures forall c :: c in Upsert(rows, row) && c.channelId == row.channelId ==> c == row
  {
    UpsertMembers(rows, row);
  }

  lemma DeleteThenAbsent(rows: seq<Channel>, channelId: int)
    requires IdsIncreasing(rows)
    ensures !HasId(Remove(rows, channelId), channelId)
  {
    RemoveSpec(rows, channelId);
  }
}
