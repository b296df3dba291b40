/** The leaderboard queries of db/dbcalls.py: `get_top_chat_users`,
    `get_top_voice_users` (trailing window with all-time fallback, 10 rows),
    `get_top_xp` and `get_top_cash` (all-time, 9 rows).

    `ORDER BY metric DESC` does not say how ties are ordered; here they keep
    the order in which the storage engine scans the table, which is a
    parameter (`scan`) listing every key of the table once. */
module Ranking {
  import opened Basics
  import opened Store

  /** One result row: a member and the value it is ranked by. */
  datatype Row = Row(member: MemberId, metric: real)

  /** `ORDER BY metric DESC` holds of a sequence of rows. */
  predicate NonIncreasing(rows: seq<Row>) {
    forall i, j :: 0 <= i < j < |rows| ==> rows[i].metric >= rows[j].metric
  }

  /** No member is listed twice. */
  predicate DistinctMembers(rows: seq<Row>) {
    forall i, j :: 0 <= i < j < |rows| ==> rows[i].member != rows[j].member
  }

  /** Every key of the table exactly once. */
  ghost predicate ScanOf(scan: seq<MemberId>, keys: set<MemberId>) {
    && (forall i, j :: 0 <= i < j < |scan| ==> scan[i] != scan[j])
    && (forall k :: k in scan <==> k in keys)
  }

  // ---------------------------------------------------------------------
  // ORDER BY ... DESC LIMIT n
  // ---------------------------------------------------------------------

  /** Place `x` into a non-increasing sequence, ahead of the rows it ties. */
  function Insert(x: Row, s: seq<Row>): (r: seq<Row>)
    requires NonIncreasing(s)
    ensures NonIncreasing(r)
    ensures multiset(r) == multiset(s) + multiset{x}
    ensures |r| == |s| + 1
  {
    if |s| == 0 || x.metric >= s[0].metric then [x] + s
    else
      var rest := Insert(x, s[1..]);
      assert s == [s[0]] + s[1..];
      HeadBounds(s[0], s[1..], x, rest);
      [s[0]] + rest
  }

  /** A head that ranks at or above every row of `tail` and above `x` can
      lead any rearrangement of `tail` plus `x` without breaking the order. */
  lemma HeadBounds(head: Row, tail: seq<Row>, x: Row, rest: seq<Row>)
    requires NonIncreasing([head] + tail) && NonIncreasing(rest)
    requires x.metric <= head.metric
    requires multiset(rest) == multiset(tail) + multiset{x}
    ensures NonIncreasing([head] + rest)
  {
    forall k | 0 <= k < |rest| ensures rest[k].metric <= head.metric {
      assert rest[k] in multiset(tail) + multiset{x};
      if rest[k] != x {
        var j :| 0 <= j < |tail| && tail[j] == rest[k];
        var whole := [head] + tail;
        assert whole[0] == head && whole[j + 1] == rest[k];
      }
    }
    var r := [head] + rest;
    assert forall i :: 1 <= i < |r| ==> r[i] == rest[i - 1];
  }

  /** The rows in descending order of metric, a stable insertion sort. */
  function SortDesc(rows: seq<Row>): (r: seq<Row>)
    ensures NonIncreasing(r)
    ensures multiset(r) == multiset(rows)
    ensures |r| == |rows|
  {
    if |rows| == 0 then []
    else
      assert rows == [rows[0]] + rows[1..];
      Insert(rows[0], SortDesc(rows[1..]))
  }

  /** `ORDER BY metric DESC LIMIT limit`: the first `limit` rows of the sorted
      table. */
  function Top(rows: seq<Row>, limit: nat): (r: seq<Row>)
    ensures |r| == if |rows| < limit then |rows| else limit
    ensures NonIncreasing(r)
    ensures multiset(r) <= multiset(rows)
    ensures forall x :: x in r ==> x in rows
  {
    var s := SortDesc(rows);
    var n := if |rows| < limit then |rows| else limit;
    assert s == s[..n] + s[n..];
    assert forall x :: x in s[..n] ==> x in multiset(s);
    s[..n]
  }

  /** A row occurs at most once in a table that lists no member twice. */
  lemma {:induction false} CountAtMostOne(rows: seq<Row>, x: Row)
    requires DistinctMembers(rows)
    ensures multiset(rows)[x] <= 1
    decreases |rows|
  {
    if |rows| > 0 {
      var tail := rows[1..];
      assert rows == [rows[0]] + tail;
      assert DistinctMembers(tail) by {
        forall i, j | 0 <= i < j < |tail| ensures tail[i].member != tail[j].member {
          assert tail[i] == rows[i + 1] && tail[j] == rows[j + 1];
        }
      }
      CountAtMostOne(tail, x);
      if rows[0] == x {
        assert x !in tail by {
          forall k | 0 <= k < |tail| ensures tail[k] != x {
            assert tail[k] == rows[k + 1];
          }
        }
      }
    }
  }

  /** Taking rows out of a table that lists no member twice (as `Top` does)
      cannot list a member twice. */
  lemma SubMultisetDistinct(r: seq<Row>, rows: seq<Row>)
    requires multiset(r) <= multiset(rows) && DistinctMembers(rows)
    ensures DistinctMembers(r)
  {
    forall i, j | 0 <= i < j < |r| ensures r[i].member != r[j].member {
      assert r[i] in multiset(r) && r[j] in multiset(r);
      var a :| 0 <= a < |rows| && rows[a] == r[i];
      var b :| 0 <= b < |rows| && rows[b] == r[j];
      assert r == r[..j] + r[j..];
      assert r[i] in r[..j] && r[j] in r[j..];
      CountAtMostOne(rows, r[i]);
      assert r[i] != r[j];
    }
  }

  /** No row left out of `Top` ranks above a row it kept. */
  lemma TopIsTop(rows: seq<Row>, limit: nat, x: Row)
    requires x in rows && x !in Top(rows, limit)
    ensures forall i :: 0 <= i < |Top(rows, limit)| ==> x.metric <= Top(rows, limit)[i].metric
  {
    var s := SortDesc(rows);
    assert x in multiset(s);
    var k :| 0 <= k < |s| && s[k] == x;
    var n := |Top(rows, limit)|;
    if k < n {
      assert Top(rows, limit)[k] == x;
    }
  }

  // ---------------------------------------------------------------------
  // The UserActivity rankings
  // ---------------------------------------------------------------------

  datatype Board = Chat | Voice

  /** The ranked column: MessagesSent or MinutesInVC. */
  function Metric(a: Activity, board: Board): real {
    if board == Chat then a.messagesSent as real else a.minutesInVc
  }

  /** The window column: LastMessageTime or LastVCTimestamp. */
  function Stamp(a: Activity, board: Board): int {
    if board == Chat then a.lastMessageTime else a.lastVcTime
  }

  /** Whether a row passes the `WHERE stamp >= since` filter (no filter when
      `since` is absent). */
  predicate InWindow(a: Activity, board: Board, since: Option<int>) {
    since.None? || Stamp(a, board) >= since.value
  }

  /** The UserActivity rows selected by the window, in scan order. */
  function ActivityRows(act: map<MemberId, Activity>, scan: seq<MemberId>, board: Board, since: Option<int>)
    : (rows: seq<Row>)
    requires forall k :: k in scan ==> k in act
    ensures forall x :: x in rows ==>
              && x.member in act
              && x.metric == Metric(act[x.member], board)
              && InWindow(act[x.member], board, since)
    ensures forall k :: k in scan && InWindow(act[k], board, since) ==> Row(k, Metric(act[k], board)) in rows
    ensures forall x :: x in rows ==> x.member in scan
    ensures since.None? ==> |rows| == |scan|
  {
    if |scan| == 0 then []
    else
      var k := scan[0];
      var rest := ActivityRows(act, scan[1..], board, since);
      assert forall j :: j in scan ==> j == k || j in scan[1..];
      assert forall j :: j in scan[1..] ==> j in scan;
      if InWindow(act[k], board, since) then [Row(k, Metric(act[k], board))] + rest else rest
  }

  /** Selecting from a scan that lists no member twice lists no member
      twice. */
  lemma {:induction false} ActivityRowsDistinct(act: map<MemberId, Activity>, scan: seq<MemberId>, board: Board, since: Option<int>)
    requires forall k :: k in scan ==> k in act
    requires forall i, j :: 0 <= i < j < |scan| ==> scan[i] != scan[j]
    ensures DistinctMembers(ActivityRows(act, scan, board, since))
    decreases |scan|
  {
    if |scan| > 0 {
      var k := scan[0];
      var rest := scan[1..];
      assert forall i, j :: 0 <= i < j < |rest| ==> rest[i] == scan[i + 1] && rest[j] == scan[j + 1];
      ActivityRowsDistinct(act, rest, board, since);
      var tail := ActivityRows(act, rest, board, since);
      assert k !in rest by {
        forall i | 0 <= i < |rest| ensures rest[i] != k {
          assert rest[i] == scan[i + 1];
        }
      }
      if InWindow(act[k], board, since) {
        var r := [Row(k, Metric(act[k], board))] + tail;
        forall i, j | 0 <= i < j < |r| ensures r[i].member != r[j].member {
          assert r[j] == tail[j - 1] && r[j] in tail;
          if i > 0 {
            assert r[i] == tail[i - 1];
          }
        }
      }
    }
  }

  /** The members whose row passes the window filter. */
  ghost function WindowMembers(act: map<MemberId, Activity>, board: Board, since: Option<int>): set<MemberId> {
    set k | k in act && InWindow(act[k], board, since)
  }

  /** The selection holds one row per member in the window. */
  lemma ActivityRowsCount(act: map<MemberId, Activity>, scan: seq<MemberId>, board: Board, since: Option<int>)
    requires ScanOf(scan, act.Keys)
    ensures |ActivityRows(act, scan, board, since)| == |WindowMembers(act, board, since)|
  {
    var rows := ActivityRows(act, scan, board, since);
    ActivityRowsDistinct(act, scan, board, since);
    var members := seq(|rows|, i requires 0 <= i < |rows| => rows[i].member);
    forall k ensures k in members <==> k in WindowMembers(act, board, since) {
      if k in members {
        var i :| 0 <= i < |members| && members[i] == k;
        assert rows[i] in rows;
      }
      if k in WindowMembers(act, board, since) {
        assert k in scan;
        var x := Row(k, Metric(act[k], board));
        assert x in rows;
        var i :| 0 <= i < |rows| && rows[i] == x;
        assert members[i] == k;
      }
    }
    DistinctScanSize(members, WindowMembers(act, board, since));
  }

  /** Some row of the table passes the window filter. */
  ghost predicate AnyInWindow(act: map<MemberId, Activity>, board: Board, since: Option<int>) {
    exists k :: k in act && InWindow(act[k], board, since)
  }

  /** The windowed selection is empty exactly when no row of the table
      passes the filter. */
  lemma WindowedEmpty(act: map<MemberId, Activity>, scan: seq<MemberId>, board: Board, since: Option<int>)
    requires ScanOf(scan, act.Keys)
    ensures |ActivityRows(act, scan, board, since)| == 0 <==> !AnyInWindow(act, board, since)
  {
    var rows := ActivityRows(act, scan, board, since);
    if |rows| > 0 {
      assert rows[0] in rows;
      var k := rows[0].member;
      assert k in act && InWindow(act[k], board, since);
    }
    if AnyInWindow(act, board, since) {
      var k :| k in act && InWindow(act[k], board, since);
      assert Row(k, Metric(act[k], board)) in rows;
    }
  }

  /** The start of the trailing window, `DATETIME('now', '-N days')`. */
  function WindowStart(now: int, days: int): int {
    now - days * SecondsPerDay
  }

  /** The chat/voice query: the top 10 among rows stamped within the last
      `days` days if there is any such row, otherwise the top 10 of all
      rows. */
  function TopActivity(db: Db, scan: seq<MemberId>, board: Board, now: int, days: int): (r: seq<Row>)
    requires ScanOf(scan, db.activity.Keys)
    ensures |r| <= 10 && NonIncreasing(r)
    ensures forall x :: x in r ==> x.member in db.activity && x.metric == Metric(db.activity[x.member], board)
    ensures AnyInWindow(db.activity, board, Some(WindowStart(now, days))) ==>
              && |r| > 0
              && forall x :: x in r ==> InWindow(db.activity[x.member], board, Some(WindowStart(now, days)))
    ensures AnyInWindow(db.activity, board, Some(WindowStart(now, days))) ==>
              var inWindow := |WindowMembers(db.activity, board, Some(WindowStart(now, days)))|;
              |r| == if inWindow < 10 then inWindow else 10
    ensures !AnyInWindow(db.activity, board, Some(WindowStart(now, days))) ==>
              |r| == if |db.activity| < 10 then |db.activity| else 10
    ensures DistinctMembers(r)
  {
    var since := Some(WindowStart(now, days));
    var windowed := ActivityRows(db.activity, scan, board, since);
    var recent := Top(windowed, 10);
    WindowedEmpty(db.activity, scan, board, since);
    ActivityRowsCount(db.activity, scan, board, since);
    ActivityRowsDistinct(db.activity, scan, board, since);
    SubMultisetDistinct(recent, windowed);
    if |recent| > 0 then recent
    else
      var all := ActivityRows(db.activity, scan, board, None);
      DistinctScanSize(scan, db.activity.Keys);
      ActivityRowsDistinct(db.activity, scan, board, None);
      SubMultisetDistinct(Top(all, 10), all);
      Top(all, 10)
  }

  /** A duplicate-free listing of a set is as long as the set is large. */
  lemma {:induction false} DistinctScanSize(scan: seq<MemberId>, keys: set<MemberId>)
    requires ScanOf(scan, keys)
    ensures |scan| == |keys|
    decreases |scan|
  {
    if |scan| > 0 {
      var rest := scan[1..];
      assert scan[0] in scan;
      assert ScanOf(rest, keys - {scan[0]}) by {
        forall k ensures k in rest <==> k in keys - {scan[0]} {
          if k in rest {
            var i :| 0 <= i < |rest| && rest[i] == k;
            assert scan[i + 1] == k;
          }
          if k in keys && k != scan[0] {
            assert k in scan;
          }
        }
      }
      DistinctScanSize(rest, keys - {scan[0]});
    } else {
      assert forall k :: k !in keys;
      assert keys == {};
    }
  }

  /** `get_top_chat_users(days)`: ranked by MessagesSent, windowed on
      LastMessageTime. */
  function TopChatUsers(db: Db, scan: seq<MemberId>, now: int, days: int): seq<Row>
    requires ScanOf(scan, db.activity.Keys)
  {
    TopActivity(db, scan, Chat, now, days)
  }

  /** `get_top_voice_users(days)`: ranked by MinutesInVC, windowed on
      LastVCTimestamp. */
  function TopVoiceUsers(db: Db, scan: seq<MemberId>, now: int, days: int): seq<Row>
    requires ScanOf(scan, db.activity.Keys)
  {
    TopActivity(db, scan, Voice, now, days)
  }

  /** A member in the ranked pool that is not listed ranks no higher than
      anyone listed. The pool is the windowed rows when there are any, every
      row otherwise. */
  lemma TopActivityIsTop(db: Db, scan: seq<MemberId>, board: Board, now: int, days: int, k: MemberId)
    requires ScanOf(scan, db.activity.Keys)
    requires k in db.activity
    requires InWindow(db.activity[k], board, Some(WindowStart(now, days)))
             || !AnyInWindow(db.activity, board, Some(WindowStart(now, days)))
    requires forall x :: x in TopActivity(db, scan, board, now, days) ==> x.member != k
    ensures forall i :: 0 <= i < |TopActivity(db, scan, board, now, days)| ==>
              Metric(db.activity[k], board) <= TopActivity(db, scan, board, now, days)[i].metric
  {
    var since := Some(WindowStart(now, days));
    var windowed := ActivityRows(db.activity, scan, board, since);
    var all := ActivityRows(db.activity, scan, board, None);
    WindowedEmpty(db.activity, scan, board, since);
    var x := Row(k, Metric(db.activity[k], board));
    assert k in scan;
    if |Top(windowed, 10)| > 0 {
      assert AnyInWindow(db.activity, board, since);
      assert x in windowed;
      TopIsTop(windowed, 10, x);
    } else {
      assert x in all;
      TopIsTop(all, 10, x);
    }
  }

  // ---------------------------------------------------------------------
  // All-time XP and cash
  // ---------------------------------------------------------------------

  /** The XP column of UserActivity. */
  function XpColumn(act: map<MemberId, Activity>): (col: map<MemberId, int>)
    ensures col.Keys == act.Keys
  {
    map k | k in act :: act[k].xp
  }

  /** `SELECT MemberId, col ... ORDER BY col DESC LIMIT limit` over an integer
      column. */
  function TopColumn(col: map<MemberId, int>, scan: seq<MemberId>, limit: nat): (r: seq<Row>)
    requires ScanOf(scan, col.Keys)
    ensures |r| == if |col| < limit then |col| else limit
    ensures NonIncreasing(r)
    ensures forall x :: x in r ==> x.member in col && x.metric == col[x.member] as real
    ensures DistinctMembers(r)
  {
    DistinctScanSize(scan, col.Keys);
    ScanInColumn(scan, col);
    var rows := seq(|scan|, i requires 0 <= i < |scan| => Row(scan[i], col[scan[i]] as real));
    assert DistinctMembers(rows);
    SubMultisetDistinct(Top(rows, limit), rows);
    Top(rows, limit)
  }

  /** Every key a scan lists has a value in the column. */
  lemma ScanInColumn(scan: seq<MemberId>, col: map<MemberId, int>)
    requires ScanOf(scan, col.Keys)
    ensures forall i :: 0 <= i < |scan| ==> scan[i] in col
  {
    forall i | 0 <= i < |scan| ensures scan[i] in col {
      assert scan[i] in scan;
    }
  }

  /** A member with a row that `TopColumn` leaves out ranks no higher than
      any member it lists. */
  lemma TopColumnIsTop(col: map<MemberId, int>, scan: seq<MemberId>, limit: nat, k: MemberId)
    requires ScanOf(scan, col.Keys)
    requires k in col
    requires forall x :: x in TopColumn(col, scan, limit) ==> x.member != k
    ensures forall i :: 0 <= i < |TopColumn(col, scan, limit)| ==>
              col[k] as real <= TopColumn(col, scan, limit)[i].metric
  {
    ScanInColumn(scan, col);
    var rows := seq(|scan|, i requires 0 <= i < |scan| => Row(scan[i], col[scan[i]] as real));
    assert k in scan;
    var j :| 0 <= j < |scan| && scan[j] == k;
    assert rows[j] == Row(k, col[k] as real);
    TopIsTop(rows, limit, rows[j]);
  }

  /** `get_top_xp`: the 9 highest XP values. */
  function TopXp(db: Db, scan: seq<MemberId>): (r: seq<Row>)
    requires ScanOf(scan, db.activity.Keys)
    ensures |r| == if |db.activity| < 9 then |db.activity| else 9
    ensures NonIncreasing(r)
    ensures forall x :: x in r ==> x.member in db.activity && x.metric == db.activity[x.member].xp as real
    ensures DistinctMembers(r)
  {
    TopColumn(XpColumn(db.activity), scan, 9)
  }

  /** `get_top_cash`: the 9 highest balances. */
  function TopCash(db: Db, scan: seq<MemberId>): (r: seq<Row>)
    requires ScanOf(scan, db.money.Keys)
    ensures |r| == if |db.money| < 9 then |db.money| else 9
    ensures NonIncreasing(r)
    ensures forall x :: x in r ==> x.member in db.money && x.metric == db.money[x.member] as real
    ensures DistinctMembers(r)
  {
    TopColumn(db.money, scan, 9)
  }

  /** A member left off the XP board has no more XP than anyone on it. */
  lemma TopXpIsTop(db: Db, scan: seq<MemberId>, k: MemberId)
    requires ScanOf(scan, db.activity.Keys)
    requires k in db.activity
    requires forall x :: x in TopXp(db, scan) ==> x.member != k
    ensures forall i :: 0 <= i < |TopXp(db, scan)| ==> db.activity[k].xp as real <= TopXp(db, scan)[i].metric
  {
    TopColumnIsTop(XpColumn(db.activity), scan, 9, k);
  }

  /** A member left off the cash board has no larger balance than anyone on
      it. */
  lemma TopCashIsTop(db: Db, scan: seq<MemberId>, k: MemberId)
    requires ScanOf(scan, db.money.Keys)
    requires k in db.money
    requires forall x :: x in TopCash(db, scan) ==> x.member != k
    ensures forall i :: 0 <= i < |TopCash(db, scan)| ==> db.money[k] as real <= TopCash(db, scan)[i].metric
  {
    TopColumnIsTop(db.money, scan, 9, k);
  }
}
