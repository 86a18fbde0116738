/**
  The `ping_results` table as a sequence of rows, with the queries and deletions
  the monitor issues against it: deletion by target, the retention trigger, and
  the trailing-window counts behind the success rate.
*/
module Store {
  import opened Common

  const SecondsPerDay: int := 86400

  /** The trailing window of the success rate, `INTERVAL '24 hours'`, in seconds. */
  const RateWindow: int := 24 * 3600

  /** One row of `ping_results`; `timestamp` is in seconds. */
  datatype Row = Row(target: string, status: bool, responseTime: Option<real>, attempts: nat, timestamp: int)

  /** The rows satisfying `p`, in table order, as a `WHERE p` clause selects them. */
  function Keep(rows: seq<Row>, p: Row -> bool): (r: seq<Row>)
    ensures |r| <= |rows|
    decreases |rows|
  {
    if rows == [] then []
    else Keep(rows[..|rows| - 1], p) + (if p(rows[|rows| - 1]) then [rows[|rows| - 1]] else [])
  }

  /** A row is kept exactly when it is in the table and satisfies the condition. */
  lemma {:induction false} KeepMembers(rows: seq<Row>, p: Row -> bool, x: Row)
    ensures x in Keep(rows, p) <==> x in rows && p(x)
    decreases |rows|
  {
    if rows != [] {
      var init := rows[..|rows| - 1];
      KeepMembers(init, p, x);
      assert rows == init + [rows[|rows| - 1]];
    }
  }

  lemma {:induction false} KeepConcat(a: seq<Row>, b: seq<Row>, p: Row -> bool)
    ensures Keep(a + b, p) == Keep(a, p) + Keep(b, p)
    decreases |b|
  {
    if b == [] {
      assert a + b == a;
    } else {
      var b' := b[..|b| - 1];
      assert (a + b)[..|a + b| - 1] == a + b';
      assert (a + b)[|a + b| - 1] == b[|b| - 1];
      KeepConcat(a, b', p);
    }
  }

  /**
    A filter keeps exactly the rows satisfying the condition, each as many times
    as the table holds it (rows carry no key, so equal rows may repeat).
  */
  lemma {:induction false} KeepCounts(rows: seq<Row>, p: Row -> bool)
    ensures forall x :: multiset(Keep(rows, p))[x] == (if p(x) then multiset(rows)[x] else 0)
    decreases |rows|
  {
    if rows != [] {
      var init, last := rows[..|rows| - 1], rows[|rows| - 1];
      KeepCounts(init, p);
      assert rows == init + [last];
    }
  }

  /** Filtering by `p` and then by a stronger `q` is filtering by `q` alone. */
  lemma {:induction false} KeepStronger(rows: seq<Row>, p: Row -> bool, q: Row -> bool)
    requires forall x :: q(x) ==> p(x)
    ensures Keep(Keep(rows, p), q) == Keep(rows, q)
    decreases |rows|
  {
    if rows != [] {
      var init, last := rows[..|rows| - 1], rows[|rows| - 1];
      KeepStronger(init, p, q);
      KeepConcat(Keep(init, p), if p(last) then [last] else [], q);
      assert Keep([last], q) == (if q(last) then [last] else []) by {
        assert [last][..0] == [];
      }
      assert Keep([], q) == [];
    }
  }

  function OtherThan(t: string): Row -> bool { (r: Row) => r.target != t }

  function NotBefore(cutoff: int): Row -> bool { (r: Row) => r.timestamp >= cutoff }

  function OfTargetSince(t: string, since: int): Row -> bool { (r: Row) => r.target == t && r.timestamp >= since }

  function Succeeded(): Row -> bool { (r: Row) => r.status }

  /** `DELETE FROM ping_results WHERE target = t` leaves these rows. */
  function WithoutTarget(rows: seq<Row>, t: string): seq<Row> {
    Keep(rows, OtherThan(t))
  }

  /** The purge by target leaves exactly the rows of other targets, with their multiplicities. */
  lemma PurgeCounts(rows: seq<Row>, t: string)
    ensures forall x :: multiset(WithoutTarget(rows, t))[x] == (if x.target != t then multiset(rows)[x] else 0)
  {
    KeepCounts(rows, OtherThan(t));
  }

  /** The retention horizon: rows stamped before it are deleted. */
  function Cutoff(now: int, ttlDays: nat): int {
    now - ttlDays * SecondsPerDay
  }

  /** `DELETE FROM ping_results WHERE timestamp < cutoff` leaves these rows. */
  function Retained(rows: seq<Row>, cutoff: int): seq<Row> {
    Keep(rows, NotBefore(cutoff))
  }

  /** The retention delete leaves exactly the rows stamped at or after the cutoff, with their multiplicities. */
  lemma RetainedCounts(rows: seq<Row>, cutoff: int)
    ensures forall x :: multiset(Retained(rows, cutoff))[x] == (if x.timestamp >= cutoff then multiset(rows)[x] else 0)
  {
    KeepCounts(rows, NotBefore(cutoff));
  }

  /** The rows of target `t` stamped at or after `since`, as `WHERE target = t AND timestamp >= since` selects them. */
  function InWindow(rows: seq<Row>, t: string, since: int): seq<Row> {
    Keep(rows, OfTargetSince(t, since))
  }

  /** The window holds exactly the rows of `t` stamped at or after `since`, with their multiplicities. */
  lemma WindowCounts(rows: seq<Row>, t: string, since: int)
    ensures forall x :: multiset(InWindow(rows, t, since))[x] == (if x.target == t && x.timestamp >= since then multiset(rows)[x] else 0)
  {
    KeepCounts(rows, OfTargetSince(t, since));
  }

  /**
    The table after an `INSERT` of `row`, whose timestamp is the database's
    `NOW()`, followed by the statement-level `AFTER INSERT` trigger when one is
    installed: with horizon `Some(d)` the trigger deletes every row stamped before
    `NOW() - INTERVAL 'd days'`; with `None` no trigger fires.
  */
  function AfterInsert(rows: seq<Row>, row: Row, retention: Option<nat>): seq<Row> {
    match retention
    case None => rows + [row]
    case Some(d) => Retained(rows + [row], Cutoff(row.timestamp, d))
  }

  /**
    After the insert and its trigger the new row is present; every row present
    was already there or is the new one; without a trigger no row is lost; with
    one, an old row survives exactly when it is not older than the horizon, and
    no row older than the horizon remains.
  */
  lemma AfterInsertMembers(rows: seq<Row>, row: Row, retention: Option<nat>)
    ensures row in AfterInsert(rows, row, retention)
    ensures forall x :: x in AfterInsert(rows, row, retention) ==> x in rows || x == row
    ensures retention.None? ==> forall x :: x in rows ==> x in AfterInsert(rows, row, retention)
    ensures retention.Some? ==> forall x :: x in rows ==>
      (x in AfterInsert(rows, row, retention) <==> x.timestamp >= Cutoff(row.timestamp, retention.value))
    ensures retention.Some? ==> forall x :: x in AfterInsert(rows, row, retention) ==>
      x.timestamp >= Cutoff(row.timestamp, retention.value)
  {
    if retention.Some? {
      RetainedMembers(rows + [row], Cutoff(row.timestamp, retention.value));
    }
  }

  lemma RetainedMembers(rows: seq<Row>, cutoff: int)
    ensures forall x :: x in Retained(rows, cutoff) <==> x in rows && x.timestamp >= cutoff
  {
    forall x
      ensures x in Retained(rows, cutoff) <==> x in rows && x.timestamp >= cutoff
    {
      KeepMembers(rows, NotBefore(cutoff), x);
    }
  }

  /** The successful rows among `rows`. */
  function Successful(rows: seq<Row>): seq<Row> {
    Keep(rows, Succeeded())
  }

  /** `countInWindow`: the total and the successful rows of `t` in the 24-hour window ending at `now`. */
  function CountInWindow(rows: seq<Row>, t: string, now: int): (c: (nat, nat))
    ensures c.1 <= c.0 <= |rows|
  {
    var w := InWindow(rows, t, now - RateWindow);
    (|w|, |Successful(w)|)
  }

  /** Dividing out a positive factor preserves order. */
  lemma ScaleCancel(a: real, b: real, d: real)
    requires d > 0.0 && a * d <= b * d
    ensures a <= b
  {
    assert (b - a) * d >= 0.0;
  }

  /** `success / total * 100` over the reals, for `0 <= success <= total`, `total > 0`. */
  function Percent(success: nat, total: nat): (p: real)
    requires success <= total && total > 0
    ensures 0.0 <= p <= 100.0
    ensures p * total as real == 100.0 * success as real
    ensures p == 100.0 <==> success == total
    ensures p == 0.0 <==> success == 0
  {
    var s, n := success as real, total as real;
    var q := s / n;
    assert q * n == s;
    ScaleCancel(q, 1.0, n);
    assert 0.0 * n <= q * n;
    ScaleCancel(0.0, q, n);
    assert q == 1.0 <==> s == n by {
      if s == n {
        assert 1.0 * n <= q * n;
        ScaleCancel(1.0, q, n);
      }
    }
    assert q == 0.0 <==> s == 0.0 by {
      if s == 0.0 {
        assert q * n <= 0.0 * n;
        ScaleCancel(q, 0.0, n);
      }
    }
    q * 100.0
  }

  /**
    `get_success_rate`: 0 when the store fails or the window holds no row of
    `t`, otherwise the share of successful rows of the window as a percentage.
  */
  function SuccessRate(rows: seq<Row>, t: string, now: int, storeUp: bool): (rate: real)
    ensures 0.0 <= rate <= 100.0
    ensures !storeUp || CountInWindow(rows, t, now).0 == 0 ==> rate == 0.0
    ensures storeUp && CountInWindow(rows, t, now).0 > 0 ==>
      rate * CountInWindow(rows, t, now).0 as real == 100.0 * CountInWindow(rows, t, now).1 as real
    ensures rate == 100.0 <==>
      storeUp && CountInWindow(rows, t, now).0 > 0 && CountInWindow(rows, t, now).1 == CountInWindow(rows, t, now).0
    ensures rate == 0.0 <==> !storeUp || CountInWindow(rows, t, now).1 == 0
  {
    if !storeUp then 0.0
    else
      var c := CountInWindow(rows, t, now);
      if c.0 == 0 then 0.0 else Percent(c.1, c.0)
  }

  /** After the rows of `t` are deleted, its window is empty and its rate is 0. */
  lemma PurgedTargetHasNoRate(rows: seq<Row>, t: string, now: int, storeUp: bool)
    ensures CountInWindow(WithoutTarget(rows, t), t, now) == (0, 0)
    ensures SuccessRate(WithoutTarget(rows, t), t, now, storeUp) == 0.0
  {
    var w := InWindow(WithoutTarget(rows, t), t, now - RateWindow);
    if w != [] {
      KeepMembers(WithoutTarget(rows, t), OfTargetSince(t, now - RateWindow), w[0]);
      KeepMembers(rows, OtherThan(t), w[0]);
    }
  }

  /** Deleting the rows of `t` changes nothing about any other target's rows. */
  lemma PurgeKeepsOthers(rows: seq<Row>, t: string, u: string, since: int)
    requires u != t
    ensures InWindow(WithoutTarget(rows, t), u, since) == InWindow(rows, u, since)
  {
    KeepStronger(rows, OtherThan(t), OfTargetSince(u, since));
  }

  /** With a horizon of at least one day, retention never deletes a row inside the 24-hour window. */
  lemma RetentionKeepsWindow(rows: seq<Row>, t: string, now: int, ttlDays: nat)
    requires ttlDays >= 1
    ensures InWindow(Retained(rows, Cutoff(now, ttlDays)), t, now - RateWindow) == InWindow(rows, t, now - RateWindow)
  {
    var c := Cutoff(now, ttlDays);
    assert c <= now - RateWindow;
    KeepStronger(rows, NotBefore(c), OfTargetSince(t, now - RateWindow));
  }

  lemma KeepSingleton(x: Row, p: Row -> bool)
    ensures Keep([x], p) == if p(x) then [x] else []
  {
    assert [x][..0] == [];
  }

  /**
    Recording a row stamped `now`, with no trigger or a trigger whose horizon is
    at least one day, appends exactly that row to the window of its target.
  */
  lemma WindowAfterSave(rows: seq<Row>, row: Row, now: int, retention: Option<nat>)
    requires row.timestamp == now && (retention.Some? ==> retention.value >= 1)
    ensures InWindow(AfterInsert(rows, row, retention), row.target, now - RateWindow) ==
      InWindow(rows, row.target, now - RateWindow) + [row]
  {
    var t := row.target;
    var since := now - RateWindow;
    if retention.Some? {
      RetentionKeepsWindow(rows + [row], t, now, retention.value);
    }
    KeepConcat(rows, [row], OfTargetSince(t, since));
    KeepSingleton(row, OfTargetSince(t, since));
    assert Keep([row], OfTargetSince(t, since)) == [row];
  }

  lemma SuccessfulAppend(w: seq<Row>, row: Row)
    ensures |Successful(w + [row])| == |Successful(w)| + if row.status then 1 else 0
  {
    KeepConcat(w, [row], Succeeded());
    KeepSingleton(row, Succeeded());
  }

  /** Hence the window of `t` gains one row, and one success iff the row is a success. */
  lemma SaveAddsToWindow(rows: seq<Row>, row: Row, now: int, retention: Option<nat>)
    requires row.timestamp == now && (retention.Some? ==> retention.value >= 1)
    ensures CountInWindow(AfterInsert(rows, row, retention), row.target, now).0 ==
      CountInWindow(rows, row.target, now).0 + 1
    ensures CountInWindow(AfterInsert(rows, row, retention), row.target, now).1 ==
      CountInWindow(rows, row.target, now).1 + if row.status then 1 else 0
  {
    WindowAfterSave(rows, row, now, retention);
    SuccessfulAppend(InWindow(rows, row.target, now - RateWindow), row);
  }

  /** One more success raises the percentage or leaves it; one more failure lowers it or leaves it. */
  lemma PercentStep(success: nat, total: nat)
    requires success <= total && total > 0
    ensures Percent(success, total) <= Percent(success + 1, total + 1)
    ensures Percent(success, total + 1) <= Percent(success, total)
  {
    var p, up, down := Percent(success, total), Percent(success + 1, total + 1), Percent(success, total + 1);
    var s, n := success as real, total as real;
    var m := n + 1.0;
    assert p * n == 100.0 * s;
    assert up * m == 100.0 * (s + 1.0);
    assert down * m == 100.0 * s;
    var d := n * m;
    assert d > 0.0;
    calc {
      p * d;
    ==
      (p * n) * m;
    ==
      100.0 * s * m;
    <=  { assert s * m <= (s + 1.0) * n; }
      100.0 * (s + 1.0) * n;
    ==
      (up * m) * n;
    ==
      up * d;
    }
    calc {
      down * d;
    ==
      (down * m) * n;
    ==
      100.0 * s * n;
    <=
      100.0 * s * m;
    ==
      (p * n) * m;
    ==
      p * d;
    }
    ScaleCancel(p, up, d);
    ScaleCancel(down, p, d);
  }

  /** Recording a success never lowers the rate of its target; recording a failure never raises it. */
  lemma SaveMovesRate(rows: seq<Row>, row: Row, now: int, retention: Option<nat>)
    requires row.timestamp == now && (retention.Some? ==> retention.value >= 1)
    ensures var before := SuccessRate(rows, row.target, now, true);
      var after := SuccessRate(AfterInsert(rows, row, retention), row.target, now, true);
      if row.status then before <= after else after <= before
  {
    var t := row.target;
    SaveAddsToWindow(rows, row, now, retention);
    var c := CountInWindow(rows, t, now);
    if c.0 > 0 {
      PercentStep(c.1, c.0);
    }
  }
}
