/**
  The monitor's in-memory state (`PingMonitorApp`): the target list, the two
  database tables it mirrors, the message queue between the probing thread and
  the UI loop, and what the UI loop was handed. Every transactional database
  call takes a flag `storeUp` standing for whether the connection and the
  statements succeed; a failed call commits nothing. `initialize_database`
  runs in autocommit mode instead and takes the number of its statements that
  succeed.
*/
module Monitor {
  import opened Common
  import opened Text
  import opened Store
  import opened Prober

  const DefaultTtlDays: nat := 30
  const DefaultPingAttempts: nat := 2

  /**
    `initialize_database` runs seven statements on an autocommit connection, so
    each one that succeeds is committed at once. Statements 1-4 create the tables
    and indexes when missing; statement 5 replaces the cleanup function, which
    carries the horizon; statement 6 drops the trigger; statement 7 re-creates it.
  */
  const ReplaceFunctionStatement: nat := 5
  const DropTriggerStatement: nat := 6
  const InitStatements: nat := 7

  /**
    The width of the `target VARCHAR(255)` column; a longer name fails the insert,
    and so does a name holding a NUL character, which the database driver refuses.
  */
  const MaxTargetLength: nat := 255

  /** How `add_target` ends: ignored blank input, a name already listed, a UNIQUE violation, a database error, or added. */
  datatype AddOutcome = Blank | AlreadyListed | AlreadyStored | StoreError | Added

  /** How `remove_target` ends: nothing selected, a database error, or the named target removed. */
  datatype RemoveOutcome = NoSelection | RemoveFailed | Removed(target: string)

  /** The log lines the probing side queues: a probe summary, or a failed write. */
  datatype Note = PingSummary(target: string, status: bool, responseTime: Option<real>, attempts: nat) | DatabaseError

  /** The summary line of a completed probe. */
  function Summary(r: PingResult): Note {
    PingSummary(r.target, r.status, r.responseTime, r.attempts)
  }

  /** The row of the status display one `update_status` message carries (formatting left out). */
  datatype StatusView = StatusView(target: string, status: bool, responseTime: Option<real>, observedAt: int,
                                   successRate: real, attempts: nat, maxAttempts: nat)

  /** The tagged messages of `message_queue`: `("log", …)` and `("update_status", …)`. */
  datatype Message = Log(note: Note) | UpdateStatus(view: StatusView)

  /** The log notes of `q`, in queue order. */
  function Notes(q: seq<Message>): seq<Note>
    decreases |q|
  {
    if q == [] then []
    else Notes(q[..|q| - 1]) + (if q[|q| - 1].Log? then [q[|q| - 1].note] else [])
  }

  /** The status rows of `q`, in queue order. */
  function Views(q: seq<Message>): seq<StatusView>
    decreases |q|
  {
    if q == [] then []
    else Views(q[..|q| - 1]) + (if q[|q| - 1].UpdateStatus? then [q[|q| - 1].view] else [])
  }

  /** Every message lands in exactly one of the two streams: nothing is lost or doubled. */
  lemma {:induction false} DispatchIsTotal(q: seq<Message>)
    ensures |Notes(q)| + |Views(q)| == |q|
    decreases |q|
  {
    if q != [] {
      DispatchIsTotal(q[..|q| - 1]);
    }
  }

  /** A note is drained to the log view exactly when it was queued as a log message, and likewise for status rows. */
  lemma {:induction false} DispatchMembers(q: seq<Message>, n: Note, v: StatusView)
    ensures n in Notes(q) <==> Log(n) in q
    ensures v in Views(q) <==> UpdateStatus(v) in q
    decreases |q|
  {
    if q != [] {
      var init := q[..|q| - 1];
      DispatchMembers(init, n, v);
      assert q == init + [q[|q| - 1]];
    }
  }

  /** Draining `a` and later `b` delivers what one drain of `a + b` would: FIFO across drains. */
  lemma {:induction false} DispatchConcat(a: seq<Message>, b: seq<Message>)
    ensures Notes(a + b) == Notes(a) + Notes(b)
    ensures Views(a + b) == Views(a) + Views(b)
    decreases |b|
  {
    if b == [] {
      assert a + b == a;
    } else {
      var b' := b[..|b| - 1];
      assert (a + b)[..|a + b| - 1] == a + b';
      assert (a + b)[|a + b| - 1] == b[|b| - 1];
      DispatchConcat(a, b');
    }
  }

  /**
    The row `save_ping_result` inserts for a probe outcome; the database stamps it
    `now`. The row records the whole outcome: it can be read back from the row.
  */
  function RowOf(r: PingResult, now: int): (row: Row)
    ensures PingResult(row.target, row.status, row.responseTime, row.attempts) == r && row.timestamp == now
  {
    Row(r.target, r.status, r.responseTime, r.attempts, now)
  }

  /**
    The messages the handling of one probe queues: a database-error line when its
    save failed, then its status row, then its summary line.
  */
  function HandleMessages(r: PingResult, now: int, saved: bool, rate: real, maxAttempts: nat): seq<Message> {
    (if saved then [] else [Log(DatabaseError)]) +
      [UpdateStatus(StatusView(r.target, r.status, r.responseTime, now, rate, r.attempts, maxAttempts)),
       Log(Summary(r))]
  }

  /**
    One completed probe of a cycle: its outcome, the instant it is saved and its
    rate read at, and whether the insert and the rate query succeed.
  */
  datatype Completion = Completion(result: PingResult, at: int, saveUp: bool, rateUp: bool)

  /** The table after the save of one completion: the insert and its trigger, or nothing when the save fails. */
  function Saved(rows: seq<Row>, c: Completion, retention: Option<nat>): seq<Row> {
    if c.saveUp then AfterInsert(rows, RowOf(c.result, c.at), retention) else rows
  }

  /** The table after the saves of `cs`, in completion order. */
  function StoreAfter(rows: seq<Row>, cs: seq<Completion>, retention: Option<nat>): seq<Row>
    decreases |cs|
  {
    if cs == [] then rows
    else Saved(StoreAfter(rows, cs[..|cs| - 1], retention), cs[|cs| - 1], retention)
  }

  /** The rates a cycle reads: for each completion, its target's rate just after its own save. */
  function CycleRates(rows: seq<Row>, cs: seq<Completion>, retention: Option<nat>): (rates: seq<real>)
    ensures |rates| == |cs|
    decreases |cs|
  {
    if cs == [] then []
    else
      var n := |cs| - 1;
      CycleRates(rows, cs[..n], retention) +
        [SuccessRate(StoreAfter(rows, cs, retention), cs[n].result.target, cs[n].at, cs[n].rateUp)]
  }

  /** The messages a cycle queues, completion after completion. */
  function CycleMessages(cs: seq<Completion>, rates: seq<real>, maxAttempts: nat): seq<Message>
    requires |rates| == |cs|
    decreases |cs|
  {
    if cs == [] then []
    else
      var n := |cs| - 1;
      CycleMessages(cs[..n], rates[..n], maxAttempts) + HandleMessages(cs[n].result, cs[n].at, cs[n].saveUp, rates[n], maxAttempts)
  }

  /** The log lines of a cycle: per completion, a database-error line when its save failed, then its summary. */
  function CycleNotes(cs: seq<Completion>): (notes: seq<Note>)
    ensures |cs| <= |notes| <= 2 * |cs|
    decreases |cs|
  {
    if cs == [] then []
    else
      var c := cs[|cs| - 1];
      var r := c.result;
      CycleNotes(cs[..|cs| - 1]) + (if c.saveUp then [] else [DatabaseError]) + [Summary(r)]
  }

  /** Every completion of a cycle logs its summary line. */
  lemma {:induction false} CycleSummaries(cs: seq<Completion>)
    ensures forall k :: 0 <= k < |cs| ==> Summary(cs[k].result) in CycleNotes(cs)
    decreases |cs|
  {
    if cs != [] {
      var n := |cs| - 1;
      var init := cs[..n];
      var tail := (if cs[n].saveUp then [] else [DatabaseError]) + [Summary(cs[n].result)];
      assert CycleNotes(cs) == CycleNotes(init) + tail;
      CycleSummaries(init);
      forall k | 0 <= k < |cs|
        ensures Summary(cs[k].result) in CycleNotes(cs)
      {
        if k < n {
          assert init[k] == cs[k];
        } else {
          assert Summary(cs[k].result) in tail;
        }
      }
    }
  }

  /** A database-error line is logged in a cycle exactly when some completion's save failed. */
  lemma {:induction false} CycleErrors(cs: seq<Completion>)
    ensures DatabaseError in CycleNotes(cs) <==> exists k :: 0 <= k < |cs| && !cs[k].saveUp
    decreases |cs|
  {
    if cs != [] {
      var n := |cs| - 1;
      var init := cs[..n];
      var tail := (if cs[n].saveUp then [] else [DatabaseError]) + [Summary(cs[n].result)];
      assert CycleNotes(cs) == CycleNotes(init) + tail;
      assert DatabaseError in tail <==> !cs[n].saveUp;
      CycleErrors(init);
      if exists k :: 0 <= k < n && !init[k].saveUp {
        var k :| 0 <= k < n && !init[k].saveUp;
        assert !cs[k].saveUp;
      }
      if exists k :: 0 <= k < |cs| && !cs[k].saveUp {
        var k :| 0 <= k < |cs| && !cs[k].saveUp;
        if k < n {
          assert !init[k].saveUp;
        }
      }
    }
  }

  /**
    The status rows a cycle publishes: one per completion, in completion order,
    carrying its target, status, latency and attempts, the rate read after its
    save, its instant and the attempt ceiling.
  */
  function StatusRows(cs: seq<Completion>, rates: seq<real>, maxAttempts: nat): (vs: seq<StatusView>)
    requires |rates| == |cs|
    ensures |vs| == |cs|
    ensures forall k :: 0 <= k < |vs| ==>
      vs[k].target == cs[k].result.target && vs[k].status == cs[k].result.status &&
      vs[k].responseTime == cs[k].result.responseTime && vs[k].attempts == cs[k].result.attempts &&
      vs[k].successRate == rates[k] && vs[k].observedAt == cs[k].at && vs[k].maxAttempts == maxAttempts
    decreases |cs|
  {
    if cs == [] then []
    else
      var n := |cs| - 1;
      var r := cs[n].result;
      StatusRows(cs[..n], rates[..n], maxAttempts) +
        [StatusView(r.target, r.status, r.responseTime, cs[n].at, rates[n], r.attempts, maxAttempts)]
  }

  /**
    The end-of-cycle pause `max(0, ping_interval - cycle_time)`: never negative,
    zero exactly when the cycle already took the interval, and otherwise the
    remainder of the interval, so a cycle and its pause together last at least
    the interval.
  */
  function CycleSleep(interval: int, elapsed: int): (s: int)
    ensures s >= 0
    ensures elapsed + s >= interval
    ensures s == 0 <==> elapsed >= interval
    ensures s > 0 ==> elapsed + s == interval
  {
    if interval - elapsed > 0 then interval - elapsed else 0
  }

  class PingMonitor {
    /** `self.targets`: the names probed each cycle. */
    var targets: seq<string>
    /** The `ping_targets` table, in insertion order. */
    var storedTargets: seq<string>
    /** The `ping_results` table. */
    var results: seq<Row>
    /** `self.ttl_days`, the retention setting. */
    var ttlDays: nat
    /**
      The retention the database applies after each insert: `Some(d)` when the
      trigger is installed and the cleanup function it calls deletes rows older
      than `d` days, `None` when no trigger is installed.
    */
    var retention: Option<nat>
    /** `self.ping_attempts`. */
    var pingAttempts: nat
    /** `self.message_queue`. */
    var queue: seq<Message>
    /** The log lines the UI loop has been handed. */
    var logLines: seq<Note>
    /** The status rows the UI loop has been handed. */
    var statusUpdates: seq<StatusView>

    /** Names are unique in the list and in the table, and every listed name is stored. */
    ghost predicate Valid()
      reads this
    {
      Distinct(targets) && Distinct(storedTargets) &&
      (forall t :: t in targets ==> t in storedTargets) &&
      ttlDays >= 1 && (retention.Some? ==> retention.value >= 1)
    }

    /**
      A monitor started against an existing database, before it initialises the
      database and loads its targets; `installed` is the retention the database
      already applies.
    */
    constructor (stored: seq<string>, rows: seq<Row>, installed: Option<nat>)
      requires Distinct(stored) && (installed.Some? ==> installed.value >= 1)
      ensures Valid()
      ensures targets == [] && storedTargets == stored && results == rows
      ensures ttlDays == DefaultTtlDays && retention == installed && pingAttempts == DefaultPingAttempts
      ensures queue == [] && logLines == [] && statusUpdates == []
    {
      targets := [];
      storedTargets := stored;
      results := rows;
      ttlDays := DefaultTtlDays;
      retention := installed;
      pingAttempts := DefaultPingAttempts;
      queue := [];
      logLines := [];
      statusUpdates := [];
    }

    /** `load_targets_from_db`: the list becomes the table's names in sorted order. */
    method LoadTargets(storeUp: bool)
      requires Valid()
      modifies this`targets
      ensures Valid()
      ensures storeUp ==> targets == SortTargets(storedTargets)
      ensures storeUp ==> Sorted(targets) && multiset(targets) == multiset(storedTargets)
      ensures !storeUp ==> targets == old(targets)
    {
      if storeUp {
        targets := SortTargets(storedTargets);
        forall t | t in targets ensures t in storedTargets {
          assert t in multiset(targets);
        }
      }
    }

    /**
      `add_target`: strip the entry; ignore it when blank or already listed;
      otherwise insert it into the table and, on success, append it to the list.
    */
    method AddTarget(entry: string, storeUp: bool) returns (outcome: AddOutcome)
      requires Valid()
      modifies this`targets, this`storedTargets
      ensures Valid()
      ensures var t := Strip(entry);
        outcome ==
          if t == [] then Blank
          else if t in old(targets) then AlreadyListed
          else if !storeUp || |t| > MaxTargetLength || '\0' in t then StoreError
          else if t in old(storedTargets) then AlreadyStored
          else Added
      ensures outcome == Added ==>
        targets == old(targets) + [Strip(entry)] && storedTargets == old(storedTargets) + [Strip(entry)]
      ensures outcome != Added ==> targets == old(targets) && storedTargets == old(storedTargets)
    {
      var target := Strip(entry);
      if target == [] {
        return Blank;
      }
      if target in targets {
        return AlreadyListed;
      }
      if !storeUp || |target| > MaxTargetLength || '\0' in target {
        return StoreError;
      }
      if target in storedTargets {
        return AlreadyStored;
      }
      storedTargets := storedTargets + [target];
      targets := targets + [target];
      outcome := Added;
    }

    /**
      `remove_target`: delete the selected name from both tables and from the
      list; the delete of its results commits together with it.
    */
    method RemoveTarget(selection: Option<nat>, storeUp: bool) returns (outcome: RemoveOutcome)
      requires Valid()
      requires selection.Some? ==> selection.value < |targets|
      modifies this`targets, this`storedTargets, this`results
      ensures Valid()
      ensures selection.None? ==> outcome == NoSelection
      ensures selection.Some? && !storeUp ==> outcome == RemoveFailed
      ensures !outcome.Removed? ==>
        targets == old(targets) && storedTargets == old(storedTargets) && results == old(results)
      ensures selection.Some? && storeUp ==>
        var i := selection.value;
        var t := old(targets)[i];
        outcome == Removed(t) &&
        targets == old(targets)[..i] + old(targets)[i + 1..] && t !in targets &&
        storedTargets == Erase(old(storedTargets), t) &&
        results == WithoutTarget(old(results), t)
    {
      if selection.None? {
        return NoSelection;
      }
      var index := selection.value;
      var target := targets[index];
      if !storeUp {
        return RemoveFailed;
      }
      storedTargets := Erase(storedTargets, target);
      results := WithoutTarget(results, target);
      var before := targets;
      targets := targets[..index] + targets[index + 1..];
      assert forall k :: 0 <= k < |targets| ==> targets[k] == before[if k < index then k else k + 1];
      assert target !in targets;
      outcome := Removed(target);
    }

    /**
      `initialize_database` with the current setting: of its statements, the
      first `statementsRun` succeed and commit (0 when the connection fails), and
      the one after them fails and ends the call. Replacing the cleanup function
      changes the horizon of a trigger that is installed; dropping the trigger stops
      retention until the trigger is created again.
    */
    method InitializeDatabase(statementsRun: nat)
      requires Valid()
      modifies this`retention
      ensures Valid()
      ensures statementsRun >= InitStatements ==> retention == Some(ttlDays)
      ensures statementsRun == DropTriggerStatement ==> retention == None
      ensures statementsRun == ReplaceFunctionStatement ==>
        retention == if old(retention).Some? then Some(ttlDays) else None
      ensures statementsRun < ReplaceFunctionStatement ==> retention == old(retention)
    {
      if statementsRun >= ReplaceFunctionStatement && retention.Some? {
        retention := Some(ttlDays);
      }
      if statementsRun >= DropTriggerStatement {
        retention := None;
      }
      if statementsRun >= InitStatements {
        retention := Some(ttlDays);
      }
    }

    /**
      `update_ttl`: change the retention setting and re-run `initialize_database`
      with it; a partial failure can leave the new horizon in force, or no trigger.
    */
    method UpdateTtl(days: nat, statementsRun: nat)
      requires Valid() && days >= 1
      modifies this`ttlDays, this`retention
      ensures Valid()
      ensures ttlDays == days
      ensures retention == old(retention) || retention == None || retention == Some(days)
      ensures statementsRun >= InitStatements ==> retention == Some(days)
      ensures statementsRun == DropTriggerStatement ==> retention == None
      ensures statementsRun == ReplaceFunctionStatement ==>
        retention == if old(retention).Some? then Some(days) else None
      ensures statementsRun < ReplaceFunctionStatement ==> retention == old(retention)
    {
      ttlDays := days;
      InitializeDatabase(statementsRun);
    }

    /**
      `save_ping_result`: insert the row stamped `now`, after which the database
      runs the retention trigger if one is installed. A failed write queues a
      database-error log line instead.
    */
    method SaveResult(r: PingResult, now: int, storeUp: bool)
      requires Valid()
      modifies this`results, this`queue
      ensures Valid()
      ensures storeUp ==> results == AfterInsert(old(results), RowOf(r, now), retention) && queue == old(queue)
      ensures storeUp ==> RowOf(r, now) in results
      ensures storeUp ==> forall row :: row in results ==> row in old(results) || row == RowOf(r, now)
      ensures storeUp && retention.Some? ==> forall row :: row in results ==> row.timestamp >= Cutoff(now, retention.value)
      ensures storeUp && retention.None? ==> forall row :: row in old(results) ==> row in results
      ensures !storeUp ==> results == old(results) && queue == old(queue) + [Log(DatabaseError)]
    {
      if storeUp {
        AfterInsertMembers(results, RowOf(r, now), retention);
        results := AfterInsert(results, RowOf(r, now), retention);
      } else {
        queue := queue + [Log(DatabaseError)];
      }
    }

    /**
      The handling of one completed probe in `ping_all_targets`: save it, read
      the target's success rate, and queue its status row and its log line.
    */
    method HandleResult(r: PingResult, now: int, saveUp: bool, rateUp: bool) returns (rate: real)
      requires Valid()
      modifies this`results, this`queue
      ensures Valid()
      ensures results == if saveUp then AfterInsert(old(results), RowOf(r, now), retention) else old(results)
      ensures rate == SuccessRate(results, r.target, now, rateUp)
      ensures queue == old(queue) + HandleMessages(r, now, saveUp, rate, pingAttempts)
      ensures saveUp && rateUp ==>
        var before := SuccessRate(old(results), r.target, now, true);
        if r.status then before <= rate else rate <= before
    {
      SaveResult(r, now, saveUp);
      rate := SuccessRate(results, r.target, now, rateUp);
      if saveUp && rateUp {
        SaveMovesRate(old(results), RowOf(r, now), now, retention);
      }
      queue := queue + [UpdateStatus(StatusView(r.target, r.status, r.responseTime, now, rate, r.attempts, pingAttempts))];
      queue := queue + [Log(Summary(r))];
    }

    /**
      The body of one cycle after dispatch: the completed probes, in completion
      order, each handled as above at its own instant.
    */
    method HandleCycle(completed: seq<Completion>) returns (rates: seq<real>)
      requires Valid()
      modifies this`results, this`queue
      ensures Valid()
      ensures results == StoreAfter(old(results), completed, retention)
      ensures rates == CycleRates(old(results), completed, retention)
      ensures queue == old(queue) + CycleMessages(completed, rates, pingAttempts)
      ensures Views(queue) == Views(old(queue)) + StatusRows(completed, rates, pingAttempts)
      ensures Notes(queue) == Notes(old(queue)) + CycleNotes(completed)
    {
      ghost var rows0, queue0 := results, queue;
      rates := [];
      for k := 0 to |completed|
        invariant Valid()
        invariant results == StoreAfter(rows0, completed[..k], retention)
        invariant rates == CycleRates(rows0, completed[..k], retention)
        invariant queue == queue0 + CycleMessages(completed[..k], rates, pingAttempts)
      {
        var c := completed[k];
        ghost var q := queue;
        var rate := HandleResult(c.result, c.at, c.saveUp, c.rateUp);
        CycleStep(rows0, queue0, q, completed, k, rates, rate, retention, pingAttempts);
        rates := rates + [rate];
      }
      assert completed[..|completed|] == completed;
      CycleDispatch(completed, rates, pingAttempts);
      DispatchConcat(queue0, CycleMessages(completed, rates, pingAttempts));
    }

    /**
      `check_queue`: pop every queued message in FIFO order and hand it to the
      log view or the status display according to its tag.
    */
    method CheckQueue()
      modifies this`queue, this`logLines, this`statusUpdates
      ensures queue == []
      ensures logLines == old(logLines) + Notes(old(queue))
      ensures statusUpdates == old(statusUpdates) + Views(old(queue))
    {
      ghost var pending := queue;
      ghost var taken := 0;
      while queue != []
        invariant 0 <= taken <= |pending| && queue == pending[taken..]
        invariant logLines == old(logLines) + Notes(pending[..taken])
        invariant statusUpdates == old(statusUpdates) + Views(pending[..taken])
        decreases |queue|
      {
        var message := queue[0];
        queue := queue[1..];
        assert pending[..taken + 1][..taken] == pending[..taken];
        assert pending[..taken + 1][taken] == message;
        match message {
          case Log(note) => logLines := logLines + [note];
          case UpdateStatus(view) => statusUpdates := statusUpdates + [view];
        }
        taken := taken + 1;
      }
      assert pending[..taken] == pending;
    }
  }

  /**
    The `k`-th completion of a cycle extends the table, the rates and the queue
    exactly as the cycle functions say.
  */
  lemma CycleStep(rows0: seq<Row>, queue0: seq<Message>, q: seq<Message>, cs: seq<Completion>, k: nat,
                  rates: seq<real>, rate: real, retention: Option<nat>, maxAttempts: nat)
    requires k < |cs| && |rates| == k
    requires q == queue0 + CycleMessages(cs[..k], rates, maxAttempts)
    ensures var c := cs[k];
      q + HandleMessages(c.result, c.at, c.saveUp, rate, maxAttempts) ==
        queue0 + CycleMessages(cs[..k + 1], rates + [rate], maxAttempts)
    ensures Saved(StoreAfter(rows0, cs[..k], retention), cs[k], retention) == StoreAfter(rows0, cs[..k + 1], retention)
    ensures rates == CycleRates(rows0, cs[..k], retention) ==>
      rates + [SuccessRate(StoreAfter(rows0, cs[..k + 1], retention), cs[k].result.target, cs[k].at, cs[k].rateUp)] ==
        CycleRates(rows0, cs[..k + 1], retention)
  {
    assert cs[..k + 1][..k] == cs[..k];
    assert (rates + [rate])[..k] == rates;
  }

  /** Draining a cycle's messages yields its status rows and its log lines. */
  lemma {:induction false} CycleDispatch(cs: seq<Completion>, rates: seq<real>, maxAttempts: nat)
    requires |rates| == |cs|
    ensures Views(CycleMessages(cs, rates, maxAttempts)) == StatusRows(cs, rates, maxAttempts)
    ensures Notes(CycleMessages(cs, rates, maxAttempts)) == CycleNotes(cs)
    decreases |cs|
  {
    if cs != [] {
      var n := |cs| - 1;
      var c := cs[n];
      var r := c.result;
      var view := StatusView(r.target, r.status, r.responseTime, c.at, rates[n], r.attempts, maxAttempts);
      var note := Summary(r);
      CycleDispatch(cs[..n], rates[..n], maxAttempts);
      DispatchConcat(CycleMessages(cs[..n], rates[..n], maxAttempts), HandleMessages(r, c.at, c.saveUp, rates[n], maxAttempts));
      ViewsOfTail(c.saveUp, view, note);
      NotesOfTail(c.saveUp, view, note);
    }
  }

  /** The `k`-th rate of a cycle is the rate of its target over the table just after the `k`-th save. */
  lemma {:induction false} CycleRatesAt(rows: seq<Row>, cs: seq<Completion>, retention: Option<nat>, k: nat)
    requires k < |cs|
    ensures CycleRates(rows, cs, retention)[k] ==
      SuccessRate(StoreAfter(rows, cs[..k + 1], retention), cs[k].result.target, cs[k].at, cs[k].rateUp)
    decreases |cs|
  {
    var n := |cs| - 1;
    if k < n {
      CycleRatesAt(rows, cs[..n], retention, k);
      assert cs[..n][..k + 1] == cs[..k + 1];
    } else {
      assert cs[..k + 1] == cs;
    }
  }

  /** Every rate a cycle reads lies between 0 and 100. */
  lemma CycleRatesInRange(rows: seq<Row>, cs: seq<Completion>, retention: Option<nat>)
    ensures forall k :: 0 <= k < |cs| ==> 0.0 <= CycleRates(rows, cs, retention)[k] <= 100.0
  {
    forall k | 0 <= k < |cs|
      ensures 0.0 <= CycleRates(rows, cs, retention)[k] <= 100.0
    {
      CycleRatesAt(rows, cs, retention, k);
    }
  }

  /** The messages one handled probe queues carry exactly one status row. */
  lemma ViewsOfTail(saved: bool, v: StatusView, n: Note)
    ensures Views((if saved then [] else [Log(DatabaseError)]) + [UpdateStatus(v), Log(n)]) == [v]
  {
    var q := (if saved then [] else [Log(DatabaseError)]) + [UpdateStatus(v), Log(n)];
    var q1 := q[..|q| - 1];
    var q2 := q1[..|q1| - 1];
    assert q[|q| - 1] == Log(n);
    assert q1[|q1| - 1] == UpdateStatus(v);
    if saved {
      assert q2 == [];
    } else {
      assert q2 == [Log(DatabaseError)];
      assert q2[..0] == [];
      assert Views(q2) == [];
    }
    assert Views(q1) == Views(q2) + [v];
    assert Views(q) == Views(q1);
  }

  /** The messages one handled probe queues carry its log lines: a database error when the save failed, then its summary. */
  lemma NotesOfTail(saved: bool, v: StatusView, n: Note)
    ensures Notes((if saved then [] else [Log(DatabaseError)]) + [UpdateStatus(v), Log(n)]) ==
      (if saved then [] else [DatabaseError]) + [n]
  {
    var q := (if saved then [] else [Log(DatabaseError)]) + [UpdateStatus(v), Log(n)];
    var q1 := q[..|q| - 1];
    var q2 := q1[..|q1| - 1];
    assert q[|q| - 1] == Log(n);
    assert q1[|q1| - 1] == UpdateStatus(v);
    if saved {
      assert q2 == [];
    } else {
      assert q2 == [Log(DatabaseError)];
      assert q2[..0] == [];
      assert Notes(q2) == [DatabaseError];
    }
    assert Notes(q1) == Notes(q2);
    assert Notes(q) == Notes(q1) + [n];
  }
}
