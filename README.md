# Ping monitor engine, modelled in Dafny

A model of the sequential logic inside the `PingMonitorApp` class in `ping.py`. This is a desktop tool that pings a list of hosts on a fixed cadence. It stores every outcome in PostgreSQL and shows a rolling 24-hour success rate per host. The network, the resolver, the database connection and the clocks are replaced by explicit inputs. What is left is deterministic and is proved here:

- **Prober** (`prober.dfy`) models `reliable_ping`, a bounded retry loop, against an oracle. For every attempt the oracle says three things: what the check of the literal target returns (a latency, no reply, or an exception); what `gethostbyname` returns (an address, `gaierror`, or another exception); and what the fallback check of the resolved address returns. `ReliablePing` is the imperative `for` loop with its early `break`. It returns the outcome record and the trace of checks, resolutions, logged failures and 500 ms back-off sleeps it issues. Its contract ties both to the reference function `Probe`, and the lemmas prove the retry policy from `Probe`.
- **Text** (`text.dfy`) holds Python's no-argument `str.strip()`, with the whitespace set of `str.isspace()` written out. It also holds the code-point lexicographic order and the sort behind `ORDER BY target`.
- **Store** (`store.dfy`) models the `ping_results` table as a sequence of rows. It covers the deletions the program issues (by target, and by the retention trigger), the 24-hour window counts, and the success rate over exact reals.
- **Monitor** (`monitor.dfy`) is the class `PingMonitor`. It holds the in-memory target list, the `ping_targets` and `ping_results` tables, the retention horizon, `message_queue`, and what the UI loop was handed. Its methods are the registry operations, the result insert with its `AFTER INSERT` trigger, the per-result handling of a cycle, and the FIFO drain of `check_queue`. It also holds the end-of-cycle sleep formula.

Every transactional database call takes a boolean `storeUp`: true when the connection and the statements succeed. A failed call commits nothing, as the source's uncommitted transactions do. `initialize_database` is different: it runs on an autocommit connection (ping.py:259), so every statement that succeeds before a failure stays committed. It takes the number of its statements that succeed, and the trigger state is `Some(days)` or `None` (no trigger installed). Timestamps are integers in seconds. `INTERVAL 'n days'` is `n * 86400` seconds.

Where the code and the design description disagree, the model follows the code:

- On total failure `attempts` is 0. It is not the attempt ceiling (ping.py:455, 492).
- Resolution is attempted after every primary check that returns `None`, literal addresses included. Only the comparison `ip_addr != target` decides whether a fallback check is issued (ping.py:465-471). A primary check that raises skips resolution and goes straight to the log line (ping.py:479-480).
- A failed history purge is not separate from the registry removal: both deletes commit together or not at all (ping.py:423-434).
- `add_target` appends the new target to the in-memory list (ping.py:387). The list is in `ORDER BY target` order only right after a load, not after additions.
- A failed save does not skip the cycle item: the rate is still read and the status row and the summary line are still queued, after the database-error line (ping.py:513-535).

## Model

| member | source | states |
|---|---|---|
| Prober.ReliablePing | ping.py:454-494 | The imperative retry loop yields exactly the outcome and trace of the reference `Probe`, for every oracle and attempt ceiling |
| Prober.TryAttempt | ping.py:461-480 | The imperative try block of one attempt issues exactly the checks, resolution and log line of `Attempt`, and yields its latency |
| Prober.Attempt | ping.py:461-480 | One attempt gets a latency iff the primary check replies, or it gets no reply, resolution gives a different address and that check replies. The latency is the one of the check that replied. A log line is written iff an exception other than `gaierror` was raised |
| Prober.AttemptChecks | ping.py:469-477 | An attempt issues a second (fallback) check iff the primary check got no reply and resolution yielded an address different from the target. That check goes to the resolved address. A resolution failure ends the attempt after one check. No sleep happens inside an attempt |
| Prober.Probe | ping.py:454-494 | The reference loop returns a record for the target with at most the ceiling of attempts. `status` holds iff there is a latency, and iff `attempts` is at least 1. On failure `attempts` is 0 |
| Prober.Slot | ping.py:461-483 | One attempt's events start with the check of the target. They end in a back-off sleep iff the attempt got no latency and was not the last one |
| Prober.ProbeTraceFrom | ping.py:461-483 | The trace is the slots up to the deciding attempt, or all slots on failure |
| Prober.ProbeFrom | ping.py:455-492 | Full characterisation. On success, `attempts` is the 1-based index of the first attempt that hits, no earlier attempt hits, the latency is that attempt's, and the trace is the slots up to it. On failure, no attempt hits, `attempts == 0`, there is no latency, and the trace is all slots |
| Prober.SuccessAtAttempt | ping.py:460-475 | A first success in attempt k gives `status`, `attempts == k` and that latency. The trace is the slots of attempts 1..k only |
| Prober.TotalFailure | ping.py:455-492 | No hit in any attempt gives `status == false`, `response_time == None` and `attempts == 0` |
| Prober.LaterAttemptsIgnored | ping.py:464-475 | After a success in attempt k, the oracle answers of later attempts have no influence: no later check is issued |
| Prober.SleepsBetweenAttempts | ping.py:482-483 | With n ≥ 1 attempts, the number of back-off sleeps is the number of attempts made minus one. The trace never ends in a sleep: there is none after a success and none after the last attempt |
| Prober.SleepsInSlots | ping.py:482-483 | Attempts before the deciding one each contribute exactly one sleep |
| Prober.LastOfSlots | ping.py:466-483 | The events up to the deciding attempt are non-empty and do not end in a sleep |
| Prober.FallbackOnlyAfterResolution | ping.py:469-475 | Every check of a host other than the target goes to an address that resolution returned after a primary check got no reply |
| Text.TrimStart | ping.py:369 | Removes exactly the leading whitespace, as `IsSpace` (the `str.isspace()` set) defines it: the result is a suffix that does not start with whitespace, and all removed characters are whitespace |
| Text.TrimEnd | ping.py:369 | Removes exactly the trailing whitespace: the result is a prefix that does not end with whitespace, and all removed characters are whitespace |
| Text.Strip | ping.py:369 | `str.strip()`, with whitespace as `IsSpace` defines it: an infix of the input, neither starting nor ending with whitespace, with only whitespace cut from either end |
| Text.StripBlank | ping.py:369-371 | The stripped entry is empty iff the input is empty or whitespace-only |
| Text.StripIdempotent | ping.py:369 | Stripping a stripped name changes nothing |
| Text.LexLeTotal | ping.py:343 | The name order is total |
| Text.LexLeAntisymmetric | ping.py:343 | The name order is antisymmetric |
| Text.LexLeTransitive | ping.py:343 | The name order is transitive |
| Text.Insert | ping.py:343 | Insertion adds exactly one copy of the name to the multiset |
| Text.InsertSorted | ping.py:343 | Insertion keeps a list sorted |
| Text.InsertDistinct | ping.py:343 | Inserting a new name keeps a list duplicate-free |
| Text.SortTargets | ping.py:343-344 | `ORDER BY target` returns a sorted permutation of the table. The result is duplicate-free when the table is, as the UNIQUE column makes it |
| Text.SortedDistinctIsStrict | ping.py:343-344 | A loaded target list is strictly increasing |
| Text.Erase | ping.py:423-426 | `DELETE ... WHERE target = t` leaves exactly the other names and keeps them distinct |
| Store.Keep | ping.py:428-432 | A `WHERE` filter never returns more rows than the table holds |
| Store.KeepCounts | ping.py:428-432 | A filter keeps exactly the rows satisfying the condition, each with its multiplicity in the table |
| Store.KeepMembers | ping.py:428-432 | A row survives a filter iff it is in the table and satisfies the condition |
| Store.KeepConcat | ping.py:549-560 | Filtering distributes over appending rows |
| Store.PurgeCounts | ping.py:429-432 | `DELETE ... WHERE target = t` leaves exactly the rows of other targets, with their multiplicities |
| Store.RetainedCounts | ping.py:298-299 | The trigger's delete leaves exactly the rows stamped at or after the cutoff, with their multiplicities |
| Store.WindowCounts | ping.py:574-578 | The 24-hour window of `t` holds exactly the rows of `t` stamped at or after its start, with their multiplicities |
| Store.AfterInsertMembers | ping.py:294-314 | About `AfterInsert`, the table after an insert and its trigger: after an insert and its trigger, the new row is present and every row was there before or is the new one. Without a trigger, no row is lost. With one, an old row survives iff it is not older than the horizon, and no older row remains |
| Store.KeepStronger | ping.py:574-578 | Filtering twice, the second time by a stronger condition, equals filtering once by it |
| Store.CountInWindow | ping.py:574-591 | The successful count in the 24-hour window never exceeds the total count |
| Store.Percent | ping.py:593 | `success/total*100` lies in [0,100]. It is 100 iff all rows succeeded and 0 iff none did |
| Store.SuccessRate | ping.py:568-597 | The rate lies in [0,100]. It is 0 when the store fails or the window has no row of the target. Otherwise rate·total = 100·success. It is 100 iff every windowed row succeeded |
| Store.PurgedTargetHasNoRate | ping.py:428-432 | After a target's rows are deleted, its window counts are (0,0) and its rate is 0 |
| Store.PurgeKeepsOthers | ping.py:428-432 | Deleting one target's rows leaves every other target's window unchanged |
| Store.RetentionKeepsWindow | ping.py:294-303 | With a horizon of at least one day, the retention delete never removes a row from a 24-hour window |
| Store.SaveAddsToWindow | ping.py:542-560 | Inserting a row stamped now, then running the trigger if one is installed, adds exactly one row to its target's window, and one success iff the row is a success |
| Store.WindowAfterSave | ping.py:542-560 | Inserting a row stamped now, then running the trigger if one is installed, appends exactly that row to its target's 24-hour window |
| Store.PercentStep | ping.py:593 | One more success never lowers the percentage; one more failure never raises it |
| Store.SaveMovesRate | ping.py:542-593 | Recording a success never lowers its target's rate; recording a failure never raises it |
| Monitor.DispatchMembers | ping.py:662-669 | A note reaches the log view iff it was queued as a log message, and a status row reaches the display iff it was queued as a status message |
| Monitor.DispatchIsTotal | ping.py:662-669 | Every drained message goes to exactly one of the log view and the status display |
| Monitor.DispatchConcat | ping.py:662-671 | Draining in two batches delivers what one drain would, in FIFO order |
| Monitor.CycleSleep | ping.py:537-539 | The pause is never negative. It is zero iff the cycle took at least the interval. Otherwise cycle plus pause equals the interval, so a cycle with its pause lasts at least the interval |
| Monitor.ViewsOfTail | ping.py:523-535 | About `HandleMessages`: one handled probe queues exactly one status row |
| Monitor.RowOf | ping.py:547-560 | The inserted row records the whole probe outcome, which can be read back from it, and carries the insert's instant |
| Monitor.PingMonitor.constructor | ping.py:71-80 | Starts with an empty list over the existing tables and the trigger state the database already has, a 30-day setting, 2 attempts and an empty queue |
| Monitor.PingMonitor.InitializeDatabase | ping.py:255-323 | Each statement commits on its own. All statements succeeding installs the trigger with the current setting. Failing at the trigger creation leaves no trigger. Failing at the drop leaves an installed trigger with the new horizon, because the function it calls was replaced. Failing earlier changes nothing |
| Monitor.PingMonitor.LoadTargets | ping.py:338-366 | On success, the list becomes the table's names in sorted order. On failure it is unchanged. Names stay unique |
| Monitor.PingMonitor.AddTarget | ping.py:368-408 | Blank input and a listed name are ignored. A database failure, an over-long name or a name holding a NUL character changes nothing. A name the table already holds is rejected. Otherwise the stripped name is appended, once, to both the table and the list. Names stay unique |
| Monitor.PingMonitor.RemoveTarget | ping.py:410-452 | On success, the selected name leaves the list and the table, and every result row of it is deleted. Other names keep their order and other rows stay. On failure or with no selection nothing changes |
| Monitor.PingMonitor.UpdateTtl | ping.py:255-327 | The setting changes and the database is re-initialised with it. Afterwards the trigger state is the old one, none, or the new horizon, as `InitializeDatabase` states for each failure point |
| Monitor.PingMonitor.SaveResult | ping.py:542-566 | After a successful insert the new row is present and no other row is added. With a trigger installed, no row older than now minus its horizon remains. Without one, no row is deleted. A failed insert queues a database-error log line and changes nothing else |
| Monitor.PingMonitor.HandleResult | ping.py:504-535 | Saves, reads the rate after the save, and queues the status row and the summary line in that order. A success never lowers the rate and a failure never raises it |
| Monitor.PingMonitor.HandleCycle | ping.py:504-535 | Each completion is handled at its own instant, in completion order. The table is the result of all its saves. Rate `k` is read after save `k`. The queue gains exactly the cycle's messages. The status display gets one row per completion, and the log gets each completion's database-error line, if any, and then its summary |
| Monitor.StatusRows | ping.py:523-535 | One status row per completion, in order. Each carries that probe's target, status, latency and attempts, its rate, its instant and the attempt ceiling |
| Monitor.CycleNotes | ping.py:504-535 | A cycle logs at least one and at most two lines per completion |
| Monitor.CycleSummaries | ping.py:504-535 | Every completion of a cycle has its summary line (target, status, latency, attempts) among the cycle's log lines |
| Monitor.CycleErrors | ping.py:504-535 | A cycle logs a database-error line iff the save of at least one of its completions failed |
| Monitor.CycleStep | ping.py:504-535 | Handling one more completion extends the table, the rates and the queue exactly as the cycle's definitions say |
| Monitor.CycleDispatch | ping.py:523-535 | Draining a cycle's messages gives exactly its status rows and its log lines |
| Monitor.CycleRates | ping.py:513-516 | A cycle reads exactly one rate per completion |
| Monitor.CycleRatesAt | ping.py:513-516 | About `CycleRates`: the `k`-th rate of a cycle is its target's rate over the table just after the `k`-th save, reflecting every earlier save of the cycle |
| Monitor.CycleRatesInRange | ping.py:568-597 | Every rate a cycle reads lies between 0 and 100 |
| Monitor.NotesOfTail | ping.py:531-535 | About `HandleMessages`: one handled probe queues its database-error line, if its save failed, and then its summary line |
| Monitor.PingMonitor.CheckQueue | ping.py:662-671 | Empties the queue. It hands every log note and every status row to the UI, in FIFO order |

## Left out

- The Tkinter UI (theme, layout, list box, status tree, message boxes, button states, `log` and `update_status_display`) is presentation. `CheckQueue` records what it hands to the log view and the status display.
- The list box is assumed to mirror `self.targets`, as `add_target`, `remove_target` and `load_targets_from_db` keep it. `RemoveTarget` takes the selection as an index into the list.
- Schema creation in `initialize_database` is left out: the tables and indexes are assumed to exist, so statements 1-4 only count towards the failure point. The constructor takes the trigger state the database already has. The startup sequence is the constructor, then `InitializeDatabase`, then `LoadTargets`.
- The psycopg2 connection, the database credentials, and the difference between connection and statement errors are left out. Only whether a call fails is modelled.
- `ping3.ping` and `socket.gethostbyname` are foreign network calls and are not part of this model. They appear only as oracle answers, with the timeout left out. An exception from the fallback check that is a `gaierror` is swallowed at ping.py:476, so the oracle gives it as `NoReply`; `Raised` there is any other exception. A return value of `ping3.ping` other than a latency or `None` is not modelled. ping3 returns `False` on some errors, such as an unknown host, and the source's `is not None` test counts that as a reply, so such a host is reported reachable; the model's oracle cannot express that answer.
- Threads, the worker pool, `as_completed`, `start_monitoring`, `stop_monitoring` and `on_closing` are concurrency and lifecycle. `HandleCycle` takes the completed probes in their completion order. The outer `while not self.stop_ping` loop and the repeated `root.after(100, ...)` scheduling are left out.
- Real clocks and sleeps are left out. The prober records a sleep in its trace. Within the handling of one completed probe, the database's `NOW()` of the insert, of the rate query and the display timestamp are one integer instant. Each completion of a cycle has its own instant. Daylight-saving transitions are left out: a day is always 86400 seconds.
- The log lines of `initialize_database` and `get_success_rate` go through `log` from the calling thread, not through the queue, and are left out, as is the error dialog of `initialize_database`. A failed rate query reads as rate 0.
- Floating point is left out. Latencies and the rate are exact reals. The display formatting of latency, rate and attempts, and the `duration` field, are left out.
- Text.SortTargets: uses code-point order. PostgreSQL sorts by the database collation, which may order names differently.
- The setters `update_attempts` and `update_timeout` only copy a UI value into a field. They are left out; `pingAttempts` keeps its default.
