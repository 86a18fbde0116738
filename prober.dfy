/**
  The retry-and-fallback probe policy of `PingMonitorApp.reliable_ping`.

  The network and the resolver are replaced by an oracle: for every attempt an
  `AttemptEnv` says what the check against the literal target returns, what name
  resolution returns and what the check against the resolved address returns.
  The model produces the outcome record together with the trace of the checks,
  resolutions, logged failures and back-off sleeps it issued, in order.
*/
module Prober {
  import opened Common

  /** The pause between two attempts, in milliseconds (`time.sleep(0.5)`). */
  const BackoffMs: nat := 500

  /**
    What one reachability check returns: a latency, no reply (`None`), or an
    exception. For the fallback check, which sits inside the `except
    socket.gaierror` block, `Raised` is an exception other than `gaierror`; a
    `gaierror` there is swallowed and leaves no latency, so it is `NoReply`.
  */
  datatype CheckResult = Reply(latency: real) | NoReply | Raised

  /** What name resolution returns: an address, `socket.gaierror`, or another exception. */
  datatype Resolution = Resolved(addr: string) | GaiError | ResolveRaised

  /** The oracle's answers for one attempt. */
  datatype AttemptEnv = AttemptEnv(primary: CheckResult, resolution: Resolution, secondary: CheckResult)

  /** Observable actions of the prober. `Logged(i)` is the log line of attempt `i` (0-based). */
  datatype Event = Check(host: string) | Resolve(host: string) | Logged(attempt: nat) | Sleep(ms: nat)

  /** The record `reliable_ping` returns (the display-only `duration` is left out). */
  datatype PingResult = PingResult(target: string, status: bool, responseTime: Option<real>, attempts: nat)

  /** The effect of one loop body up to (not including) its back-off sleep. */
  datatype AttemptRun = AttemptRun(hit: Option<real>, events: seq<Event>)

  /** A whole probe: the outcome and the trace of events. */
  datatype ProbeRun = ProbeRun(result: PingResult, trace: seq<Event>)

  function CountChecks(ev: seq<Event>): (n: nat)
    ensures n <= |ev|
  {
    if ev == [] then 0 else (if ev[0].Check? then 1 else 0) + CountChecks(ev[1..])
  }

  function CountSleeps(ev: seq<Event>): (n: nat)
    ensures n <= |ev|
  {
    if ev == [] then 0 else (if ev[0].Sleep? then 1 else 0) + CountSleeps(ev[1..])
  }

  /**
    One attempt: check the literal target; on no reply resolve the name and, only
    when the resolved address differs from the target, check that address too.
    A `gaierror` ends the attempt silently; any other exception ends it with a log line.
  */
  function Attempt(target: string, index: nat, e: AttemptEnv): (a: AttemptRun)
    ensures |a.events| >= 1 && a.events[0] == Check(target)
    ensures a.hit.Some? <==>
      e.primary.Reply? ||
      (e.primary.NoReply? && e.resolution.Resolved? && e.resolution.addr != target && e.secondary.Reply?)
    ensures e.primary.Reply? ==> a.hit == Some(e.primary.latency)
    ensures !e.primary.Reply? && a.hit.Some? ==> a.hit == Some(e.secondary.latency)
    // a log line is written exactly when an exception other than gaierror was raised
    ensures Logged(index) in a.events <==>
      e.primary.Raised? ||
      (e.primary.NoReply? && (e.resolution.ResolveRaised? ||
        (e.resolution.Resolved? && e.resolution.addr != target && e.secondary.Raised?)))
  {
    match e.primary
    case Reply(l) => AttemptRun(Some(l), [Check(target)])
    case Raised => AttemptRun(None, [Check(target), Logged(index)])
    case NoReply =>
      match e.resolution
      case GaiError => AttemptRun(None, [Check(target), Resolve(target)])
      case ResolveRaised => AttemptRun(None, [Check(target), Resolve(target), Logged(index)])
      case Resolved(ip) =>
        if ip == target then AttemptRun(None, [Check(target), Resolve(target)])
        else
          match e.secondary
          case Reply(l) => AttemptRun(Some(l), [Check(target), Resolve(target), Check(ip)])
          case NoReply => AttemptRun(None, [Check(target), Resolve(target), Check(ip)])
          case Raised => AttemptRun(None, [Check(target), Resolve(target), Check(ip), Logged(index)])
  }

  /**
    Within one attempt: one check against the target, and a second (fallback) check,
    against the resolved address, exactly when the primary check got no reply and
    resolution yielded an address different from the target. No attempt sleeps inside.
  */
  lemma AttemptChecks(target: string, index: nat, e: AttemptEnv)
    ensures var a := Attempt(target, index, e);
      (CountChecks(a.events) == 2 <==>
        e.primary.NoReply? && e.resolution.Resolved? && e.resolution.addr != target) &&
      (CountChecks(a.events) == 2 ==> |a.events| >= 3 && a.events[2] == Check(e.resolution.addr)) &&
      (CountChecks(a.events) == 1 || CountChecks(a.events) == 2) &&
      CountSleeps(a.events) == 0
  {
    var ev := Attempt(target, index, e).events;
    CountsOfShort(ev);
  }

  /** Event counts of a trace of at most four events, spelled out. */
  lemma CountsOfShort(ev: seq<Event>)
    requires 1 <= |ev| <= 4
    ensures CountChecks(ev) ==
      (if ev[0].Check? then 1 else 0) + (if |ev| > 1 && ev[1].Check? then 1 else 0) +
      (if |ev| > 2 && ev[2].Check? then 1 else 0) + (if |ev| > 3 && ev[3].Check? then 1 else 0)
    ensures CountSleeps(ev) ==
      (if ev[0].Sleep? then 1 else 0) + (if |ev| > 1 && ev[1].Sleep? then 1 else 0) +
      (if |ev| > 2 && ev[2].Sleep? then 1 else 0) + (if |ev| > 3 && ev[3].Sleep? then 1 else 0)
  {
    var t1 := ev[1..];
    if |ev| > 1 {
      var t2 := t1[1..];
      assert t2 == ev[2..];
      if |ev| > 2 {
        var t3 := t2[1..];
        assert t3 == ev[3..];
        if |ev| > 3 {
          assert t3[1..] == [];
        } else {
          assert t3 == [];
        }
      } else {
        assert t2 == [];
      }
    } else {
      assert t1 == [];
    }
  }

  /** Whether attempt `j` gets a latency. */
  predicate Hits(target: string, env: seq<AttemptEnv>, j: nat)
    requires j < |env|
  {
    Attempt(target, j, env[j]).hit.Some?
  }

  /** No attempt before `k` gets a latency. */
  predicate NoHitBefore(target: string, env: seq<AttemptEnv>, k: nat)
    requires k <= |env|
  {
    forall j :: 0 <= j < k ==> !Hits(target, env, j)
  }

  /** The events of attempt `j` of `n`, followed by its back-off sleep when one is due. */
  function Slot(target: string, n: nat, env: seq<AttemptEnv>, j: nat): (s: seq<Event>)
    requires j < n <= |env|
    ensures |s| >= 1 && s[0] == Check(target)
    ensures s[|s| - 1].Sleep? <==> !Hits(target, env, j) && j < n - 1
  {
    var a := Attempt(target, j, env[j]);
    a.events + (if a.hit.None? && j < n - 1 then [Sleep(BackoffMs)] else [])
  }

  /** The concatenated slots of attempts `i` up to (excluding) `k`. */
  function Slots(target: string, n: nat, env: seq<AttemptEnv>, i: nat, k: nat): seq<Event>
    requires i <= k <= n <= |env|
    decreases k - i
  {
    if i == k then [] else Slot(target, n, env, i) + Slots(target, n, env, i + 1, k)
  }

  /**
    The probe from attempt `i` on, the reference definition of the `for` loop:
    the first attempt that gets a latency ends the probe with `attempts` set to its
    1-based number; running out of attempts leaves `attempts` at 0.
  */
  function Probe(target: string, n: nat, env: seq<AttemptEnv>, i: nat): (p: ProbeRun)
    requires i <= n <= |env|
    ensures p.result.target == target && p.result.attempts <= n
    ensures p.result.status <==> p.result.responseTime.Some?
    ensures p.result.status ==> i < p.result.attempts
    ensures !p.result.status ==> p.result.attempts == 0
    decreases n - i
  {
    if i == n then ProbeRun(PingResult(target, false, None, 0), [])
    else
      var a := Attempt(target, i, env[i]);
      if a.hit.Some? then ProbeRun(PingResult(target, true, a.hit, i + 1), a.events)
      else
        var rest := Probe(target, n, env, i + 1);
        ProbeRun(rest.result, Slot(target, n, env, i) + rest.trace)
  }

  /** The number of attempts `reliable_ping` actually performed. */
  function Made(r: PingResult, n: nat): nat {
    if r.status then r.attempts else n
  }

  /**
    Characterisation of `Probe` from attempt `i`: either the first hit at or after `i`
    decides the outcome and the trace is the slots up to it, or no attempt from `i`
    on hits and the outcome is the failure record.
  */
  lemma {:induction false} ProbeFrom(target: string, n: nat, env: seq<AttemptEnv>, i: nat)
    requires i <= n <= |env|
    ensures Probe(target, n, env, i).result.target == target
    ensures var r := Probe(target, n, env, i).result;
      r.status ==>
        i + 1 <= r.attempts <= n &&
        Hits(target, env, r.attempts - 1) &&
        (forall j :: i <= j < r.attempts - 1 ==> !Hits(target, env, j)) &&
        r.responseTime == Attempt(target, r.attempts - 1, env[r.attempts - 1]).hit &&
        Probe(target, n, env, i).trace == Slots(target, n, env, i, r.attempts)
    ensures var r := Probe(target, n, env, i).result;
      !r.status ==>
        r.attempts == 0 && r.responseTime == None &&
        (forall j :: i <= j < n ==> !Hits(target, env, j)) &&
        Probe(target, n, env, i).trace == Slots(target, n, env, i, n)
    decreases n - i
  {
    ProbeTraceFrom(target, n, env, i);
    if i < n && !Hits(target, env, i) {
      ProbeFrom(target, n, env, i + 1);
    }
  }

  /** The trace of `Probe` from attempt `i` is the slots up to the deciding attempt, or all slots. */
  lemma {:induction false} ProbeTraceFrom(target: string, n: nat, env: seq<AttemptEnv>, i: nat)
    requires i <= n <= |env|
    ensures var p := Probe(target, n, env, i);
      p.trace == Slots(target, n, env, i, if p.result.status then p.result.attempts else n)
    decreases n - i
  {
    if i < n {
      assert Slots(target, n, env, i + 1, i + 1) == [];
      if !Hits(target, env, i) {
        ProbeTraceFrom(target, n, env, i + 1);
      }
    }
  }

  /**
    A first success in attempt `k` (1-based): the outcome is reachable with that
    latency and `attempts == k`, and the trace is exactly the slots of attempts
    1..k, so nothing of any later attempt is issued.
  */
  lemma SuccessAtAttempt(target: string, n: nat, env: seq<AttemptEnv>, k: nat)
    requires 1 <= k <= n <= |env|
    requires NoHitBefore(target, env, k - 1) && Hits(target, env, k - 1)
    ensures var p := Probe(target, n, env, 0);
      p.result.status && p.result.attempts == k &&
      p.result.responseTime == Attempt(target, k - 1, env[k - 1]).hit &&
      p.trace == Slots(target, n, env, 0, k)
  {
    ProbeFrom(target, n, env, 0);
    assert Hits(target, env, k - 1);
  }

  /** When no attempt gets a latency the outcome is unreachable, without latency, with `attempts == 0`. */
  lemma TotalFailure(target: string, n: nat, env: seq<AttemptEnv>)
    requires n <= |env|
    requires NoHitBefore(target, env, n)
    ensures var p := Probe(target, n, env, 0);
      !p.result.status && p.result.responseTime == None && p.result.attempts == 0 &&
      p.trace == Slots(target, n, env, 0, n)
  {
    ProbeFrom(target, n, env, 0);
  }

  /** The outcome depends only on the oracle answers of the attempts actually made. */
  lemma {:induction false} LaterAttemptsIgnored(target: string, n: nat, env: seq<AttemptEnv>, env': seq<AttemptEnv>, i: nat, k: nat)
    requires i <= k <= n <= |env| && n <= |env'|
    requires env[..k] == env'[..k]
    requires Probe(target, n, env, i).result.status && Probe(target, n, env, i).result.attempts == k
    ensures Probe(target, n, env', i) == Probe(target, n, env, i)
    decreases n - i
  {
    ProbeFrom(target, n, env, i);
    assert env[i] == env[..k][i] == env'[..k][i] == env'[i];
    if Attempt(target, i, env[i]).hit.None? {
      LaterAttemptsIgnored(target, n, env, env', i + 1, k);
      assert Slot(target, n, env, i) == Slot(target, n, env', i);
    }
  }

  lemma {:induction false} CountSleepsConcat(a: seq<Event>, b: seq<Event>)
    ensures CountSleeps(a + b) == CountSleeps(a) + CountSleeps(b)
  {
    if a != [] {
      assert (a + b)[0] == a[0];
      assert (a + b)[1..] == a[1..] + b;
      CountSleepsConcat(a[1..], b);
    } else {
      assert a + b == b;
    }
  }

  /** Slots `i..k` up to a decisive attempt `k` hold one sleep per attempt before it. */
  lemma {:induction false} SleepsInSlots(target: string, n: nat, env: seq<AttemptEnv>, i: nat, k: nat)
    requires i < k <= n <= |env|
    requires forall j :: i <= j < k - 1 ==> !Hits(target, env, j)
    requires k == n || Hits(target, env, k - 1)
    ensures CountSleeps(Slots(target, n, env, i, k)) == k - i - 1
    decreases k - i
  {
    CountSleepsConcat(Slot(target, n, env, i), Slots(target, n, env, i + 1, k));
    AttemptChecks(target, i, env[i]);
    CountSleepsConcat(Attempt(target, i, env[i]).events,
      if Attempt(target, i, env[i]).hit.None? && i < n - 1 then [Sleep(BackoffMs)] else []);
    if i + 1 < k {
      assert !Hits(target, env, i);
      SleepsInSlots(target, n, env, i + 1, k);
    } else {
      assert Slots(target, n, env, i + 1, k) == [];
    }
  }

  lemma {:induction false} LastOfSlots(target: string, n: nat, env: seq<AttemptEnv>, i: nat, k: nat)
    requires i < k <= n <= |env|
    requires k == n || Hits(target, env, k - 1)
    ensures var s := Slots(target, n, env, i, k); s != [] && !s[|s| - 1].Sleep?
    decreases k - i
  {
    if i + 1 < k {
      LastOfSlots(target, n, env, i + 1, k);
    } else {
      assert Slots(target, n, env, i + 1, k) == [];
    }
  }

  /**
    Back-off sleeps happen only between attempts: a probe of `n >= 1` attempts sleeps
    once fewer than the attempts it made, and its trace never ends with a sleep
    (no sleep after a success and none after the final attempt).
  */
  lemma SleepsBetweenAttempts(target: string, n: nat, env: seq<AttemptEnv>)
    requires 1 <= n <= |env|
    ensures var p := Probe(target, n, env, 0);
      1 <= Made(p.result, n) <= n &&
      CountSleeps(p.trace) == Made(p.result, n) - 1 &&
      p.trace != [] && !p.trace[|p.trace| - 1].Sleep?
  {
    ProbeFrom(target, n, env, 0);
    var p := Probe(target, n, env, 0);
    var k := Made(p.result, n);
    SleepsInSlots(target, n, env, 0, k);
    LastOfSlots(target, n, env, 0, k);
  }

  /** A fallback check of a host other than the target only ever targets an address resolution returned. */
  lemma {:induction false} FallbackOnlyAfterResolution(target: string, n: nat, env: seq<AttemptEnv>, i: nat, h: string)
    requires i <= n <= |env|
    requires Check(h) in Probe(target, n, env, i).trace && h != target
    ensures exists j :: i <= j < n && env[j].primary.NoReply? && env[j].resolution == Resolved(h)
    decreases n - i
  {
    if i < n {
      var a := Attempt(target, i, env[i]);
      var e := env[i];
      if Check(h) in a.events {
        assert !(e.primary.Reply? || e.primary.Raised?);
        assert e.resolution.Resolved?;
      } else {
        assert a.hit.None?;
        FallbackOnlyAfterResolution(target, n, env, i + 1, h);
      }
    }
  }

  /**
    The body of one attempt of `reliable_ping`: the primary check, and on no reply the
    resolution and the fallback check, inside one try block whose handler logs the attempt
    unless the exception is a `gaierror`.
  */
  method TryAttempt(target: string, index: nat, e: AttemptEnv) returns (hit: Option<real>, ev: seq<Event>)
    ensures AttemptRun(hit, ev) == Attempt(target, index, e)
  {
    ev := [Check(target)];  // what this attempt issues, in order
    hit := None;
    var raised := false;
    match e.primary {
      case Reply(l) => hit := Some(l);
      case NoReply =>
      case Raised => raised := true;
    }
    if hit.Some? {
      return;
    }
    if !raised {
      ev := ev + [Resolve(target)];
      match e.resolution {
        case GaiError =>
        case ResolveRaised => raised := true;
        case Resolved(ip) =>
          if ip != target {
            ev := ev + [Check(ip)];
            match e.secondary {
              case Reply(l) => hit := Some(l);
              case NoReply =>
              case Raised => raised := true;
            }
          }
      }
    }
    if raised {
      ev := ev + [Logged(index)];
    }
  }

  /**
    `reliable_ping`: a bounded `for` loop with an early `break` on the first latency.
    `pingAttempts` is the configured attempt ceiling; `env` answers every attempt.
  */
  method ReliablePing(target: string, pingAttempts: nat, env: seq<AttemptEnv>)
    returns (result: PingResult, trace: seq<Event>)
    requires pingAttempts <= |env|
    ensures ProbeRun(result, trace) == Probe(target, pingAttempts, env, 0)
  {
    var attempts := 0;
    var responseTime: Option<real> := None;
    trace := [];
    for attempt := 0 to pingAttempts
      invariant attempts == 0 && responseTime == None
      invariant Probe(target, pingAttempts, env, 0).result == Probe(target, pingAttempts, env, attempt).result
      invariant Probe(target, pingAttempts, env, 0).trace == trace + Probe(target, pingAttempts, env, attempt).trace
    {
      var hit, ev := TryAttempt(target, attempt, env[attempt]);
      if hit.Some? {
        responseTime := hit;
        attempts := attempt + 1;
        trace := trace + ev;
        break;
      }
      if attempt < pingAttempts - 1 {
        ev := ev + [Sleep(BackoffMs)];
      }
      trace := trace + ev;
    }
    var status := responseTime.Some?;
    result := PingResult(target, status, if status then responseTime else None, attempts);
  }
}
