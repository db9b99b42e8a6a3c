/** The registry as the object the Conductor shares, and the scheduler's own
    functions over it: recording a status transition, and the sweep. */
module Scheduler {
  import opened Basics
  import Runs
  import opened Types = Runs

  /** A monotone clock. Time passes at arbitrary speed, and sleeping takes at least
      as long as it was asked to. */
  class Clock {
    var time: int
    ghost var pauses: seq<int>   // every sleep asked for so far

    method Now() returns (t: int)
      modifies this`time
      ensures old(time) <= time && t == time
    {
      var passed: int := *;
      if passed > 0 {
        time := time + passed;
      }
      t := time;
    }

    method Sleep(duration: int)
      modifies this
      ensures old(time) + duration <= time && old(time) <= time
      ensures pauses == old(pauses) + [duration]
    {
      var longer: int := *;
      pauses := pauses + [duration];
      time := time + Max(0, duration) + Max(0, longer);
    }
  }

  /** The tables. Each method is one call, which counts itself and meets the fault the
      world holds for it: a transaction may fail before it commits or report a failure
      after it has committed, a read may fail. */
  class Registry {
    const world: nat -> Fault
    var calls: nat
    var targets: map<TargetId, Target>
    var runs: map<RunId, Run>
    var log: seq<Event>

    ghost function View(): Store
      reads this`targets, this`runs, this`log
    {
      Store(targets, runs, log)
    }

    constructor (world: nat -> Fault)
      ensures this.world == world && calls == 0 && View() == Store(map[], map[], [])
    {
      this.world := world;
      calls, targets, runs, log := 0, map[], map[], [];
    }

    /** None of the calls from the given one to the last met a fault. */
    ghost predicate Faultless(since: nat)
      reads this`calls
    {
      forall c: nat | since <= c < calls :: world(c) == NoFault
    }

    method CreateRun(id: RunId, target: TargetId) returns (reply: Reply)
      modifies this`runs, this`log, this`calls
      ensures calls == old(calls) + 1
      ensures (View(), reply) == Under(old(View()), Runs.CreateRun(old(View()), id, target), world(old(calls)))
    {
      var fault := world(calls);
      calls := calls + 1;
      if fault == LostWrite {
        return Err(Transient);
      }
      if target in targets && targets[target].retired {
        return Err(Retired);
      }
      if id in runs || HasActive(runs, target) {
        return Err(RunActive);
      }
      if target !in targets {
        return Err(NotFound);
      }
      runs := runs[id := Run(target, Queued)];
      log := log + [Requested(id)];
      reply := if fault == LateFailure then Err(Transient) else Ok;
    }

    method UpdateRun(id: RunId, status: Status, expected: Status, event: Event) returns (reply: Reply)
      modifies this`runs, this`log, this`calls
      ensures calls == old(calls) + 1
      ensures (View(), reply) ==
                Under(old(View()), Runs.UpdateRun(old(View()), id, status, expected, event), world(old(calls)))
    {
      var fault := world(calls);
      calls := calls + 1;
      if fault == LostWrite {
        return Err(Transient);
      }
      if id !in runs {
        return Err(NotFound);
      }
      if runs[id].status != expected {
        return Err(Conflict);
      }
      runs := runs[id := runs[id].(status := status)];
      log := log + [event];
      reply := if fault == LateFailure then Err(Transient) else Ok;
    }

    /** The status of a run, unless the read fails or there is no such run. */
    method GetRun(id: RunId) returns (ok: bool, status: Status)
      modifies this`calls
      ensures calls == old(calls) + 1
      ensures ok <==> id in runs && world(old(calls)) == NoFault
      ensures ok ==> status == runs[id].status
    {
      ok := id in runs && world(calls) == NoFault;
      calls := calls + 1;
      status := if ok then runs[id].status else Queued;
    }

    /** Every active run, oldest first. */
    method ListActiveRuns() returns (ok: bool, list: seq<RunId>)
      modifies this`calls
      ensures calls == old(calls) + 1
      ensures ok <==> world(old(calls)) == NoFault
      ensures ok ==> forall id :: id in list <==> id in runs && runs[id].status.Active()
      ensures forall i, j | 0 <= i < j < |list| :: list[i] < list[j]
    {
      ok := world(calls) == NoFault;
      calls := calls + 1;
      list := [];
      if !ok {
        return;
      }
      var left := set id | id in runs && runs[id].status.Active();
      while left != {}
        invariant calls == old(calls) + 1
        invariant forall id :: id in list || id in left <==> id in runs && runs[id].status.Active()
        invariant forall i, j | 0 <= i < j < |list| :: list[i] < list[j]
        invariant forall i, id | 0 <= i < |list| && id in left :: list[i] < id
        decreases |left|
      {
        var least := Least(left);
        list := list + [least];
        left := left - {least};
      }
    }
  }

  method Least(ids: set<RunId>) returns (least: RunId)
    requires ids != {}
    ensures least in ids && forall id | id in ids :: least <= id
  {
    least :| least in ids;
    var left := ids - {least};
    while left != {}
      invariant left <= ids && least in ids
      invariant forall id | id in ids && id !in left :: least <= id
      decreases |left|
    {
      var id :| id in left;
      if id < least {
        least := id;
      }
      left := left - {id};
    }
  }

  function Max(a: int, b: int): int {
    if a < b then b else a
  }

  /** A run that this process does not execute although the registry says it is in
      flight. */
  ghost predicate Stranded(s: Store, inflight: set<RunId>, id: RunId) {
    id in s.runs && id !in inflight && (s.runs[id].status == Starting || s.runs[id].status == Running)
  }

  ghost function StrandedIds(s: Store, inflight: set<RunId>): set<RunId> {
    set id | id in s.runs && Stranded(s, inflight, id)
  }

  /** Exactly the named runs, all stranded, have been closed as failed. */
  ghost predicate Swept(before: Store, after: Store, inflight: set<RunId>, closed: set<RunId>) {
    && Consistent(after) && MovedForward(before, after)
    && after.runs.Keys == before.runs.Keys
    && (forall id | id in closed :: Stranded(before, inflight, id))
    && (forall id | id in before.runs ::
          after.runs[id] == if id in closed then before.runs[id].(status := Failed) else before.runs[id])
  }

  ghost predicate OnlyRunChanged(before: Store, after: Store, id: RunId) {
    && after.runs.Keys == before.runs.Keys
    && after.targets == before.targets
    && forall other | other in before.runs && other != id :: after.runs[other] == before.runs[other]
  }

  /** The whole effect of trying to move one run on: it has the wanted status or the
      one it had, its log entry comes with the status, and nothing else changed. */
  ghost predicate RunMovedOn(before: Store, after: Store, id: RunId, want: Status) {
    && Consistent(after) && MovedForward(before, after) && OnlyRunChanged(before, after, id)
    && id in before.runs
    && (after.runs[id].status == want || after.runs[id].status == before.runs[id].status)
    && Times(after.log, EventFor(id, want)) <= 1
    && (after.runs[id].status == want ==> Times(after.log, EventFor(id, want)) == 1)
  }

  lemma RunMovedOnStart(s: Store, id: RunId, want: Status)
    requires Consistent(s) && id in s.runs && (want == Running || !want.Active())
    ensures RunMovedOn(s, s, id, want)
  {
    assert LogAgreesAbout(s, id);
  }

  /** The effect of one compare-and-set towards the wanted status, under any fault. */
  lemma AttemptMovesOn(before: Store, here: Store, id: RunId, want: Status, expected: Status, fault: Fault)
    requires RunMovedOn(before, here, id, want)
    requires expected.Active() && expected.Rank() < want.Rank() && want != Starting
    ensures var (after, reply) := Under(here, UpdateRun(here, id, want, expected, EventFor(id, want)), fault);
            && RunMovedOn(before, after, id, want) && OnlyRunChanged(here, after, id)
            && (reply.Ok? ==> after.runs[id].status == want)
            && (reply == Err(Conflict) ==> here.runs[id].status != expected)
            && (reply.Err? && reply.error != Conflict ==> reply.error == Transient)
            && (after.runs[id].status == here.runs[id].status || after.runs[id].status == want)
  {
    var (after, _) := Under(here, UpdateRun(here, id, want, expected, EventFor(id, want)), fault);
    ForwardUpdateIsConsistent(here, id, want, expected);
    LogTellsStatus(after, id, want);
    MovedForwardIsTransitive(before, here, after);
  }

  /** What one turn of the recording loop leads to. */
  datatype Verdict = Recorded | GiveUp | Again | Later

  /** What an execution may believe about a run it is moving to the wanted status:
      never that the run is terminal, and never more than the registry holds. */
  predicate Knows(status: Status, want: Status, recorded: Status) {
    && (recorded == Starting || recorded == Running)
    && (status == Starting || status == Running || status == want)
    && (recorded == Running ==> status != Starting)
    && if want == Running then recorded == Starting else !want.Active()
  }

  /** The pause after the given number of others: doubled four times, then kept. */
  function Pause(retry: int, n: nat): int {
    retry * match n case 0 => 1 case 1 => 2 case 2 => 4 case 3 => 8 case _ => 16
  }

  ghost function Pauses(retry: int, n: nat): seq<int> {
    if n == 0 then [] else Pauses(retry, n - 1) + [Pause(retry, n - 1)]
  }

  lemma PauseDoubles(retry: int, n: nat)
    requires retry > 0
    ensures Pause(retry, n + 1) == if Pause(retry, n) < 10 * retry then Pause(retry, n) * 2 else Pause(retry, n)
  {}

  class Scheduler {
    const reg: Registry
    const clock: Clock
    const retry: int
    const drainFrom: Option<int>   // when the Conductor begins to shut down, if it does
    const MAX_CONFLICT_REREADS := 2
    var inflight: set<RunId>

    constructor (reg: Registry, clock: Clock, retry: int, drainFrom: Option<int>)
      ensures this.reg == reg && this.clock == clock && this.retry == retry && this.drainFrom == drainFrom
      ensures inflight == {}
    {
      this.reg := reg;
      this.clock := clock;
      this.retry := retry;
      this.drainFrom := drainFrom;
      inflight := {};
    }

    predicate Draining()
      reads clock`time
    {
      drainFrom.Some? && drainFrom.value <= clock.time
    }

    /** One attempt to write a run's new status against an expected one. */
    method Attempt(id: RunId, want: Status, expected: Status, ghost before: Store) returns (reply: Reply)
      requires RunMovedOn(before, reg.View(), id, want)
      requires expected.Active() && expected.Rank() < want.Rank() && want != Starting
      modifies reg`runs, reg`log, reg`calls
      ensures RunMovedOn(before, reg.View(), id, want)
      ensures reg.calls == old(reg.calls) + 1
      ensures reply.Ok? ==> reg.runs[id].status == want
      ensures reply.Err? && reply.error == Conflict ==> reg.runs[id].status != expected
      ensures reply.Err? && reply.error != Conflict ==>
                reply.error == Transient && reg.world(old(reg.calls)) != NoFault
      ensures reg.runs[id].status == old(reg.runs[id].status) || reg.runs[id].status == want
    {
      ghost var here := reg.View();
      ghost var fault := reg.world(reg.calls);
      reply := reg.UpdateRun(id, want, expected, EventFor(id, want));
      AttemptMovesOn(before, here, id, want, expected, fault);
    }

    /** After a conflict: a look at what the registry really holds. */
    method Reread(id: RunId, want: Status, known: Status, rereads: nat)
      returns (verdict: Verdict, known': Status, rereads': nat)
      requires rereads <= MAX_CONFLICT_REREADS && (rereads > 0 ==> known == Running)
      requires id in reg.runs && Knows(reg.runs[id].status, want, known) && reg.runs[id].status != known
      modifies reg`calls
      ensures reg.calls == old(reg.calls) + 1
      ensures verdict == Recorded || verdict == Again || verdict == Later
      ensures verdict == Recorded ==> reg.runs[id].status == want && known' == want && rereads' == rereads
      ensures verdict == Again ==> rereads == 0 && rereads' == 1 && known' == Running == reg.runs[id].status
      ensures verdict != Recorded ==> Knows(reg.runs[id].status, want, known')
      ensures verdict == Later ==> reg.world(old(reg.calls)) != NoFault && known' == known && rereads' == rereads
    {
      verdict, known', rereads' := Later, known, rereads;
      var read, actual := reg.GetRun(id);
      if read {
        if actual == want {
          // The transition had already committed.
          return Recorded, want, rereads;
        }
        if !actual.Active() {
          return GiveUp, actual, rereads;
        }
        if actual != known && rereads < MAX_CONFLICT_REREADS {
          return Again, actual, rereads + 1;
        }
      }
    }

    /** One turn of the recording loop. It ends the loop or meets a fault in its last call,
        except that it may once have to try again with what the registry holds. */
    method Turn(id: RunId, want: Status, known: Status, rereads: nat, ghost before: Store)
      returns (verdict: Verdict, known': Status, rereads': nat)
      requires rereads <= MAX_CONFLICT_REREADS && (rereads > 0 ==> known == Running)
      requires RunMovedOn(before, reg.View(), id, want) && Knows(reg.runs[id].status, want, known)
      modifies reg`runs, reg`log, reg`calls
      ensures RunMovedOn(before, reg.View(), id, want)
      ensures old(reg.calls) < reg.calls
      ensures verdict == Recorded || verdict == Again || verdict == Later
      ensures verdict == Recorded ==> reg.runs[id].status == want && known' == want && rereads' == rereads
      ensures verdict != Recorded ==> Knows(reg.runs[id].status, want, known')
      ensures verdict == Again ==> rereads == 0 && rereads' == 1 && known' == Running
      ensures verdict == Later ==> reg.world(reg.calls - 1) != NoFault && known' == known && rereads' == rereads
    {
      known', rereads' := known, rereads;
      var reply := Attempt(id, want, known, before);
      if reply.Ok? {
        return Recorded, want, rereads;
      }
      if reply.error == NotFound {
        return GiveUp, known, rereads;
      }
      verdict := Later;
      if reply.error == Conflict {
        verdict, known', rereads' := Reread(id, want, known, rereads);
      }
    }

    /** The end of a turn that is to be tried again: gives up out of time or draining, or
        pauses. */
    method Rest(window: int, deadline: int, wait: int, ghost n: nat, ghost start: seq<int>)
      returns (more: bool, wait': int, ghost n': nat)
      requires retry > 0 && wait == Pause(retry, n) && clock.pauses == start + Pauses(retry, n)
      modifies clock
      ensures n <= n' <= n + 1 && clock.pauses == start + Pauses(retry, n')
      ensures old(clock.time) <= clock.time
      ensures more ==> window > 0 && n' == n + 1 && wait' == Pause(retry, n')
      ensures more ==> old(clock.time) < deadline && old(clock.time) < clock.time
      ensures !more ==> window <= 0 || deadline <= clock.time || Draining()
      ensures !more && n' == n + 1 ==> Draining()
    {
      more, wait', n' := false, wait, n;
      var now := clock.Now();
      if window <= 0 || now >= deadline || Draining() {
        return;
      }
      clock.Sleep(wait);
      PauseDoubles(retry, n);
      n' := n + 1;
      var noticed: bool := *;
      if noticed && Draining() {
        return;
      }
      more := true;
      if wait < 10 * retry {
        wait' := wait * 2;
      }
    }

    /** One turn and, if it is to be tried again, the pause after it. */
    method Round(id: RunId, want: Status, known: Status, rereads: nat, window: int, deadline: int, wait: int,
                 ghost n: nat, ghost before: Store, ghost first: nat, ghost start: seq<int>)
      returns (over: bool, ok: bool, known': Status, rereads': nat, wait': int, ghost n': nat)
      requires retry > 0 && rereads <= MAX_CONFLICT_REREADS && (rereads > 0 ==> known == Running)
      requires RunMovedOn(before, reg.View(), id, want) && Knows(reg.runs[id].status, want, known)
      requires first + n <= reg.calls && (reg.Faultless(first) ==> n == 0)
      requires wait == Pause(retry, n) && clock.pauses == start + Pauses(retry, n)
      modifies reg`runs, reg`log, reg`calls, clock
      ensures rereads' <= MAX_CONFLICT_REREADS && (rereads' > 0 ==> known' == Running || over)
      ensures RunMovedOn(before, reg.View(), id, want)
      ensures over && ok ==> reg.runs[id].status == want && known' == want
      ensures !ok ==> Knows(reg.runs[id].status, want, known')
      ensures old(reg.calls) < reg.calls && old(clock.time) <= clock.time && (ok ==> over)
      ensures n' <= n + 1 && clock.pauses == start + Pauses(retry, n') && (n' == n + 1 && over ==> Draining())
      ensures reg.Faultless(first) ==> n' == 0 && (over ==> ok)
      ensures over && !ok ==> reg.world(reg.calls - 1) != NoFault
      ensures over && !ok ==> window <= 0 || deadline <= clock.time || Draining()
      ensures !over ==> wait' == Pause(retry, n')
      ensures !over ==> || (rereads < rereads' && old(clock.time) == clock.time)
                        || (rereads == rereads' && old(clock.time) < clock.time && old(clock.time) < deadline)
    {
      over, ok, wait', n' := false, false, wait, n;
      var verdict;
      verdict, known', rereads' := Turn(id, want, known, rereads, before);
      if verdict == Recorded || verdict == GiveUp {
        return true, verdict == Recorded, known', rereads', wait, n;
      }
      if verdict == Later {
        var more;
        more, wait', n' := Rest(window, deadline, wait, n, start);
        over := !more;
      }
    }

    /** Writes the run's new status against the status the registry is known to hold,
        for at most the given window. It always ends. When no call meets a fault it
        succeeds, whatever the window; it fails only after a last call that did, and only
        out of time or draining. Success means that the registry holds the wanted status;
        whatever happens, the run moves forward, its event is written at most once, and
        no other run is touched. Each of the n pauses is followed by another attempt,
        unless the scheduler is being drained, and is longer than the last, up to a bound. */
    method Record(id: RunId, want: Status, recorded: Status, window: int)
      returns (ok: bool, known: Status, ghost n: nat)
      requires retry > 0
      requires Consistent(reg.View())
      requires id in reg.runs && Knows(reg.runs[id].status, want, recorded)
      modifies reg`runs, reg`log, reg`calls, clock
      ensures RunMovedOn(old(reg.View()), reg.View(), id, want)
      ensures ok ==> reg.runs[id].status == want && known == want
      ensures !ok ==> Knows(reg.runs[id].status, want, known)
      ensures reg.Faultless(old(reg.calls)) ==> ok && n == 0
      ensures !ok ==> old(reg.calls) < reg.calls && reg.world(reg.calls - 1) != NoFault
      ensures !ok ==> window <= 0 || old(clock.time) + window <= clock.time || Draining()
      ensures clock.pauses == old(clock.pauses) + Pauses(retry, n)
      ensures n < reg.calls - old(reg.calls) || (n == reg.calls - old(reg.calls) && Draining())
    {
      ghost var before := reg.View();
      ghost var first := reg.calls;
      RunMovedOnStart(before, id, want);
      var deadline := clock.time + window;
      var wait := retry;
      var rereads: nat := 0;
      var over := false;
      ok, known, n := false, recorded, 0;
      while !over
        invariant rereads <= MAX_CONFLICT_REREADS && (rereads > 0 ==> known == Running || over)
        invariant RunMovedOn(before, reg.View(), id, want)
        invariant over && ok ==> reg.runs[id].status == want && known == want
        invariant !ok ==> Knows(reg.runs[id].status, want, known)
        invariant first + n <= reg.calls && (ok ==> over)
        invariant over ==> n < reg.calls - first || (n == reg.calls - first && Draining())
        invariant clock.pauses == old(clock.pauses) + Pauses(retry, n)
        invariant reg.Faultless(first) ==> n == 0 && (over ==> ok)
        invariant over && !ok ==> first < reg.calls && reg.world(reg.calls - 1) != NoFault
        invariant over && !ok ==> window <= 0 || deadline <= clock.time || Draining()
        invariant !over ==> wait == Pause(retry, n)
        decreases !over, MAX_CONFLICT_REREADS - rereads + Max(0, deadline - clock.time)
      {
        over, ok, known, rereads, wait, n :=
          Round(id, want, known, rereads, window, deadline, wait, n, before, first, old(clock.pauses));
      }
    }

    /** Closes one run of the listing with an unknown outcome. */
    method CloseStranded(id: RunId, prev: Status, ghost before: Store, ghost closed: set<RunId>)
      returns (reply: Reply, ghost closed': set<RunId>)
      requires Swept(before, reg.View(), inflight, closed)
      requires id in reg.runs && reg.runs[id].status == prev && id !in inflight && id !in closed
      requires prev == Starting || prev == Running
      modifies reg`runs, reg`log, reg`calls
      ensures Swept(before, reg.View(), inflight, closed')
      ensures reg.calls == old(reg.calls) + 1
      ensures reply.Ok? ==> closed' == closed + {id}
      ensures reply.Err? ==> reply.error == Transient && closed <= closed' <= closed + {id}
      ensures reply.Err? ==> reg.world(old(reg.calls)) != NoFault
    {
      ForwardUpdateIsConsistent(reg.View(), id, Failed, prev);
      ghost var here := reg.View();
      reply := reg.UpdateRun(id, Failed, prev, EventFor(id, Failed));
      MovedForwardIsTransitive(before, here, reg.View());
      closed' := if reg.View() == here then closed else closed + {id};
    }

    /** One run of the listing: skipped, closed, or the registry failed. */
    method SweepOne(id: RunId, ghost before: Store, ghost closed: set<RunId>)
      returns (counted: bool, ok: bool, ghost closed': set<RunId>)
      requires Swept(before, reg.View(), inflight, closed) && id in before.runs && id !in closed
      modifies reg`runs, reg`log, reg`calls
      ensures Swept(before, reg.View(), inflight, closed')
      ensures closed <= closed' <= closed + {id}
      ensures ok ==> (id in closed' <==> Stranded(before, inflight, id)) && (counted <==> id in closed')
      ensures old(reg.calls) <= reg.calls
      ensures !ok ==> !counted && reg.calls == old(reg.calls) + 1 && reg.world(old(reg.calls)) != NoFault
    {
      counted, ok, closed' := false, true, closed;
      var prev := reg.runs[id].status;
      if (prev == Starting || prev == Running) && id !in inflight {
        var reply;
        reply, closed' := CloseStranded(id, prev, before, closed);
        counted := reply.Ok?;
        ok := reply.Ok? || reply.error == Conflict;
      }
    }

    /** The next run of the listing, with those before it done. */
    method SweepNext(active: seq<RunId>, i: nat, n: nat, ghost before: Store, ghost closed: set<RunId>)
      returns (ok: bool, n': nat, ghost closed': set<RunId>)
      requires i < |active| && active[i] in before.runs
      requires forall j, k | 0 <= j < k < |active| :: active[j] < active[k]
      requires Swept(before, reg.View(), inflight, closed) && Covered(before, inflight, active, i, closed)
      requires n == |closed|
      modifies reg`runs, reg`log, reg`calls
      ensures Swept(before, reg.View(), inflight, closed')
      ensures ok ==> Covered(before, inflight, active, i + 1, closed') && n' == |closed'|
      ensures old(reg.calls) <= reg.calls
      ensures !ok ==> n' <= |closed'| <= n' + 1
      ensures !ok ==> old(reg.calls) < reg.calls && reg.world(reg.calls - 1) != NoFault
    {
      var counted;
      counted, ok, closed' := SweepOne(active[i], before, closed);
      n' := if counted then n + 1 else n;
      if ok {
        CoversOneMore(before, inflight, active, i, closed, closed');
      } else {
        OneMoreAtMost(closed, closed', active[i]);
      }
    }

    /** The whole listing. */
    method SweepListed(active: seq<RunId>, ghost before: Store) returns (n: nat, ok: bool, ghost closed: set<RunId>)
      requires forall k | 0 <= k < |active| :: active[k] in before.runs
      requires forall j, k | 0 <= j < k < |active| :: active[j] < active[k]
      requires Swept(before, reg.View(), inflight, {}) && Covered(before, inflight, active, 0, {})
      modifies reg`runs, reg`log, reg`calls
      ensures Swept(before, reg.View(), inflight, closed)
      ensures ok ==> Covered(before, inflight, active, |active|, closed) && n == |closed|
      ensures !ok ==> old(reg.calls) < reg.calls && reg.world(reg.calls - 1) != NoFault
      ensures !ok ==> n <= |closed| <= n + 1
    {
      n, ok, closed := 0, true, {};
      var i := 0;
      while i < |active| && ok
        invariant 0 <= i <= |active|
        invariant Swept(before, reg.View(), inflight, closed)
        invariant ok ==> Covered(before, inflight, active, i, closed) && n == |closed|
        invariant old(reg.calls) <= reg.calls
        invariant !ok ==> old(reg.calls) < reg.calls && reg.world(reg.calls - 1) != NoFault
        invariant !ok ==> n <= |closed| <= n + 1
        decreases |active| - i
      {
        ok, n, closed := SweepNext(active, i, n, before, closed);
        i := i + 1;
      }
    }

    /** Closes every run that is starting or running in the registry but not executed
        by this process, and nothing else. Unless its last call meets a fault, none is
        left; when it does, the run of that call may be closed without being counted. */
    method Sweep() returns (n: nat, ok: bool, ghost closed: set<RunId>)
      requires Consistent(reg.View())
      modifies reg`runs, reg`log, reg`calls
      ensures Swept(old(reg.View()), reg.View(), inflight, closed)
      ensures ok ==> closed == StrandedIds(old(reg.View()), inflight) && n == |closed|
      ensures !ok ==> old(reg.calls) < reg.calls && reg.world(reg.calls - 1) != NoFault
      ensures !ok ==> n <= |closed| <= n + 1
    {
      NothingSwept(reg.View(), inflight);
      ghost var before := reg.View();
      var active;
      ok, active := reg.ListActiveRuns();
      if !ok {
        return 0, false, {};
      }
      assert forall k | 0 <= k < |active| :: active[k] in active;
      n, ok, closed := SweepListed(active, before);
      if ok {
        NoneLeft(before, active, inflight, closed);
      }
    }
  }

  lemma NothingSwept(s: Store, inflight: set<RunId>)
    requires Consistent(s)
    ensures Swept(s, s, inflight, {})
  {}

  lemma OneMoreAtMost(was: set<RunId>, closed: set<RunId>, id: RunId)
    requires was <= closed <= was + {id}
    ensures |was| <= |closed| <= |was| + 1
  {
    assert closed == was || closed == was + {id};
  }

  /** The first i runs of the listing that were stranded have been closed, no later one has. */
  ghost predicate Covered(s: Store, inflight: set<RunId>, active: seq<RunId>, i: int, closed: set<RunId>)
    requires 0 <= i <= |active|
  {
    && (forall k | 0 <= k < i && Stranded(s, inflight, active[k]) :: active[k] in closed)
    && (forall k | i <= k < |active| :: active[k] !in closed)
  }

  lemma CoversOneMore(s: Store, inflight: set<RunId>, active: seq<RunId>, i: int, was: set<RunId>, closed: set<RunId>)
    requires 0 <= i < |active| && Covered(s, inflight, active, i, was)
    requires forall j, k | 0 <= j < k < |active| :: active[j] < active[k]
    requires was <= closed <= was + {active[i]} && (active[i] in closed <==> Stranded(s, inflight, active[i]))
    ensures Covered(s, inflight, active, i + 1, closed)
    ensures closed == if active[i] in closed then was + {active[i]} else was
    ensures |closed| == if active[i] in closed then |was| + 1 else |was|
  {}

  lemma NoneLeft(s: Store, active: seq<RunId>, inflight: set<RunId>, closed: set<RunId>)
    requires forall id | id in s.runs && s.runs[id].status.Active() :: id in active
    requires forall id | id in closed :: Stranded(s, inflight, id)
    requires forall k | 0 <= k < |active| && Stranded(s, inflight, active[k]) :: active[k] in closed
    ensures closed == StrandedIds(s, inflight)
  {}

  lemma LogTellsStatus(s: Store, id: RunId, want: Status)
    requires LogAgrees(s) && (want == Running || !want.Active())
    ensures Times(s.log, EventFor(id, want)) <= 1
    ensures id in s.runs && s.runs[id].status == want ==> Times(s.log, EventFor(id, want)) == 1
  {
    assert LogAgreesAbout(s, id);
  }
}
