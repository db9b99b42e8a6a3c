/** The runs of the registry: status lifecycle and the transactional operations on
    the runs table, with the schema's one-active-run-per-target index and the
    append-only audit log written in the same transaction. */
module Runs {

  /** A ULID; the numeric order is the order of creation. */
  type RunId = nat
  type TargetId = string

  datatype Status = Queued | Starting | Running | Succeeded | Failed | Cancelled {
    predicate Active() {
      Queued? || Starting? || Running?
    }

    function Rank(): nat {
      match this
      case Queued => 0
      case Starting => 1
      case Running => 2
      case _ => 3
    }
  }

  /** The only way a status may change: an active status is left for a later one. */
  predicate Forward(before: Status, after: Status) {
    before == after || (before.Active() && before.Rank() < after.Rank())
  }

  datatype Run = Run(target: TargetId, status: Status)

  /** The run events of the audit log. Started is run.started; Ended is
      run.succeeded, run.failed or run.cancelled, named by the status it reports. */
  datatype Event = Requested(id: RunId) | Started(id: RunId) | Ended(id: RunId, outcome: Status)

  /** The event a transition to the given status carries. */
  function EventFor(id: RunId, status: Status): Event {
    if status == Running then Started(id) else Ended(id, status)
  }

  datatype Error = NotFound | Conflict | RunActive | Retired | StillEnabled | Transient
  datatype Reply = Ok | Err(error: Error)

  /** What may go wrong around one transaction: nothing, a failure that commits
      nothing, or a commit that is reported as a failure. */
  datatype Fault = NoFault | LostWrite | LateFailure

  datatype Target = Target(enabled: bool, retired: bool)

  datatype Store = Store(targets: map<TargetId, Target>, runs: map<RunId, Run>, log: seq<Event>)

  predicate HasActive(runs: map<RunId, Run>, target: TargetId) {
    exists id :: id in runs && runs[id].target == target && runs[id].status.Active()
  }

  /** The event was recorded n times. */
  function Times(log: seq<Event>, e: Event): nat {
    multiset(log)[e]
  }

  // ----- the transactions as functions of the stored state ---------------------------

  function CreateRun(s: Store, id: RunId, target: TargetId): (Store, Reply) {
    if target in s.targets && s.targets[target].retired then (s, Err(Retired))
    else if id in s.runs || HasActive(s.runs, target) then (s, Err(RunActive))
    else if target !in s.targets then (s, Err(NotFound))
    else (s.(runs := s.runs[id := Run(target, Queued)], log := s.log + [Requested(id)]), Ok)
  }

  /** Moves a queued run to starting; the caller names the oldest one. */
  function ClaimRun(s: Store, id: RunId): Store
    requires id in s.runs
  {
    s.(runs := s.runs[id := s.runs[id].(status := Starting)])
  }

  predicate IsOldestQueued(runs: map<RunId, Run>, id: RunId) {
    && id in runs && runs[id].status == Queued
    && forall other :: other in runs && runs[other].status == Queued ==> id <= other
  }

  /** The compare-and-set: it replaces the status, whatever it is, when it equals
      the expected one. Nothing here protects a terminal status. */
  function UpdateRun(s: Store, id: RunId, status: Status, expected: Status, event: Event): (Store, Reply) {
    if id !in s.runs then (s, Err(NotFound))
    else if s.runs[id].status != expected then (s, Err(Conflict))
    else (s.(runs := s.runs[id := s.runs[id].(status := status)], log := s.log + [event]), Ok)
  }

  function RetireTarget(s: Store, target: TargetId): (Store, Reply) {
    if target !in s.targets then (s, Err(NotFound))
    else if s.targets[target].retired then (s, Err(Retired))
    else if s.targets[target].enabled then (s, Err(StillEnabled))
    else if HasActive(s.runs, target) then (s, Err(RunActive))
    else (s.(targets := s.targets[target := Target(false, true)]), Ok)
  }

  /** A target's enabled flag, as the target update sets it; a retired row is final. */
  function SetEnabled(s: Store, target: TargetId, enabled: bool): (Store, Reply) {
    if target !in s.targets then (s, Err(NotFound))
    else if s.targets[target].retired then (s, Err(Retired))
    else (s.(targets := s.targets[target := Target(enabled, false)]), Ok)
  }

  /** A transaction under a fault: a lost write commits nothing, a late failure
      commits but is not reported as success. */
  function Under(before: Store, attempt: (Store, Reply), fault: Fault): (Store, Reply) {
    match fault
    case NoFault => attempt
    case LostWrite => (before, Err(Transient))
    case LateFailure => (attempt.0, if attempt.1.Ok? then Err(Transient) else attempt.1)
  }

  // ----- what every reachable store satisfies -----------------------------------------

  ghost predicate OneActivePerTarget(s: Store) {
    forall a, b | a in s.runs && b in s.runs && s.runs[a].target == s.runs[b].target
      && s.runs[a].status.Active() && s.runs[b].status.Active() :: a == b
  }

  ghost predicate RetiredAreIdle(s: Store) {
    forall id | id in s.runs && s.runs[id].status.Active() ::
      s.runs[id].target in s.targets && !s.targets[s.runs[id].target].retired
  }

  /** The log tells the same story as the status: one terminal event, of the
      matching kind, exactly when the status is terminal; run.started at most once,
      and exactly once while the run is running. */
  ghost predicate LogAgreesAbout(s: Store, id: RunId) {
    && (forall o: Status :: Times(s.log, Ended(id, o)) ==
          if id in s.runs && s.runs[id].status == o && !o.Active() then 1 else 0)
    && Times(s.log, Started(id)) <= 1
    && (id !in s.runs || s.runs[id].status.Rank() < 2 ==> Times(s.log, Started(id)) == 0)
    && (id in s.runs && s.runs[id].status == Running ==> Times(s.log, Started(id)) == 1)
  }

  ghost predicate LogAgrees(s: Store) {
    forall id: RunId :: LogAgreesAbout(s, id)
  }

  ghost predicate Consistent(s: Store) {
    OneActivePerTarget(s) && RetiredAreIdle(s) && LogAgrees(s)
  }

  /** Every run of the first store is still there, for the same target, and its
      status has only moved forward. */
  ghost predicate MovedForward(before: Store, after: Store) {
    forall id :: id in before.runs ==>
      && id in after.runs && after.runs[id].target == before.runs[id].target
      && Forward(before.runs[id].status, after.runs[id].status)
  }

  lemma MovedForwardIsTransitive(a: Store, b: Store, c: Store)
    requires MovedForward(a, b) && MovedForward(b, c)
    ensures MovedForward(a, c)
  {}

  lemma TimesAppend(log: seq<Event>, e: Event, f: Event)
    ensures Times(log + [e], f) == Times(log, f) + if e == f then 1 else 0
  {}

  /** The consequence of a compare-and-set that only ever moves a run forward:
      the store stays consistent. */
  lemma {:induction false} ForwardUpdateIsConsistent(s: Store, id: RunId, status: Status, expected: Status)
    requires Consistent(s)
    requires expected.Active() && expected.Rank() < status.Rank() && status != Starting
    ensures var (after, reply) := UpdateRun(s, id, status, expected, EventFor(id, status));
            && Consistent(after) && MovedForward(s, after)
            && (reply == Ok <==> id in s.runs && s.runs[id].status == expected)
            && (reply == Err(NotFound) <==> id !in s.runs) && (reply.Err? ==> reply.error in {NotFound, Conflict})
            && (reply.Err? ==> after == s)
            && (reply == Ok ==> after.runs == s.runs[id := s.runs[id].(status := status)] && after.targets == s.targets)
            && (reply == Ok ==> Times(after.log, EventFor(id, status)) == 1 + Times(s.log, EventFor(id, status)))
  {
    var (after, reply) := UpdateRun(s, id, status, expected, EventFor(id, status));
    if reply.Ok? {
      forall other: RunId ensures LogAgreesAbout(after, other) {
        assert LogAgreesAbout(s, other);
        TimesAppend(s.log, EventFor(id, status), Started(other));
        forall o: Status
          ensures Times(after.log, Ended(other, o)) ==
                  if other in after.runs && after.runs[other].status == o && !o.Active() then 1 else 0
        {
          TimesAppend(s.log, EventFor(id, status), Ended(other, o));
        }
      }
    }
  }

  lemma {:induction false} CreateIsConsistent(s: Store, id: RunId, target: TargetId)
    requires Consistent(s)
    ensures var (after, reply) := CreateRun(s, id, target);
            && Consistent(after) && MovedForward(s, after)
            && (reply == Ok <==>
                  && target in s.targets && !s.targets[target].retired && id !in s.runs
                  && forall x | x in s.runs && s.runs[x].target == target :: !s.runs[x].status.Active())
            && (reply == Err(Retired) <==> target in s.targets && s.targets[target].retired)
            && (reply == Err(NotFound) ==> target !in s.targets)
            && (reply.Err? ==> after == s)
            && (reply == Ok ==> after == s.(runs := s.runs[id := Run(target, Queued)], log := s.log + [Requested(id)]))
  {
    var (after, reply) := CreateRun(s, id, target);
    if reply.Ok? {
      forall other: RunId ensures LogAgreesAbout(after, other) {
        assert LogAgreesAbout(s, other);
        TimesAppend(s.log, Requested(id), Started(other));
        forall o: Status
          ensures Times(after.log, Ended(other, o)) ==
                  if other in after.runs && after.runs[other].status == o && !o.Active() then 1 else 0
        {
          TimesAppend(s.log, Requested(id), Ended(other, o));
        }
      }
    }
  }

  lemma {:induction false} ClaimIsConsistent(s: Store, id: RunId)
    requires Consistent(s) && id in s.runs && s.runs[id].status == Queued
    ensures Consistent(ClaimRun(s, id)) && MovedForward(s, ClaimRun(s, id))
    ensures ClaimRun(s, id) == s.(runs := s.runs[id := Run(s.runs[id].target, Starting)])
  {
    forall other: RunId ensures LogAgreesAbout(ClaimRun(s, id), other) {
      assert LogAgreesAbout(s, other);
    }
  }

  lemma {:induction false} RetireIsConsistent(s: Store, target: TargetId)
    requires Consistent(s)
    ensures var (after, reply) := RetireTarget(s, target);
            && Consistent(after) && MovedForward(s, after)
            && (reply == Ok <==>
                  && target in s.targets && !s.targets[target].retired && !s.targets[target].enabled
                  && forall x | x in s.runs && s.runs[x].target == target :: !s.runs[x].status.Active())
            && after == if reply == Ok then s.(targets := s.targets[target := Target(false, true)]) else s
  {
    var (after, _) := RetireTarget(s, target);
    forall id: RunId ensures LogAgreesAbout(after, id) {
      assert LogAgreesAbout(s, id);
    }
  }

  /** The registry alone does not keep a terminal status: told to expect one, it
      overwrites it, and the log then holds two terminal events of the run. */
  lemma CompareAndSetOverwritesTerminal(s: Store, id: RunId)
    requires Consistent(s) && id in s.runs && s.runs[id].status == Failed
    ensures var (after, reply) := UpdateRun(s, id, Succeeded, Failed, Ended(id, Succeeded));
            && reply.Ok? && after.runs[id].status == Succeeded && !MovedForward(s, after) && !LogAgrees(after)
  {
    var (after, _) := UpdateRun(s, id, Succeeded, Failed, Ended(id, Succeeded));
    assert LogAgreesAbout(s, id);
    TimesAppend(s.log, Ended(id, Succeeded), Ended(id, Failed));
    assert Times(after.log, Ended(id, Failed)) == 1;
    assert !LogAgreesAbout(after, id);
  }
}
