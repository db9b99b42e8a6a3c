/** The scheduler loop, the executing goroutines, the API handlers and process
    restarts as one machine of atomic steps over the run registry. Every registry
    call is one step and may fail without committing or commit and still report
    a failure. */
module RunProtocol {
  import opened Runs

  /** One entry of the listing a sweep works through. */
  datatype Listed = Listed(id: RunId, prev: Status)

  /** Where the loop goroutine is. Recovery at startup is a sweep too. */
  datatype Loop =
    | Down
    | SweepList(recovering: bool)
    | SweepAt(todo: seq<Listed>, recovering: bool)
    | SweepWrite(item: Listed, todo: seq<Listed>, recovering: bool)
    | Planning
    | Dispatching
    | Claimed(id: RunId)
    | Idle

  /** Where an executing goroutine is. The Record and Reread points are those of the
      function that records a transition: first says which of the two attempts to
      record the start is being made, rereads counts resolved conflicts. */
  datatype Pc =
    | Preparing
    | RecordStart(first: bool, rereads: nat)
    | RereadStart(first: bool, rereads: nat)
    | Waiting
    | Outcome
    | Finish(want: Status, rereads: nat)
    | RereadFinish(want: Status, rereads: nat)
    | Leaving

  /** An execution and the status it believes the registry holds. */
  datatype Exec = Exec(pc: Pc, recorded: Status)

  datatype State = State(
    store: Store,
    execs: map<RunId, Exec>,   // the in-flight map
    loop: Loop,
    cancels: set<RunId>,       // API handlers that have read a run as queued
    maxRuns: nat)

  datatype Action =
    | Abandon(want: Status)
    | Launch
    | Write(fault: Fault, again: bool)
    | Read(ok: bool, again: bool)
    | Waited
    | Decide(want: Status)

  datatype Step =
    | Boot
    | Crash
    | List(todo: seq<Listed>)
    | ListFails
    | CheckNext
    | CloseStranded(fault: Fault)
    | Tick
    | PlanRun(id: RunId, target: TargetId, fault: Fault)
    | EndPlan
    | ClaimOldest(id: RunId, fault: Fault)
    | Register
    | EndDispatch
    | Execute(id: RunId, action: Action)
    | Leave(id: RunId)
    | ApiCreateTarget(target: TargetId)
    | ApiSetEnabled(target: TargetId, enabled: bool, fault: Fault)
    | ApiRetire(target: TargetId, fault: Fault)
    | ApiRequest(id: RunId, target: TargetId, fault: Fault)
    | ApiReadQueued(id: RunId)
    | ApiCancelQueued(id: RunId, fault: Fault)

  const MAX_CONFLICT_REREADS := 2

  // ----- one execution --------------------------------------------------------------

  function AfterStart(first: bool): Pc {
    if first then Waiting else Outcome
  }

  /** What follows a failed attempt to record the outcome: another attempt while the
      window lasts, or giving up. */
  function RetryOrLeave(e: Exec, want: Status, rereads: nat, again: bool): Exec {
    e.(pc := if again then Finish(want, rereads) else Leaving)
  }

  predicate ActionEnabled(e: Exec, a: Action) {
    match a
    case Abandon(want) => e.pc == Preparing && (want == Failed || want == Cancelled)
    case Launch => e.pc == Preparing
    case Write(_, _) => e.pc.RecordStart? || e.pc.Finish?
    case Read(_, _) => e.pc.RereadStart? || e.pc.RereadFinish?
    case Waited => e.pc == Waiting
    case Decide(want) => e.pc == Outcome && !want.Active()
  }

  function ExecNext(s: Store, id: RunId, e: Exec, a: Action): (Store, Exec)
    requires id in s.runs && ActionEnabled(e, a)
  {
    match a
    case Abandon(want) => (s, e.(pc := Finish(want, 0)))
    case Launch => (s, e.(pc := RecordStart(true, 0)))
    case Waited =>
      // A second attempt to record the start is made only when the first one failed.
      (s, e.(pc := if e.recorded == Starting then RecordStart(false, 0) else Outcome))
    case Decide(want) => (s, e.(pc := Finish(want, 0)))
    case Write(fault, again) => WriteNext(s, id, e, fault, again)
    case Read(ok, again) => (s, ReadNext(s.runs[id].status, e, ok, again))
  }

  function WriteNext(s: Store, id: RunId, e: Exec, fault: Fault, again: bool): (Store, Exec)
    requires e.pc.RecordStart? || e.pc.Finish?
  {
    var want := if e.pc.RecordStart? then Running else e.pc.want;
    var (after, reply) := Under(s, UpdateRun(s, id, want, e.recorded, EventFor(id, want)), fault);
    match e.pc {
      case RecordStart(first, n) =>
        if reply.Ok? then (after, Exec(AfterStart(first), Running))
        else if reply.error == Conflict then (after, e.(pc := RereadStart(first, n)))
        else (after, e.(pc := AfterStart(first)))
      case Finish(_, n) =>
        if reply.Ok? then (after, Exec(Leaving, want))
        else if reply.error == Conflict then (after, e.(pc := RereadFinish(want, n)))
        else if reply.error == NotFound then (after, e.(pc := Leaving))
        else (after, RetryOrLeave(e, want, n, again))
    }
  }

  function ReadNext(actual: Status, e: Exec, ok: bool, again: bool): Exec
    requires e.pc.RereadStart? || e.pc.RereadFinish?
  {
    match e.pc
    case RereadStart(first, n) =>
      if !ok then e.(pc := AfterStart(first))
      else if actual == Running then Exec(AfterStart(first), Running)
      else if !actual.Active() then Exec(AfterStart(first), actual)
      else if actual != e.recorded && n < MAX_CONFLICT_REREADS then Exec(RecordStart(first, n + 1), actual)
      else e.(pc := AfterStart(first))
    case RereadFinish(want, n) =>
      if !ok then RetryOrLeave(e, want, n, again)
      else if actual == want then Exec(Leaving, want)
      else if !actual.Active() then Exec(Leaving, actual)
      else if actual != e.recorded && n < MAX_CONFLICT_REREADS then Exec(Finish(want, n + 1), actual)
      else RetryOrLeave(e, want, n, again)
  }

  // ----- the whole process ------------------------------------------------------------

  function SweepEnd(recovering: bool, failed: bool): Loop {
    if recovering then (if failed then Down else Planning) else Idle
  }

  predicate IsListing(s: Store, todo: seq<Listed>) {
    && (forall i | 0 <= i < |todo| :: todo[i].id in s.runs && s.runs[todo[i].id].status == todo[i].prev)
    && (forall id | id in s.runs && s.runs[id].status.Active() :: Listed(id, s.runs[id].status) in todo)
    && (forall i | 0 <= i < |todo| :: todo[i].prev.Active())
  }

  predicate Enabled(s: State, step: Step) {
    match step
    case Boot => s.loop == Down
    case Crash => s.loop != Down
    case List(todo) => s.loop.SweepList? && IsListing(s.store, todo)
    case ListFails => s.loop.SweepList?
    case CheckNext => s.loop.SweepAt?
    case CloseStranded(_) => s.loop.SweepWrite?
    case Tick => s.loop == Idle
    case PlanRun(_, _, _) => s.loop == Planning
    case EndPlan => s.loop == Planning
    case ClaimOldest(id, _) => s.loop == Dispatching && |s.execs| < s.maxRuns && IsOldestQueued(s.store.runs, id)
    case Register => s.loop.Claimed?
    case EndDispatch => s.loop == Dispatching
    case Execute(id, a) => id in s.execs && id in s.store.runs && ActionEnabled(s.execs[id], a)
    case Leave(id) => id in s.execs && s.execs[id].pc == Leaving
    case ApiCreateTarget(t) => t !in s.store.targets
    case ApiSetEnabled(_, _, _) => true
    case ApiRetire(_, _) => true
    case ApiRequest(_, _, _) => true
    case ApiReadQueued(id) => id in s.store.runs && s.store.runs[id].status == Queued
    case ApiCancelQueued(id, _) => id in s.cancels
  }

  function Apply(s: State, step: Step): State
    requires Enabled(s, step)
  {
    match step
    case Boot => s.(loop := SweepList(true))
    case Crash => s.(loop := Down, execs := map[], cancels := {})
    case List(todo) => s.(loop := SweepAt(todo, s.loop.recovering))
    case ListFails => s.(loop := SweepEnd(s.loop.recovering, true))
    case CheckNext =>
      if s.loop.todo == [] then s.(loop := SweepEnd(s.loop.recovering, false))
      else
        var item := s.loop.todo[0];
        if item.prev == Queued || item.id in s.execs
        then s.(loop := SweepAt(s.loop.todo[1..], s.loop.recovering))
        else s.(loop := SweepWrite(item, s.loop.todo[1..], s.loop.recovering))
    case CloseStranded(fault) =>
      var SweepWrite(item, todo, recovering) := s.loop;
      var (after, reply) :=
        Under(s.store, UpdateRun(s.store, item.id, Failed, item.prev, EventFor(item.id, Failed)), fault);
      s.(store := after,
         loop := if reply.Ok? || reply.error == Conflict then SweepAt(todo, recovering) else SweepEnd(recovering, true))
    case Tick => s.(loop := Planning)
    case PlanRun(id, t, fault) => s.(store := Under(s.store, CreateRun(s.store, id, t), fault).0)
    case EndPlan => s.(loop := Dispatching)
    case ClaimOldest(id, fault) =>
      s.(store := Under(s.store, (ClaimRun(s.store, id), Ok), fault).0,
         loop := if fault == NoFault then Claimed(id) else SweepList(false))
    case Register => s.(execs := s.execs[s.loop.id := Exec(Preparing, Starting)], loop := Dispatching)
    case EndDispatch => s.(loop := SweepList(false))
    case Execute(id, a) =>
      var (after, e) := ExecNext(s.store, id, s.execs[id], a);
      s.(store := after, execs := s.execs[id := e])
    case Leave(id) => s.(execs := s.execs - {id})
    case ApiCreateTarget(t) => s.(store := s.store.(targets := s.store.targets[t := Target(true, false)]))
    case ApiSetEnabled(t, on, fault) => s.(store := Under(s.store, SetEnabled(s.store, t, on), fault).0)
    case ApiRetire(t, fault) => s.(store := Under(s.store, RetireTarget(s.store, t), fault).0)
    case ApiRequest(id, t, fault) => s.(store := Under(s.store, CreateRun(s.store, id, t), fault).0)
    case ApiReadQueued(id) => s.(cancels := s.cancels + {id})
    case ApiCancelQueued(id, fault) =>
      s.(store := Under(s.store, UpdateRun(s.store, id, Cancelled, Queued, EventFor(id, Cancelled)), fault).0,
         cancels := s.cancels - {id})
  }

  // ----- the invariant ------------------------------------------------------------------

  predicate InFlight(status: Status) {
    status == Starting || status == Running
  }

  /** While a run is in flight nobody else writes it, so its status is one the
      execution can account for, and the expected status is never terminal. */
  predicate StatusFits(status: Status, e: Exec) {
    match e.pc
    case Preparing => status == Starting && e.recorded == Starting
    case RecordStart(_, _) => InFlight(status) && e.recorded == Starting
    case RereadStart(_, _) => InFlight(status) && e.recorded == Starting
    case Waiting => InFlight(status) && InFlight(e.recorded) && (e.recorded == Running ==> status == Running)
    case Outcome => InFlight(status) && InFlight(e.recorded) && (e.recorded == Running ==> status == Running)
    case Finish(want, n) => FinishOk(status, e.recorded, want) && (n > 0 ==> e.recorded == Running)
    case RereadFinish(want, n) =>
      FinishOk(status, e.recorded, want) && status != e.recorded && (n > 0 ==> e.recorded == Running)
    case Leaving => status != Queued
  }

  predicate ExecOk(s: Store, id: RunId, e: Exec) {
    id in s.runs && StatusFits(s.runs[id].status, e)
  }

  predicate FinishOk(status: Status, recorded: Status, want: Status) {
    && !want.Active() && InFlight(recorded)
    && (InFlight(status) || status == want)
    && (recorded == Running ==> status != Starting)
  }

  ghost predicate LoopOk(s: State) {
    match s.loop
    case Down => s.execs == map[]
    case Claimed(id) =>
      id in s.store.runs && s.store.runs[id].status == Starting && id !in s.execs && |s.execs| < s.maxRuns
    case SweepWrite(item, todo, recovering) =>
      && item.id !in s.execs && InFlight(item.prev)
      && (forall i | 0 <= i < |todo| :: todo[i].prev.Active())
      && (recovering ==> s.execs == map[])
    case SweepAt(todo, recovering) =>
      (forall i | 0 <= i < |todo| :: todo[i].prev.Active()) && (recovering ==> s.execs == map[])
    case SweepList(recovering) => recovering ==> s.execs == map[]
    case _ => true
  }

  /** Every run in flight is on the list, with the status it has. */
  predicate OnTheList(s: Store, todo: seq<Listed>) {
    forall id | id in s.runs && InFlight(s.runs[id].status) :: Listed(id, s.runs[id].status) in todo
  }

  /** While a restarted process recovers, what is still in flight is still to be looked at. */
  predicate RecoveryOk(s: State) {
    match s.loop
    case SweepAt(todo, recovering) => recovering ==> OnTheList(s.store, todo)
    case SweepWrite(item, todo, recovering) => recovering ==> OnTheList(s.store, [item] + todo)
    case _ => true
  }

  ghost predicate Inv(s: State) {
    && Consistent(s.store)
    && (forall id | id in s.execs :: ExecOk(s.store, id, s.execs[id]))
    && LoopOk(s) && RecoveryOk(s)
    && |s.execs| <= s.maxRuns
  }

  predicate Init(s: State) {
    s.store == Store(map[], map[], []) && s.execs == map[] && s.loop == Down && s.cancels == {}
  }

  lemma InitHolds(s: State)
    requires Init(s)
    ensures Inv(s)
  {}

  /** Only one run changes, and not one whose execution it would surprise. */
  ghost predicate OthersKept(before: Store, after: Store, id: RunId) {
    forall other | other in before.runs && other != id :: other in after.runs && after.runs[other] == before.runs[other]
  }

  lemma {:induction false} ExecWriteKeeps(s: Store, id: RunId, e: Exec, fault: Fault, again: bool)
    requires Consistent(s) && ExecOk(s, id, e) && (e.pc.RecordStart? || e.pc.Finish?)
    ensures var (after, e') := WriteNext(s, id, e, fault, again);
            Consistent(after) && MovedForward(s, after) && OthersKept(s, after, id) && ExecOk(after, id, e')
  {
    var want := if e.pc.RecordStart? then Running else e.pc.want;
    ForwardUpdateIsConsistent(s, id, want, e.recorded);
  }

  lemma {:induction false} ExecStepKeeps(s: Store, id: RunId, e: Exec, a: Action)
    requires Consistent(s) && ExecOk(s, id, e) && ActionEnabled(e, a)
    ensures var (after, e') := ExecNext(s, id, e, a);
            Consistent(after) && MovedForward(s, after) && OthersKept(s, after, id) && ExecOk(after, id, e')
  {
    if a.Write? {
      ExecWriteKeeps(s, id, e, a.fault, a.again);
    }
  }

  /** An execution ends its run before it leaves, and leaves with the outcome recorded unless
      its last call meets a fault and it is out of time. */
  lemma {:induction false} LeavesWithTheOutcome(s: Store, id: RunId, e: Exec, a: Action)
    requires ExecOk(s, id, e) && ActionEnabled(e, a)
    ensures var (after, e') := ExecNext(s, id, e, a);
            e'.pc == Leaving ==>
              && (e.pc.Finish? || e.pc.RereadFinish?)
              && (|| after.runs[id].status == e.pc.want
                  || (a.Write? && a.fault != NoFault && !a.again) || (a.Read? && !a.ok && !a.again))
  {}

  /** The steps of handlers and of the planner do what they are for: with no fault a queued run
      is cancelled, a target retired, its flag set, a run queued wherever the registry's rules
      allow it, and one that is lost does nothing. */
  lemma {:induction false} HandlersTakeEffect(s: State, step: Step)
    requires Enabled(s, step)
    ensures var before, after := s.store, Apply(s, step).store;
            match step
            case ApiCancelQueued(id, fault) =>
              && (fault == LostWrite ==> after == before)
              && (fault != LostWrite && id in before.runs && before.runs[id].status == Queued ==>
                    after.runs == before.runs[id := Run(before.runs[id].target, Cancelled)]
                    && after.log == before.log + [Ended(id, Cancelled)])
            case ApiRetire(t, fault) =>
              && (fault == LostWrite ==> after == before)
              && (fault != LostWrite && t in before.targets && before.targets[t] == Target(false, false)
                  && !HasActive(before.runs, t) ==>
                    t in after.targets && after.targets[t].retired)
            case ApiSetEnabled(t, on, fault) =>
              && (fault == LostWrite ==> after == before)
              && (fault != LostWrite && t in before.targets && !before.targets[t].retired ==>
                    after.targets == before.targets[t := Target(on, false)])
            case ApiRequest(id, t, fault) => Queues(before, after, id, t, fault)
            case PlanRun(id, t, fault) => Queues(before, after, id, t, fault)
            case _ => true
  {}

  predicate Queues(before: Store, after: Store, id: RunId, t: TargetId, fault: Fault) {
    && (fault == LostWrite ==> after == before)
    && (fault != LostWrite && t in before.targets && !before.targets[t].retired
        && id !in before.runs && !HasActive(before.runs, t) ==>
          after.runs == before.runs[id := Run(t, Queued)] && after.log == before.log + [Requested(id)])
  }

  lemma {:induction false} TargetHandlerStep(s: State, step: Step)
    requires Consistent(s.store) && Enabled(s, step)
    requires step.ApiCreateTarget? || step.ApiSetEnabled? || step.ApiRetire?
    ensures Consistent(Apply(s, step).store) && MovedForward(s.store, Apply(s, step).store)
  {
    match step
    case ApiRetire(t, _) => RetireIsConsistent(s.store, t);
    case ApiSetEnabled(t, on, _) => TargetsOnlyIsConsistent(s.store, SetEnabled(s.store, t, on).0);
    case ApiCreateTarget(t) => TargetsOnlyIsConsistent(s.store, Apply(s, step).store);
  }

  lemma {:induction false} RunHandlerStep(s: State, step: Step)
    requires Consistent(s.store) && Enabled(s, step) && (step.ApiRequest? || step.ApiCancelQueued?)
    ensures Consistent(Apply(s, step).store) && MovedForward(s.store, Apply(s, step).store)
  {
    match step
    case ApiRequest(id, t, _) => CreateIsConsistent(s.store, id, t);
    case ApiCancelQueued(id, _) => ForwardUpdateIsConsistent(s.store, id, Cancelled, Queued);
  }

  /** What a step does to the store, whoever takes it. */
  lemma {:induction false} StoreStep(s: State, step: Step)
    requires Inv(s) && Enabled(s, step)
    ensures Consistent(Apply(s, step).store) && MovedForward(s.store, Apply(s, step).store)
  {
    match step
    case CloseStranded(_) => ForwardUpdateIsConsistent(s.store, s.loop.item.id, Failed, s.loop.item.prev);
    case PlanRun(id, t, _) => CreateIsConsistent(s.store, id, t);
    case ClaimOldest(id, _) => ClaimIsConsistent(s.store, id);
    case Execute(id, a) => ExecStepKeeps(s.store, id, s.execs[id], a);
    case ApiReadQueued(_) =>
    case ApiCreateTarget(_) | ApiSetEnabled(_, _, _) | ApiRetire(_, _) => TargetHandlerStep(s, step);
    case ApiRequest(_, _, _) | ApiCancelQueued(_, _) => RunHandlerStep(s, step);
    case _ =>
  }

  lemma {:induction false} TargetsOnlyIsConsistent(s: Store, after: Store)
    requires Consistent(s) && after.runs == s.runs && after.log == s.log
    requires forall t | t in s.targets && !s.targets[t].retired :: t in after.targets && !after.targets[t].retired
    ensures Consistent(after)
  {
    forall id: RunId ensures LogAgreesAbout(after, id) {
      assert LogAgreesAbout(s, id);
    }
  }

  /** Only the execution of a run in flight changes that run: the sweep skips it,
      a cancelling handler expects it queued, and nobody claims it again. */
  lemma {:induction false} InFlightRunIsKept(s: State, step: Step, id: RunId)
    requires Enabled(s, step) && !step.Execute? && LoopOk(s) && id in s.execs
    requires id in s.store.runs && s.store.runs[id].status != Queued
    ensures id in Apply(s, step).store.runs && Apply(s, step).store.runs[id] == s.store.runs[id]
  {}

  lemma {:induction false} OtherExecStep(s: State, step: Step, id: RunId)
    requires Enabled(s, step) && !step.Execute? && LoopOk(s) && id in Apply(s, step).execs
    requires id in s.execs ==> ExecOk(s.store, id, s.execs[id])
    ensures ExecOk(Apply(s, step).store, id, Apply(s, step).execs[id])
  {
    if id in s.execs {
      InFlightRunIsKept(s, step, id);
    }
  }

  lemma {:induction false} ExecsStep(s: State, step: Step)
    requires Inv(s) && Enabled(s, step)
    ensures forall id | id in Apply(s, step).execs :: ExecOk(Apply(s, step).store, id, Apply(s, step).execs[id])
  {
    if step.Execute? {
      ExecStepKeeps(s.store, step.id, s.execs[step.id], step.action);
    } else {
      forall id | id in Apply(s, step).execs
        ensures ExecOk(Apply(s, step).store, id, Apply(s, step).execs[id])
      {
        OtherExecStep(s, step, id);
      }
    }
  }

  predicate MovesLoop(step: Step) {
    match step
    case Boot | Crash | List(_) | ListFails | CheckNext | CloseStranded(_) | Tick | EndPlan
       | ClaimOldest(_, _) | Register | EndDispatch => true
    case _ => false
  }

  /** A claimed run that is not registered yet is out of everybody's reach. */
  lemma {:induction false} ClaimedRunIsKept(s: State, step: Step)
    requires Inv(s) && Enabled(s, step) && !MovesLoop(step) && s.loop.Claimed?
    ensures s.loop.id in Apply(s, step).store.runs
         && Apply(s, step).store.runs[s.loop.id] == s.store.runs[s.loop.id]
  {
    if step.Execute? {
      ExecStepKeeps(s.store, step.id, s.execs[step.id], step.action);
    }
  }

  /** The steps of executions and handlers add nothing to the in-flight map. */
  lemma {:induction false} InFlightMapStep(s: State, step: Step)
    requires |s.execs| <= s.maxRuns && Enabled(s, step) && !MovesLoop(step)
    ensures Apply(s, step).execs.Keys <= s.execs.Keys && |Apply(s, step).execs| <= |s.execs|
  {}

  lemma {:induction false} OtherStepKeepsLoop(s: State, step: Step)
    requires Inv(s) && Enabled(s, step) && !MovesLoop(step)
    ensures LoopOk(Apply(s, step)) && |Apply(s, step).execs| <= s.maxRuns
  {
    InFlightMapStep(s, step);
    assert Apply(s, step).loop == s.loop;
    if s.loop.Claimed? {
      ClaimedRunIsKept(s, step);
    }
  }

  lemma {:induction false} LoopStep(s: State, step: Step)
    requires LoopOk(s) && |s.execs| <= s.maxRuns && Enabled(s, step) && MovesLoop(step)
    requires forall id | id in s.execs :: id in s.store.runs && s.store.runs[id].status != Queued
    ensures LoopOk(Apply(s, step)) && |Apply(s, step).execs| <= s.maxRuns
  {}

  lemma {:induction false} SweepStepRecovers(s: State, step: Step)
    requires LoopOk(s) && RecoveryOk(s) && Enabled(s, step) && MovesLoop(step)
    ensures RecoveryOk(Apply(s, step))
  {
    if step.CheckNext? && s.loop.todo != [] {
      assert s.loop.todo == [s.loop.todo[0]] + s.loop.todo[1..];
    }
  }

  /** Nobody but the loop and the executions brings a run into flight or changes one that is. */
  lemma {:induction false} OthersBringNothingIntoFlight(s: State, step: Step, id: RunId)
    requires Enabled(s, step) && !MovesLoop(step) && s.execs == map[]
    requires id in Apply(s, step).store.runs && InFlight(Apply(s, step).store.runs[id].status)
    ensures id in s.store.runs && s.store.runs[id].status == Apply(s, step).store.runs[id].status
  {}

  lemma {:induction false} RecoveryKeeps(s: State, step: Step)
    requires LoopOk(s) && RecoveryOk(s) && Enabled(s, step)
    ensures RecoveryOk(Apply(s, step))
  {
    if MovesLoop(step) {
      SweepStepRecovers(s, step);
    } else if (s.loop.SweepAt? || s.loop.SweepWrite?) && s.loop.recovering {
      var after := Apply(s, step);
      assert after.loop == s.loop;
      forall id | id in after.store.runs && InFlight(after.store.runs[id].status)
        ensures id in s.store.runs && s.store.runs[id].status == after.store.runs[id].status
      {
        OthersBringNothingIntoFlight(s, step, id);
      }
    }
  }

  lemma {:induction false} InvIsInductive(s: State, step: Step)
    requires Inv(s) && Enabled(s, step)
    ensures Inv(Apply(s, step))
  {
    StoreStep(s, step);
    ExecsStep(s, step);
    RecoveryKeeps(s, step);
    if MovesLoop(step) {
      LoopStep(s, step);
    } else {
      OtherStepKeepsLoop(s, step);
    }
  }

  // ----- whole runs of the machine ----------------------------------------------------

  ghost predicate StepAt(states: seq<State>, steps: seq<Step>, i: nat)
    requires i < |steps| && |states| == |steps| + 1
  {
    Enabled(states[i], steps[i]) && states[i + 1] == Apply(states[i], steps[i])
  }

  ghost predicate IsRun(states: seq<State>, steps: seq<Step>) {
    && |states| == |steps| + 1
    && Init(states[0])
    && forall i: nat | i < |steps| :: StepAt(states, steps, i)
  }

  lemma {:induction false} EveryStateIsConsistent(states: seq<State>, steps: seq<Step>, i: nat)
    requires IsRun(states, steps) && i < |states|
    ensures Inv(states[i])
  {
    if i == 0 {
      InitHolds(states[0]);
    } else {
      EveryStateIsConsistent(states, steps, i - 1);
      assert StepAt(states, steps, i - 1);
      InvIsInductive(states[i - 1], steps[i - 1]);
    }
  }

  lemma {:induction false} OneStepMovesForward(states: seq<State>, steps: seq<Step>, i: nat)
    requires IsRun(states, steps) && i < |steps|
    ensures MovedForward(states[i].store, states[i + 1].store)
  {
    EveryStateIsConsistent(states, steps, i);
    assert StepAt(states, steps, i);
    StoreStep(states[i], steps[i]);
  }

  lemma {:induction false} StatusesMoveForward(states: seq<State>, steps: seq<Step>, i: nat, j: nat)
    requires IsRun(states, steps) && i <= j < |states|
    ensures MovedForward(states[i].store, states[j].store)
    decreases j
  {
    if i < j {
      StatusesMoveForward(states, steps, i, j - 1);
      OneStepMovesForward(states, steps, j - 1);
      MovedForwardIsTransitive(states[i].store, states[j - 1].store, states[j].store);
    }
  }

  /** The run lifecycle in every interleaving, with any faults and restarts: a target
      never has two active runs; a status only moves forward and a terminal one never
      changes; the audit log agrees with the status; and no more runs execute than
      the configuration allows. */
  lemma {:induction false} RunLifecycle(states: seq<State>, steps: seq<Step>, i: nat, j: nat, id: RunId)
    requires IsRun(states, steps) && i <= j < |states|
    ensures OneActivePerTarget(states[j].store) && RetiredAreIdle(states[j].store)
    ensures id in states[i].store.runs ==>
              && id in states[j].store.runs
              && Forward(states[i].store.runs[id].status, states[j].store.runs[id].status)
              && (!states[i].store.runs[id].status.Active() ==> states[j].store.runs[id] == states[i].store.runs[id])
    ensures Times(states[j].store.log, Started(id)) <= 1
    ensures forall o: Status :: Times(states[j].store.log, Ended(id, o)) ==
              if id in states[j].store.runs && states[j].store.runs[id].status == o && !o.Active() then 1 else 0
    ensures |states[j].execs| <= states[j].maxRuns
  {
    EveryStateIsConsistent(states, steps, j);
    StatusesMoveForward(states, steps, i, j);
    assert LogAgreesAbout(states[j].store, id);
  }

  predicate NoneInFlight(s: Store) {
    forall id | id in s.runs :: !InFlight(s.runs[id].status)
  }

  /** A process that starts plans nothing before it has swept the registry, and when that has
      gone through no run is in flight any more. Every turn of the loop ends with a sweep, and
      so does one whose claim failed. */
  lemma {:induction false} RecoveryComesFirst(states: seq<State>, steps: seq<Step>, i: nat)
    requires IsRun(states, steps) && i < |steps|
    ensures states[i].loop == Down ==> states[i + 1].loop == Down || states[i + 1].loop == SweepList(true)
    ensures states[i].loop == SweepList(true) ==>
              states[i + 1].loop in {SweepList(true), Down} || (states[i + 1].loop.SweepAt? && states[i + 1].loop.recovering)
    ensures states[i].loop == SweepAt([], true) && steps[i] == CheckNext ==>
              states[i + 1].loop == Planning && NoneInFlight(states[i + 1].store)
    ensures steps[i] == EndDispatch ==> states[i + 1].loop == SweepList(false)
    ensures steps[i].ClaimOldest? && steps[i].fault != NoFault ==> states[i + 1].loop == SweepList(false)
  {
    EveryStateIsConsistent(states, steps, i);
    assert StepAt(states, steps, i);
  }

  /** A start that could not be recorded while the Runner was starting is recorded once it has
      finished. */
  lemma {:induction false} LostStartIsMadeUp(s: State, id: RunId)
    requires id in s.execs && s.execs[id] == Exec(RecordStart(true, 0), Starting)
    requires id in s.store.runs && s.store.runs[id].status == Starting
    ensures Leads(s, [Execute(id, Write(LostWrite, false)), Execute(id, Waited), Execute(id, Write(NoFault, false))],
                  With(s, id, Running, s.store.log + [Started(id)], s.execs[id := Exec(Outcome, Running)]))
  {
    var s1 := Apply(s, Execute(id, Write(LostWrite, false)));
    var s2 := Apply(s1, Execute(id, Waited));
    var s3 := Apply(s2, Execute(id, Write(NoFault, false)));
    assert s3.execs == s.execs[id := Exec(Outcome, Running)];
    assert Leads(s3, [], s3);
    OneMoreStep(s2, Execute(id, Write(NoFault, false)), [], s3);
    OneMoreStep(s1, Execute(id, Waited), [Execute(id, Write(NoFault, false))], s3);
    OneMoreStep(s, Execute(id, Write(LostWrite, false)), [Execute(id, Waited), Execute(id, Write(NoFault, false))], s3);
  }

  /** The given steps can be taken one after the other and lead to the given state. */
  ghost predicate Leads(s: State, steps: seq<Step>, t: State)
    decreases |steps|
  {
    if steps == [] then t == s
    else Enabled(s, steps[0]) && Leads(Apply(s, steps[0]), steps[1..], t)
  }

  lemma {:induction false} OneMoreStep(s: State, step: Step, steps: seq<Step>, t: State)
    requires Enabled(s, step) && Leads(Apply(s, step), steps, t)
    ensures Leads(s, [step] + steps, t)
  {
    assert ([step] + steps)[1..] == steps;
  }

  lemma {:induction false} LeadsOn(s: State, steps: seq<Step>, t: State, more: seq<Step>, u: State)
    requires Leads(s, steps, t) && Leads(t, more, u)
    ensures Leads(s, steps + more, u)
    decreases |steps|
  {
    if steps == [] {
      assert steps + more == more;
    } else {
      LeadsOn(Apply(s, steps[0]), steps[1..], t, more, u);
      OneMoreStep(s, steps[0], steps[1..] + more, u);
      assert [steps[0]] + (steps[1..] + more) == steps + more;
    }
  }

  /** The state with one run's status, the log and the in-flight map replaced. */
  ghost function With(s: State, id: RunId, status: Status, log: seq<Event>, execs: map<RunId, Exec>): State
    requires id in s.store.runs
  {
    s.(store := s.store.(runs := s.store.runs[id := s.store.runs[id].(status := status)], log := log), execs := execs)
  }

  /** The execution of one run with no fault: launched and waited for. */
  function LaunchSteps(id: RunId): seq<Step> {
    [Execute(id, Launch), Execute(id, Write(NoFault, false)), Execute(id, Waited)]
  }

  function OutcomeSteps(id: RunId, outcome: Status): seq<Step> {
    [Execute(id, Decide(outcome)), Execute(id, Write(NoFault, false)), Leave(id)]
  }

  lemma {:induction false} OldestIsTakenUp(s: State, id: RunId)
    requires s.loop == Dispatching && |s.execs| < s.maxRuns && IsOldestQueued(s.store.runs, id)
    ensures Leads(s, [ClaimOldest(id, NoFault), Register],
                  With(s, id, Starting, s.store.log, s.execs[id := Exec(Preparing, Starting)]))
  {
    var s1 := Apply(s, ClaimOldest(id, NoFault));
    var s2 := Apply(s1, Register);
    assert Leads(s2, [], s2);
    OneMoreStep(s1, Register, [], s2);
    OneMoreStep(s, ClaimOldest(id, NoFault), [Register], s2);
  }

  lemma {:induction false} LaunchIsRecorded(s: State, id: RunId)
    requires id in s.execs && s.execs[id] == Exec(Preparing, Starting)
    requires id in s.store.runs && s.store.runs[id].status == Starting
    ensures Leads(s, LaunchSteps(id),
                  With(s, id, Running, s.store.log + [Started(id)], s.execs[id := Exec(Outcome, Running)]))
  {
    var s1 := Apply(s, Execute(id, Launch));
    var s2 := Apply(s1, Execute(id, Write(NoFault, false)));
    var s3 := Apply(s2, Execute(id, Waited));
    assert s3.execs == s.execs[id := Exec(Outcome, Running)];
    assert Leads(s3, [], s3);
    OneMoreStep(s2, Execute(id, Waited), [], s3);
    OneMoreStep(s1, Execute(id, Write(NoFault, false)), [Execute(id, Waited)], s3);
    OneMoreStep(s, Execute(id, Launch), [Execute(id, Write(NoFault, false)), Execute(id, Waited)], s3);
  }

  lemma {:induction false} OutcomeIsRecorded(s: State, id: RunId, outcome: Status)
    requires id in s.execs && s.execs[id] == Exec(Outcome, Running) && !outcome.Active()
    requires id in s.store.runs && s.store.runs[id].status == Running
    ensures Leads(s, OutcomeSteps(id, outcome),
                  With(s, id, outcome, s.store.log + [Ended(id, outcome)], s.execs - {id}))
  {
    var s1 := Apply(s, Execute(id, Decide(outcome)));
    var s2 := Apply(s1, Execute(id, Write(NoFault, false)));
    var s3 := Apply(s2, Leave(id));
    assert s3.execs == s.execs - {id};
    assert Leads(s3, [], s3);
    OneMoreStep(s2, Leave(id), [], s3);
    OneMoreStep(s1, Execute(id, Write(NoFault, false)), [Leave(id)], s3);
    OneMoreStep(s, Execute(id, Decide(outcome)), [Execute(id, Write(NoFault, false)), Leave(id)], s3);
  }

  lemma {:induction false} WithAgain(s: State, id: RunId, a: Status, l: seq<Event>, x: map<RunId, Exec>,
                                     b: Status, m: seq<Event>, y: map<RunId, Exec>)
    requires id in s.store.runs
    ensures With(With(s, id, a, l, x), id, b, m, y) == With(s, id, b, m, y)
  {
    assert s.store.runs[id := s.store.runs[id].(status := a)][id := s.store.runs[id].(status := b)]
        == s.store.runs[id := s.store.runs[id].(status := b)];
  }

  lemma {:induction false} QueuedIsNotExecuting(s: State, id: RunId)
    requires forall x | x in s.execs :: ExecOk(s.store, x, s.execs[x])
    requires id in s.store.runs && s.store.runs[id].status == Queued
    ensures id !in s.execs
  {
    assert id in s.execs ==> ExecOk(s.store, id, s.execs[id]);
  }

  /** The safety is not bought with idleness: while there is room, the oldest queued run can be
      taken up, executed and ended with whatever its Runner reports, leaving exactly its two
      events, every other run and the in-flight map as they were. */
  lemma {:induction false} QueuedRunsAreExecuted(s: State, id: RunId, outcome: Status)
    requires Inv(s) && s.loop == Dispatching && |s.execs| < s.maxRuns && IsOldestQueued(s.store.runs, id)
    requires !outcome.Active()
    ensures Leads(s, [ClaimOldest(id, NoFault), Register] + LaunchSteps(id) + OutcomeSteps(id, outcome),
                  With(s, id, outcome, s.store.log + [Started(id), Ended(id, outcome)], s.execs))
  {
    QueuedIsNotExecuting(s, id);
    TakenUpToItsEnd(s, id, outcome);
  }

  lemma {:induction false} TakenUpToItsEnd(s: State, id: RunId, outcome: Status)
    requires s.loop == Dispatching && |s.execs| < s.maxRuns && IsOldestQueued(s.store.runs, id)
    requires id !in s.execs && !outcome.Active()
    ensures Leads(s, [ClaimOldest(id, NoFault), Register] + LaunchSteps(id) + OutcomeSteps(id, outcome),
                  With(s, id, outcome, s.store.log + [Started(id), Ended(id, outcome)], s.execs))
  {
    var log := s.store.log;
    var preparing, decided := s.execs[id := Exec(Preparing, Starting)], s.execs[id := Exec(Outcome, Running)];
    assert preparing[id := Exec(Outcome, Running)] == decided && decided - {id} == s.execs;
    assert log + [Started(id)] + [Ended(id, outcome)] == log + [Started(id), Ended(id, outcome)];
    var s1 := With(s, id, Starting, log, preparing);
    var s2 := With(s, id, Running, log + [Started(id)], decided);
    OldestIsTakenUp(s, id);
    LaunchIsRecorded(s1, id);
    WithAgain(s, id, Starting, log, preparing, Running, log + [Started(id)], decided);
    LeadsOn(s, [ClaimOldest(id, NoFault), Register], s1, LaunchSteps(id), s2);
    OutcomeIsRecorded(s2, id, outcome);
    WithAgain(s, id, Running, log + [Started(id)], decided, outcome, log + [Started(id), Ended(id, outcome)], s.execs);
    LeadsOn(s, [ClaimOldest(id, NoFault), Register] + LaunchSteps(id), s2, OutcomeSteps(id, outcome),
            With(s, id, outcome, log + [Started(id), Ended(id, outcome)], s.execs));
  }

  /** And a run in flight in the registry that no execution stands behind is closed as failed
      when a sweep that listed it comes to it. */
  lemma {:induction false} StrandedRunsAreClosed(s: State)
    requires s.loop.SweepAt? && |s.loop.todo| > 0 && InFlight(s.loop.todo[0].prev)
    requires var id := s.loop.todo[0].id;
             id !in s.execs && id in s.store.runs && s.store.runs[id].status == s.loop.todo[0].prev
    ensures var id := s.loop.todo[0].id;
            Leads(s, [CheckNext, CloseStranded(NoFault)],
                  With(s, id, Failed, s.store.log + [Ended(id, Failed)], s.execs)
                    .(loop := SweepAt(s.loop.todo[1..], s.loop.recovering)))
  {
    var s1 := Apply(s, CheckNext);
    var s2 := Apply(s1, CloseStranded(NoFault));
    assert Leads(s2, [], s2);
    OneMoreStep(s1, CloseStranded(NoFault), [], s2);
    OneMoreStep(s, CheckNext, [CloseStranded(NoFault)], s2);
  }

  /** What the invariant is for. Had another writer closed a run while it executes,
      the expected-status guard would not save it: the conflict on the start makes the
      execution expect the terminal status, and its outcome then replaces it. */
  lemma WithoutTheInvariantATerminalStatusIsOverwritten(s: State, id: RunId)
    requires id in s.execs && id in s.store.runs
    requires s.execs[id] == Exec(RecordStart(true, 0), Starting) && s.store.runs[id].status == Failed
    ensures !Inv(s)
    ensures var (s1, e1) := ExecNext(s.store, id, s.execs[id], Write(NoFault, false));
            var (s2, e2) := ExecNext(s1, id, e1, Read(true, false));
            var (s3, e3) := ExecNext(s2, id, e2, Waited);
            var (s4, e4) := ExecNext(s3, id, e3, Decide(Succeeded));
            var (s5, e5) := ExecNext(s4, id, e4, Write(NoFault, false));
            s5.runs[id].status == Succeeded && e5.pc == Leaving
  {}
}
