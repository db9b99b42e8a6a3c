/** The path of one claimed run through the scheduler, from the loads to the
    Runner's report, as far as ACME account generations are concerned. */
module Execute {
  import opened Basics
  import Runs
  import opened Accounts
  import T = AccountTable

  /** What a Runner reports about a generation it was sent. */
  datatype Report = Report(account: Account, generation: int, registered: bool)
  datatype Ending = EndSucceeded | EndFailed | EndCancelled
  datatype Result = Result(ending: Ending, report: Option<Report>)

  datatype StartError = StartCancelled | StartFailed
  datatype Reason = Timeout | WaitCancelled | Mismatch | NoResult

  datatype Target = Target(id: string, retired: bool, enabled: bool, revision: int, policy: string, execution: string)
  datatype Policy = Policy(enabled: bool, binding: string)

  /** Everything the execution is told by its surroundings. */
  datatype World = World(
    target: Option<Target>,
    policy: Option<Policy>,
    eabBindings: set<string>,
    targetScoped: set<string>,
    payloadReadable: bool,        // the stored sealed payload decodes
    specValid: bool,
    launchers: set<string>,
    cancelledEarly: bool,
    start: Option<StartError>,
    wait: Wait)

  datatype Wait = Reported(result: Result) | Unreported(reason: Reason)

  /** What became of a claimed generation. */
  datatype Fate = Completed(registered: bool) | Released

  /** The calls made about a generation, in order. */
  datatype Call = Claimed(key: Key) | Resolved(key: Key, fate: Fate)

  /** The checks a run must pass before a generation can be claimed for it. */
  predicate Proceeds(w: World, revision: int) {
    && w.target.Some? && !w.target.value.retired && w.target.value.enabled && w.target.value.revision == revision
    && w.policy.Some? && w.policy.value.enabled
  }

  function AccountOf(w: World): Account
    requires w.target.Some? && w.policy.Some?
  {
    var binding := w.policy.value.binding;
    Account(binding, if binding in w.targetScoped then w.target.value.id else "")
  }

  /** Nothing after the account was chosen keeps the job from a Runner. */
  predicate Launched(w: World) {
    && w.specValid && w.target.Some? && w.target.value.execution in w.launchers
    && !w.cancelledEarly && w.start.None?
  }

  /** The run finds a generation to claim. */
  ghost predicate Carries(w: World, t: Table)
    requires w.target.Some? && w.policy.Some?
  {
    && AccountOf(w).binding in w.eabBindings
    && exists k :: k in t && k.account == AccountOf(w) && t[k].phase == Provisioning && t[k].run == None
  }

  /** The run has an account to work with: a readable credential for a claimed generation, an
      active generation, or the binding's own unversioned account. */
  ghost predicate Accounted(w: World, t: Table)
    requires w.target.Some? && w.policy.Some?
  {
    if Carries(w, t) then w.payloadReadable
    else AccountOf(w).scope == "" || exists k :: k in t && k.account == AccountOf(w) && t[k].phase == Active
  }

  /** The target or its policy was withdrawn after the run was planned. */
  predicate Overtaken(w: World, revision: int) {
    && w.target.Some?
    && (w.target.value.retired || !w.target.value.enabled || w.target.value.revision != revision
        || (w.policy.Some? && !w.policy.value.enabled))
  }

  /** The job could be started, and the run was cancelled before it was, while it ran, or by
      the Runner. */
  predicate Interrupted(w: World) {
    && w.specValid && w.target.Some? && w.target.value.execution in w.launchers
    && (w.cancelledEarly || w.start == Some(StartCancelled)
        || (w.start.None? && (w.wait == Unreported(WaitCancelled) || (w.wait.Reported? && w.wait.result.ending == EndCancelled))))
  }

  /** The stored credential, which a row without one lacks. */
  function PayloadOf(row: Row): string {
    if row.payload.Some? then row.payload.value else ""
  }

  /** What the job says about an account: its generation, and the credential when it is to be
      provisioned. */
  datatype Sent = Sent(key: Key, payload: Option<string>)

  /** The report is about exactly the generation the run carried. */
  predicate Matches(r: Report, k: Key) {
    r.account == k.account && r.generation == k.generation
  }

  /** A generation is burnt when its outcome is unknown, activated on a matching
      report of success, and given back when no Runner attempted it. */
  function FateOf(w: World, k: Key): Fate {
    if !w.payloadReadable then Completed(false)
    else if !Launched(w) then Released
    else match w.wait
      case Unreported(_) => Completed(false)
      case Reported(result) =>
        match result.report
        case None => Released
        case Some(r) => Completed(Matches(r, k) && r.registered)
  }

  function Settle(t: Table, k: Key, run: RunId, fate: Fate): Table {
    match fate
    case Completed(registered) => Complete(t, k, run, registered).0
    case Released => Release(t, k, run)
  }

  class Execution {
    const table: T.AccountTable
    const run: RunId
    ghost var calls: seq<Call>

    constructor (table: T.AccountTable, run: RunId)
      ensures this.table == table && this.run == run && calls == []
    {
      this.table := table;
      this.run := run;
      calls := [];
    }

    /** Resolves a claimed generation once the Runner has ended. */
    method FinishProvisioning(a: Account, claimed: Option<int>, wait: Wait)
      modifies this`calls, table
      ensures claimed.None? ==> calls == old(calls) && table.rows == old(table.rows)
      ensures claimed.Some? ==>
                var k := Key(a, claimed.value);
                var fate := match wait
                            case Unreported(_) => Completed(false)
                            case Reported(result) => (match result.report
                              case None => Released
                              case Some(r) => Completed(Matches(r, k) && r.registered));
                calls == old(calls) + [Resolved(k, fate)] && table.rows == Settle(old(table.rows), k, run, fate)
    {
      if claimed.None? {
        return;
      }
      var k := Key(a, claimed.value);
      match wait {
        case Unreported(_) =>
          var _ := table.Complete(k, run, false);
          calls := calls + [Resolved(k, Completed(false))];
        case Reported(result) =>
          if result.report.Some? {
            var r := result.report.value;
            if r.account.binding == a.binding && r.account.scope == a.scope && r.generation == claimed.value {
              var _ := table.Complete(k, run, r.registered);
              calls := calls + [Resolved(k, Completed(r.registered))];
            } else {
              var _ := table.Complete(k, run, false);
              calls := calls + [Resolved(k, Completed(false))];
            }
          } else {
            table.Release(k, run);
            calls := calls + [Resolved(k, Released)];
          }
      }
    }

    /** Gives a claimed generation back, if there is one; nothing is claimed after. */
    method GiveBack(a: Account, claimed: Option<int>) returns (left: Option<int>)
      modifies this`calls, table
      ensures left.None?
      ensures claimed.None? ==> calls == old(calls) && table.rows == old(table.rows)
      ensures claimed.Some? ==>
                && calls == old(calls) + [Resolved(Key(a, claimed.value), Released)]
                && table.rows == Release(old(table.rows), Key(a, claimed.value), run)
    {
      if claimed.Some? {
        table.Release(Key(a, claimed.value), run);
        calls := calls + [Resolved(Key(a, claimed.value), Released)];
      }
      left := None;
    }

    /** Claims a generation for the run, or falls back on the active one. Without either there
        is an account only for a binding that keeps one of its own; a claimed credential that
        cannot be read is burnt. */
    method TakeAccount(w: World) returns (ok: bool, claimed: Option<int>, reference: Option<Sent>)
      requires calls == [] && table.Checked() && w.target.Some? && w.policy.Some?
      modifies this`calls, table
      ensures ok <==> Accounted(w, old(table.rows))
      ensures claimed.Some? <==> Carries(w, old(table.rows))
      ensures claimed.None? ==> calls == [] && table.rows == old(table.rows)
      ensures claimed.Some? ==>
                var k := Key(AccountOf(w), claimed.value);
                && Claimable(old(table.rows), k)
                && reference == Some(Sent(k, Some(PayloadOf(old(table.rows)[k]))))
                && calls == [Claimed(k)] + (if ok then [] else [Resolved(k, Completed(false))])
                && table.rows == if ok then Claim(old(table.rows), k, run)
                                 else Settle(Claim(old(table.rows), k, run), k, run, Completed(false))
      ensures ok && claimed.None? && reference.Some? ==>
                && reference.value.payload == None && reference.value.key.account == AccountOf(w)
                && HasPhase(old(table.rows), reference.value.key, Active)
      ensures ok && claimed.None? && reference.None? ==>
                AccountOf(w).scope == "" && !HasActive(old(table.rows), AccountOf(w))
    {
      var binding := w.policy.value.binding;
      var account := Account(binding, if binding in w.targetScoped then w.target.value.id else "");
      ok, claimed, reference := true, None, None;
      if binding in w.eabBindings {
        var payload;
        claimed, payload := table.Claim(account, run);
        if claimed.Some? {
          var k := Key(account, claimed.value);
          calls := calls + [Claimed(k)];
          reference := Some(Sent(k, Some(payload)));
        }
      }
      if claimed.Some? {
        if !w.payloadReadable {
          FinishProvisioning(account, claimed, Unreported(NoResult));
          ok := false;
        }
      } else {
        var active := table.ActiveGeneration(account);
        if active > 0 {
          reference := Some(Sent(Key(account, active), None));
        } else {
          ok := account.scope == "";
        }
      }
    }

    /** Drives the run to the status to record for it. Registry calls succeed. It succeeds exactly
        when it passes every check, has an account, is launched and its Runner reports success;
        it is cancelled exactly when it was overtaken or interrupted; otherwise it fails. */
    method Execute(w: World, revision: int)
      returns (status: Runs.Status, ghost claimed: Option<Key>, ghost sent: Option<Sent>)
      requires calls == [] && table.Checked()
      modifies this`calls, table
      ensures !status.Active()
      ensures claimed.Some? <==> Proceeds(w, revision) && Carries(w, old(table.rows))
      ensures claimed.None? ==> calls == [] && table.rows == old(table.rows)
      ensures claimed.Some? ==>
                var k := claimed.value;
                && k.account == AccountOf(w) && Claimable(old(table.rows), k)
                && calls == [Claimed(k), Resolved(k, FateOf(w, k))]
                && table.rows == Settle(Claim(old(table.rows), k, run), k, run, FateOf(w, k))
      ensures status == Runs.Succeeded <==>
                && Proceeds(w, revision) && Accounted(w, old(table.rows)) && Launched(w)
                && w.wait.Reported? && w.wait.result.ending == EndSucceeded
      ensures status == Runs.Cancelled <==>
                || Overtaken(w, revision)
                || (Proceeds(w, revision) && Accounted(w, old(table.rows)) && Interrupted(w))
      ensures sent.Some? ==> Proceeds(w, revision) && Accounted(w, old(table.rows)) && Launched(w)
      ensures sent.Some? ==>
                && sent.value.key.account.binding == w.policy.value.binding
                && sent.value.key.account.scope ==
                     if w.policy.value.binding in w.targetScoped then w.target.value.id else ""
      ensures Proceeds(w, revision) && Accounted(w, old(table.rows)) && Launched(w) ==>
                if claimed.Some? then sent == Some(Sent(claimed.value, Some(PayloadOf(old(table.rows)[claimed.value]))))
                else if sent.Some?
                then sent.value.payload == None && sent.value.key.account == AccountOf(w)
                     && HasPhase(old(table.rows), sent.value.key, Active)
                else AccountOf(w).scope == "" && !HasActive(old(table.rows), AccountOf(w))
    {
      claimed, sent := None, None;
      if w.target.None? {
        return Runs.Failed, claimed, sent;
      }
      var target := w.target.value;
      if target.retired || !target.enabled || target.revision != revision {
        return Runs.Cancelled, claimed, sent;
      }
      if w.policy.None? {
        return Runs.Failed, claimed, sent;
      }
      if !w.policy.value.enabled {
        return Runs.Cancelled, claimed, sent;
      }
      var account := AccountOf(w);
      var ok, generation, reference := TakeAccount(w);
      claimed := if generation.Some? then Some(Key(account, generation.value)) else None;
      if !ok {
        return Runs.Failed, claimed, sent;
      }
      if !w.specValid {
        generation := GiveBack(account, generation);
        return Runs.Failed, claimed, sent;
      }
      if target.execution !in w.launchers {
        generation := GiveBack(account, generation);
        return Runs.Failed, claimed, sent;
      }
      if w.cancelledEarly {
        generation := GiveBack(account, generation);
        return Runs.Cancelled, claimed, sent;
      }
      if w.start.Some? {
        generation := GiveBack(account, generation);
        return if w.start.value == StartCancelled then Runs.Cancelled else Runs.Failed, claimed, sent;
      }
      sent := reference;
      FinishProvisioning(account, generation, w.wait);
      match w.wait {
        case Unreported(reason) =>
          status := if reason == WaitCancelled then Runs.Cancelled else Runs.Failed;
        case Reported(result) =>
          match result.ending {
            case EndSucceeded => status := Runs.Succeeded;
            case EndCancelled => status := Runs.Cancelled;
            case EndFailed => status := Runs.Failed;
          }
      }
    }
  }

  /** The one way a claimed generation becomes active. */
  predicate Activates(w: World, k: Key) {
    && w.payloadReadable && Launched(w) && w.wait.Reported? && w.wait.result.report.Some?
    && Matches(w.wait.result.report.value, k) && w.wait.result.report.value.registered
  }

  /** After a run has resolved its generation nothing is attached to the run any more;
      the generation is active exactly on a matching report of success; one that was
      given back is as if it had never been claimed; and nothing else changes except
      that an activation retires its predecessor. */
  lemma {:induction false} NothingStaysAttached(t: Table, k: Key, run: RunId, w: World)
    requires Claimable(t, k) && forall x | x in t :: t[x].run != Some(run)
    ensures var after := Settle(Claim(t, k, run), k, run, FateOf(w, k));
            && (forall x | x in after :: after[x].run != Some(run))
            && (HasPhase(after, k, Active) <==> Activates(w, k))
            && (HasPhase(after, k, Provisioning) ==> after == t)
            && (forall x | x in t && x.account != k.account :: x in after && after[x] == t[x])
            && (!Activates(w, k) ==> forall x | x in t && x != k :: x in after && after[x] == t[x])
  {}

  /** What a claimed generation's row was before the claim, and has become by its resolution. */
  function RowAfter(before: Row, fate: Fate): Row {
    match fate
    case Released => before
    case Completed(registered) => Row(if registered then Active else Failed, None, None)
  }

  /** The same with every other writer of the table at work between the claim and the
      resolution: the claim's own row is the only thing the resolution decides, as the outcome
      calls for, besides retiring the predecessor of a generation it activates. */
  lemma {:induction false} ResolvedDespiteOthers(
      tables: seq<Table>, ops: seq<Op>, i: nat, j: nat, k: Key, run: RunId, w: World)
    requires IsHistory(tables, ops) && i < j < |tables|
    requires Claimable(tables[i], k) && ops[i] == DoClaim(k, run)
    requires forall m: nat | i < m < j :: !Detaches(ops[m], k, run)
    ensures k in tables[j] && tables[j][k] == tables[i][k].(run := Some(run))
    ensures var after := Settle(tables[j], k, run, FateOf(w, k));
            && Valid(after) && Evolves(tables[j], after)
            && k in after && after[k] == RowAfter(tables[i][k], FateOf(w, k))
            && (HasPhase(after, k, Active) <==> Activates(w, k))
            && (forall x | x in tables[j] && x.account != k.account :: x in after && after[x] == tables[j][x])
            && (!Activates(w, k) ==> forall x | x in tables[j] && x != k :: x in after && after[x] == tables[j][x])
  {
    assert OpAt(tables, ops, i);
    EveryTableIsValid(tables, ops, j);
    AttachedUntilResolved(tables, ops, i + 1, j, k, run);
    SettlingLeadsTo(tables[j], k, run, FateOf(w, k));
  }

  /** And the table the run leaves behind is one the account lifecycle allows. */
  lemma {:induction false} RunKeepsAccounts(t: Table, k: Key, run: RunId, w: World)
    requires Valid(t) && Claimable(t, k)
    ensures var after := Settle(Claim(t, k, run), k, run, FateOf(w, k)); Valid(after) && Evolves(t, after)
  {
    var claimed := Claim(t, k, run);
    OpLeadsTo(t, DoClaim(k, run), claimed);
    SettlingLeadsTo(claimed, k, run, FateOf(w, k));
    EvolvesIsTransitive(t, claimed, Settle(claimed, k, run, FateOf(w, k)));
  }

  lemma {:induction false} SettlingLeadsTo(t: Table, k: Key, run: RunId, fate: Fate)
    requires Valid(t)
    ensures Valid(Settle(t, k, run, fate)) && Evolves(t, Settle(t, k, run, fate))
  {
    match fate
    case Completed(registered) => OpLeadsTo(t, DoComplete(k, run, registered), Settle(t, k, run, fate));
    case Released => OpLeadsTo(t, DoRelease(k, run), Settle(t, k, run, fate));
  }
}
