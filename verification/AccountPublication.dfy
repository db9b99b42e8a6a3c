/** An account generation from the Conductor's table to a Runner's disk and back:
    the API, the executions of the Conductor and any number of Runners as one machine.
    Assumed: a report attributed to a run was made by a Runner given that run's job,
    and lego never removes the registration of an account it was given. */
module AccountPublication {
  import opened Basics
  import Decimal
  import Runs
  import opened Accounts
  import opened Execute

  // ----- where an account lives ---------------------------------------------------------

  /** Components below the Runner's state directory. */
  type Path = seq<string>

  const GENERATIONS_DIR := "acme-accounts"
  const TARGETS_DIR := "targets"

  /** The root of a generation; the legacy account lives in the state directory itself. */
  function Root(key: Option<Key>): Path
    requires key.Some? ==> key.value.generation >= 0
  {
    match key
    case None => []
    case Some(k) =>
      [GENERATIONS_DIR, k.account.binding]
      + (if k.account.scope == "" then [] else [TARGETS_DIR, k.account.scope])
      + [Decimal.Render(k.generation)]
  }

  /** Two generations never share a directory, and neither lies inside the other, even
      when a target is named like a generation number. */
  lemma {:induction false} RootsNeverOverlap(j: Key, k: Key)
    requires 0 <= j.generation && 0 <= k.generation
    ensures Root(Some(j)) <= Root(Some(k)) ==> j == k
    ensures Root(None) < Root(Some(k))
  {
    var p, q := Root(Some(j)), Root(Some(k));
    if p <= q {
      assert p[1] == q[1] && p[2] == q[2];
      Decimal.RenderIsReadable(j.generation);
      if j.account.scope == "" && k.account.scope == "" {
        Decimal.RenderIsInjective(j.generation, k.generation);
      } else if j.account.scope != "" && k.account.scope != "" {
        assert p[3] == q[3] && p[4] == q[4];
        Decimal.RenderIsInjective(j.generation, k.generation);
      } else if j.account.scope == "" {
        NotANumeral(p[2]);
      }
    }
  }

  lemma NotANumeral(s: string)
    requires |s| > 0 && Decimal.AllDigits(s)
    ensures s != TARGETS_DIR
  {
    assert Decimal.IsDigit(s[0]);
  }

  /** Account files by path, with the registration URI each one holds, "" when it holds
      none or cannot be read. */
  type Tree = map<string, string>

  predicate Registered(t: Tree) {
    exists p :: p in t && t[p] != ""
  }

  predicate WorkRegistered(work: Option<Tree>) {
    work.Some? && Registered(work.value)
  }

  // ----- the machine -----------------------------------------------------------------------

  datatype Job = Job(key: Option<Key>, provisioning: bool)

  datatype Stage = Preparing | Loaded | Cleared | Issued | Persisted(ok: bool) | Ended

  /** One Runner process; status is what it will say about a generation it provisions. */
  datatype Runner = Runner(run: RunId, stage: Stage, work: Option<Tree>, status: bool)

  /** A published version, and the job's key its publisher had been given. */
  datatype Published = Published(tree: Tree, publisher: Option<Key>)

  datatype State = State(
    table: Table,
    jobs: map<RunId, Job>,
    runners: map<nat, Runner>,
    roots: map<Path, Published>,
    reports: set<(RunId, Report)>)

  /** A publication may fail before the link is swapped or be reported as a failure after. */
  datatype Fault = NoFault | Lost | Late

  datatype Step =
    | Api(op: Op)
    | ClaimFor(run: RunId, key: Key)
    | UseActive(run: RunId, account: Account, generation: int)
    | Resolve(run: RunId, world: World)
    | Begin(runner: nat, run: RunId)
    | Load(runner: nat)
    | Check(runner: nat)
    | Lego(runner: nat, left: Option<Tree>)
    | Persist(runner: nat, fault: Fault)
    | Verify(runner: nat, readable: bool)
    | Fail(runner: nat)
    | Report(runner: nat)
    | Die(runner: nat)

  function JobOf(s: State, r: nat): Job
    requires r in s.runners && s.runners[r].run in s.jobs
  {
    s.jobs[s.runners[r].run]
  }

  predicate At(s: State, r: nat, stage: Stage) {
    && r in s.runners && s.runners[r].stage == stage && s.runners[r].run in s.jobs
    && (JobOf(s, r).key.Some? ==> JobOf(s, r).key.value.generation >= 1)
    && (JobOf(s, r).provisioning ==> JobOf(s, r).key.Some?)
  }

  /** The Runner refuses to register a generation twice, and to use one that is not
      registered. */
  predicate Refused(job: Job, work: Option<Tree>) {
    job.key.Some? && (job.provisioning <==> WorkRegistered(work))
  }

  ghost predicate Enabled(s: State, step: Step) {
    match step
    case Api(op) => (op.DoRequest? || op.DoCancel? || op.DoCancelScope?) && Applicable(s.table, op)
    case ClaimFor(run, k) => run !in s.jobs && Claimable(s.table, k)
    case UseActive(run, a, g) =>
      run !in s.jobs && IsActiveGeneration(s.table, a, g) && (a.scope != "" ==> g != 0)
    case Resolve(run, w) =>
      && run in s.jobs && s.jobs[run].provisioning && s.jobs[run].key.Some?
      && (w.wait.Reported? && w.wait.result.report.Some? ==> (run, w.wait.result.report.value) in s.reports)
    case Begin(r, run) => r !in s.runners && run in s.jobs
    case Load(r) => At(s, r, Preparing)
    case Check(r) => At(s, r, Loaded)
    case Lego(r, left) => At(s, r, Cleared) && (WorkRegistered(s.runners[r].work) ==> WorkRegistered(left))
    case Persist(r, _) => At(s, r, Issued)
    case Verify(r, _) => r in s.runners && s.runners[r].stage.Persisted? && At(s, r, s.runners[r].stage)
    case Fail(r) => r in s.runners && At(s, r, s.runners[r].stage)
    case Report(r) => At(s, r, Ended) && JobOf(s, r).provisioning
    case Die(r) => r in s.runners
  }

  function With(s: State, r: nat, runner: Runner): State {
    s.(runners := s.runners[r := runner])
  }

  function Apply(s: State, step: Step): State
    requires Enabled(s, step)
  {
    match step
    case Api(op) => s.(table := After(s.table, op))
    case ClaimFor(run, k) =>
      s.(table := After(s.table, DoClaim(k, run)), jobs := s.jobs[run := Job(Some(k), true)])
    case UseActive(run, a, g) =>
      s.(jobs := s.jobs[run := Job(if g > 0 then Some(Key(a, g)) else None, false)])
    case Resolve(run, w) =>
      var k := s.jobs[run].key.value;
      s.(table := Settle(s.table, k, run, FateOf(w, k)))
    case Begin(r, run) => With(s, r, Runner(run, Preparing, None, false))
    case Load(r) =>
      var root := Root(JobOf(s, r).key);
      var work := if root in s.roots then Some(s.roots[root].tree) else None;
      With(s, r, s.runners[r].(stage := Loaded, work := work))
    case Check(r) =>
      With(s, r, s.runners[r].(stage := if Refused(JobOf(s, r), s.runners[r].work) then Ended else Cleared))
    case Lego(r, left) => With(s, r, s.runners[r].(stage := Issued, work := left))
    case Persist(r, fault) => PersistNext(s, r, fault)
    case Verify(r, readable) =>
      // Nothing is verified unless this is a provisioning run whose publication succeeded.
      var root := Root(JobOf(s, r).key);
      var seen := readable && root in s.roots && Registered(s.roots[root].tree);
      With(s, r, s.runners[r].(stage := Ended, status := JobOf(s, r).provisioning && s.runners[r].stage.ok && seen))
    case Fail(r) => With(s, r, s.runners[r].(stage := Ended))
    case Report(r) =>
      var k := JobOf(s, r).key.value;
      s.(reports := s.reports + {(s.runners[r].run, Execute.Report(k.account, k.generation, s.runners[r].status))})
    case Die(r) => s.(runners := s.runners - {r})
  }

  /** A provisioning run publishes only a registered account, anyone else whatever lego
      left, if it left anything. */
  function PersistNext(s: State, r: nat, fault: Fault): State
    requires At(s, r, Issued)
  {
    var job := JobOf(s, r);
    var runner := s.runners[r];
    if job.provisioning && !WorkRegistered(runner.work) then
      With(s, r, runner.(stage := Ended))
    else
      var root := Root(job.key);
      var roots := if fault == Lost || runner.work.None? then s.roots
                   else s.roots[root := Published(runner.work.value, job.key)];
      With(s, r, runner.(stage := if job.provisioning then Persisted(fault == NoFault) else Ended)).(roots := roots)
  }

  // ----- the invariant ------------------------------------------------------------------------

  /** The generation's own root holds a registered account, put there for this generation. */
  predicate Durable(roots: map<Path, Published>, k: Key) {
    && k.generation >= 1
    && Root(Some(k)) in roots
    && roots[Root(Some(k))].publisher == Some(k)
    && Registered(roots[Root(Some(k))].tree)
  }

  ghost predicate RootsOk(roots: map<Path, Published>) {
    forall k: Key | k.generation >= 1 && Root(Some(k)) in roots :: Durable(roots, k)
  }

  predicate JobOk(job: Job, roots: map<Path, Published>) {
    && (job.key.Some? ==> job.key.value.generation >= 1)
    && (job.provisioning ==> job.key.Some?)
    && (!job.provisioning && job.key.Some? ==> Durable(roots, job.key.value))
  }

  /** A job that uses a generation carries a registered account from the load on. */
  predicate RunnerOk(runner: Runner, jobs: map<RunId, Job>, roots: map<Path, Published>) {
    && runner.run in jobs
    && var job := jobs[runner.run];
    && (job.key.Some? && !job.provisioning && runner.stage != Preparing && runner.stage != Ended ==>
          WorkRegistered(runner.work))
    && (runner.status ==> job.key.Some? && Durable(roots, job.key.value))
  }

  predicate ReportOk(claim: (RunId, Report), roots: map<Path, Published>) {
    claim.1.registered ==> Durable(roots, Key(claim.1.account, claim.1.generation))
  }

  ghost predicate ActiveOk(t: Table, roots: map<Path, Published>) {
    forall k | HasPhase(t, k, Active) :: Durable(roots, k)
  }

  ghost predicate Inv(s: State) {
    && Valid(s.table)
    && RootsOk(s.roots)
    && ActiveOk(s.table, s.roots)
    && (forall run | run in s.jobs :: JobOk(s.jobs[run], s.roots))
    && (forall r | r in s.runners :: RunnerOk(s.runners[r], s.jobs, s.roots))
    && (forall c | c in s.reports :: ReportOk(c, s.roots))
  }

  predicate Init(s: State) {
    s.table == map[] && s.jobs == map[] && s.runners == map[] && s.reports == {} && forall p | p in s.roots :: p == []
  }

  /** What was published stays published. */
  ghost predicate RootsKept(before: map<Path, Published>, after: map<Path, Published>) {
    forall k: Key | Durable(before, k) :: Durable(after, k)
  }

  lemma {:induction false} PublicationKeepsRoots(roots: map<Path, Published>, key: Option<Key>, tree: Tree)
    requires RootsOk(roots)
    requires key.Some? ==> key.value.generation >= 1 && Registered(tree)
    ensures var after := roots[Root(key) := Published(tree, key)];
            RootsOk(after) && RootsKept(roots, after) && (key.Some? ==> Durable(after, key.value))
  {
    var after := roots[Root(key) := Published(tree, key)];
    forall k: Key | k.generation >= 1 && Root(Some(k)) in after
      ensures Durable(after, k)
    {
      if key.Some? {
        RootsNeverOverlap(k, key.value);
      } else {
        RootsNeverOverlap(k, k);
      }
    }
  }

  lemma {:induction false} KeptRootsKeepTheRest(s: State, after: map<Path, Published>)
    requires Inv(s) && RootsOk(after) && RootsKept(s.roots, after)
    ensures Inv(s.(roots := after))
  {}

  lemma {:induction false} PublicationKeeps(s: State, key: Option<Key>, tree: Tree)
    requires Inv(s) && (key.Some? ==> key.value.generation >= 1 && Registered(tree))
    ensures var after := s.(roots := s.roots[Root(key) := Published(tree, key)]);
            Inv(after) && RootsKept(s.roots, after.roots)
  {
    PublicationKeepsRoots(s.roots, key, tree);
    KeptRootsKeepTheRest(s, s.roots[Root(key) := Published(tree, key)]);
  }

  /** Only a Runner that provisions goes on to verify. */
  lemma {:induction false} StageKeeps(s: State, r: nat, stage: Stage)
    requires Inv(s) && r in s.runners && s.runners[r].run in s.jobs
    requires stage == Ended || (stage.Persisted? && s.jobs[s.runners[r].run].provisioning)
    ensures Inv(With(s, r, s.runners[r].(stage := stage)))
  {}

  lemma {:induction false} PersistKeeps(s: State, r: nat, fault: Fault)
    requires Inv(s) && At(s, r, Issued)
    ensures Inv(PersistNext(s, r, fault)) && RootsKept(s.roots, PersistNext(s, r, fault).roots)
  {
    var job, work := JobOf(s, r), s.runners[r].work;
    assert RunnerOk(s.runners[r], s.jobs, s.roots);
    var after := PersistNext(s, r, fault);
    var published := s.(roots := after.roots);
    if after.roots != s.roots {
      PublicationKeeps(s, job.key, work.value);
    }
    assert published == s || published == s.(roots := s.roots[Root(job.key) := Published(work.value, job.key)]);
    StageKeeps(published, r, after.runners[r].stage);
    assert after == With(published, r, published.runners[r].(stage := after.runners[r].stage));
  }

  /** Only a completion makes a generation active, and only the one it names. */
  lemma {:induction false} OnlyCompletionActivates(t: Table, op: Op, k: Key)
    requires Valid(t) && Applicable(t, op) && HasPhase(After(t, op), k, Active)
    ensures HasPhase(t, k, Active) || op == DoComplete(k, op.run, true)
  {}

  /** A fate that activates rests on a genuine report about exactly this generation. */
  lemma {:induction false} ActivationIsReported(s: State, run: RunId, w: World)
    requires Enabled(s, Resolve(run, w)) && forall c | c in s.reports :: ReportOk(c, s.roots)
    ensures FateOf(w, s.jobs[run].key.value) == Completed(true) ==> Durable(s.roots, s.jobs[run].key.value)
  {}

  lemma {:induction false} SettlingKeepsActive(t: Table, k: Key, run: RunId, fate: Fate, roots: map<Path, Published>)
    requires Valid(t) && ActiveOk(t, roots) && (fate == Completed(true) ==> Durable(roots, k))
    ensures Valid(Settle(t, k, run, fate)) && ActiveOk(Settle(t, k, run, fate), roots)
  {
    SettlingLeadsTo(t, k, run, fate);
    var op := match fate case Completed(registered) => DoComplete(k, run, registered) case Released => DoRelease(k, run);
    forall x | HasPhase(Settle(t, k, run, fate), x, Active) ensures Durable(roots, x) {
      OnlyCompletionActivates(t, op, x);
    }
  }

  lemma {:induction false} ResolveKeeps(s: State, run: RunId, w: World)
    requires Inv(s) && Enabled(s, Resolve(run, w))
    ensures Inv(Apply(s, Resolve(run, w)))
  {
    var k := s.jobs[run].key.value;
    ActivationIsReported(s, run, w);
    SettlingKeepsActive(s.table, k, run, FateOf(w, k), s.roots);
  }

  lemma {:induction false} TableStepKeeps(s: State, op: Op)
    requires Inv(s) && Applicable(s.table, op) && !op.DoComplete?
    ensures Inv(s.(table := After(s.table, op)))
  {
    OpKeeps(s.table, op);
    forall k | HasPhase(After(s.table, op), k, Active) ensures Durable(s.roots, k) {
      OnlyCompletionActivates(s.table, op, k);
    }
  }

  lemma {:induction false} NewJobKeeps(s: State, run: RunId, job: Job)
    requires Inv(s) && run !in s.jobs && JobOk(job, s.roots)
    ensures Inv(s.(jobs := s.jobs[run := job]))
  {}

  lemma {:induction false} RunnerStepKeeps(s: State, r: nat, runner: Runner)
    requires Inv(s) && RunnerOk(runner, s.jobs, s.roots)
    ensures Inv(With(s, r, runner))
  {}

  /** The steps by which a Runner changes itself only. */
  predicate OwnStep(step: Step) {
    step.Begin? || step.Load? || step.Check? || step.Lego? || step.Verify? || step.Fail?
  }

  lemma {:induction false} OwnStepKeeps(s: State, step: Step)
    requires Inv(s) && Enabled(s, step) && OwnStep(step)
    ensures Inv(Apply(s, step)) && Apply(s, step).roots == s.roots
  {
    var r := step.runner;
    assert r in s.runners ==> RunnerOk(s.runners[r], s.jobs, s.roots);
    RunnerStepKeeps(s, r, Apply(s, step).runners[r]);
  }

  lemma {:induction false} InvIsInductive(s: State, step: Step)
    requires Inv(s) && Enabled(s, step)
    ensures Inv(Apply(s, step)) && RootsKept(s.roots, Apply(s, step).roots)
  {
    if OwnStep(step) {
      OwnStepKeeps(s, step);
    } else {
      match step
      case Api(op) => TableStepKeeps(s, op);
      case ClaimFor(run, k) =>
        TableStepKeeps(s, DoClaim(k, run));
        NewJobKeeps(s.(table := After(s.table, DoClaim(k, run))), run, Job(Some(k), true));
      case UseActive(run, a, g) => NewJobKeeps(s, run, Apply(s, step).jobs[run]);
      case Resolve(run, w) => ResolveKeeps(s, run, w);
      case Persist(r, fault) => PersistKeeps(s, r, fault);
      case Report(r) =>
      case Die(r) =>
    }
  }

  /** The Runner's check, in full: a generation is provisioned only while it is not registered
      and used only when it is; the legacy account is never refused. */
  lemma CheckedExactly(s: State, r: nat)
    requires Enabled(s, Check(r))
    ensures var job, work, after := JobOf(s, r), s.runners[r].work, Apply(s, Check(r)).runners[r];
            && (job.key.None? ==> after.stage == Cleared)
            && (job.key.Some? && job.provisioning ==> after.stage == (if WorkRegistered(work) then Ended else Cleared))
            && (job.key.Some? && !job.provisioning ==> after.stage == (if WorkRegistered(work) then Cleared else Ended))
            && after.work == work && after.status == s.runners[r].status
  {}

  /** A publication that is reported as failed, even one that has taken place, is reported to
      the Conductor as failed, and so is one that cannot be read back. */
  lemma UnsurePublicationIsReportedFailed(s: State, r: nat, fault: Fault, readable: bool)
    requires At(s, r, Issued) && JobOf(s, r).provisioning && WorkRegistered(s.runners[r].work)
    ensures var persisted := Apply(s, Persist(r, fault));
            && Enabled(persisted, Verify(r, readable))
            && (Apply(persisted, Verify(r, readable)).runners[r].status <==> fault == NoFault && readable)
            && (fault != Lost ==> Root(JobOf(s, r).key) in persisted.roots
                                  && persisted.roots[Root(JobOf(s, r).key)].tree == s.runners[r].work.value)
  {}

  /** Any other run publishes whatever lego left of the account, under the root of its job. */
  lemma OtherRunsPublishToo(s: State, r: nat, fault: Fault)
    requires At(s, r, Issued) && !JobOf(s, r).provisioning
    ensures var after := Apply(s, Persist(r, fault));
            && after.runners[r].stage == Ended
            && after.roots == if s.runners[r].work.Some? && fault != Lost
                              then s.roots[Root(JobOf(s, r).key) := Published(s.runners[r].work.value, JobOf(s, r).key)]
                              else s.roots
  {}

  /** A run is told to use the active generation, when there is one. */
  lemma JobsNameTheActiveGeneration(s: State, run: RunId, a: Account, g: int)
    requires Inv(s) && Enabled(s, UseActive(run, a, g))
    ensures var job := Apply(s, UseActive(run, a, g)).jobs[run];
            && !job.provisioning
            && (job.key.Some? ==> HasPhase(s.table, job.key.value, Active) && job.key.value.account == a)
            && (job.key.None? ==> a.scope == "" && !HasActive(s.table, a))
  {
    if g != 0 {
      assert HasPhase(s.table, Key(a, g), Active);
    }
  }

  // ----- whole runs ------------------------------------------------------------------------------

  ghost predicate StepAt(states: seq<State>, steps: seq<Step>, i: nat)
    requires i < |steps| && |states| == |steps| + 1
  {
    Enabled(states[i], steps[i]) && states[i + 1] == Apply(states[i], steps[i])
  }

  ghost predicate IsRun(states: seq<State>, steps: seq<Step>) {
    |states| == |steps| + 1 && Init(states[0]) && forall i: nat | i < |steps| :: StepAt(states, steps, i)
  }

  lemma {:induction false} InitHolds(s: State)
    requires Init(s)
    ensures Inv(s)
  {}

  lemma {:induction false} InvHolds(states: seq<State>, steps: seq<Step>, i: nat)
    requires IsRun(states, steps) && i < |states|
    ensures Inv(states[i])
  {
    if i == 0 {
      InitHolds(states[0]);
    } else {
      InvHolds(states, steps, i - 1);
      assert StepAt(states, steps, i - 1);
      InvIsInductive(states[i - 1], steps[i - 1]);
    }
  }

  lemma {:induction false} OneStep(s: State, step: Step, after: State, k: Key)
    requires Inv(s) && Enabled(s, step) && after == Apply(s, step) && Durable(s.roots, k)
    ensures Durable(after.roots, k)
  {}

  lemma {:induction false} PublishedStays(states: seq<State>, steps: seq<Step>, i: nat, j: nat, k: Key)
    requires IsRun(states, steps) && i <= j < |states| && Durable(states[i].roots, k)
    ensures Durable(states[j].roots, k)
    decreases j
  {
    if i < j {
      PublishedStays(states, steps, i, j - 1, k);
      InvHolds(states, steps, j - 1);
      assert StepAt(states, steps, j - 1);
      OneStep(states[j - 1], steps[j - 1], states[j], k);
    }
  }

  /** Whatever the Conductor's table calls active, then or later, is on disk: a registered
      account, under the root of exactly that generation, published by a Runner that had
      been given exactly that generation. */
  lemma {:induction false} ActiveIsPublished(states: seq<State>, steps: seq<Step>, i: nat, j: nat, k: Key)
    requires IsRun(states, steps) && i <= j < |states| && HasPhase(states[i].table, k, Active)
    ensures Durable(states[j].roots, k)
  {
    InvHolds(states, steps, i);
    PublishedStays(states, steps, i, j, k);
  }

  /** So a run that was given the active generation is never turned away for lack of an
      account, even when the generation has been retired meanwhile. */
  lemma {:induction false} ActiveJobsFindTheirAccount(states: seq<State>, steps: seq<Step>, i: nat, r: nat)
    requires IsRun(states, steps) && i < |steps| && steps[i] == Check(r)
    requires At(states[i], r, Loaded) && !JobOf(states[i], r).provisioning
    ensures r in states[i + 1].runners && states[i + 1].runners[r].stage == Cleared
  {
    InvHolds(states, steps, i);
    assert StepAt(states, steps, i);
    assert RunnerOk(states[i].runners[r], states[i].jobs, states[i].roots);
  }

  // ----- a provisioning that meets no fault -----------------------------------------------------

  /** The given steps can be taken one after the other and lead to the given state. */
  ghost predicate Leads(s: State, steps: seq<Step>, t: State)
    decreases |steps|
  {
    if steps == [] then t == s
    else Enabled(s, steps[0]) && Leads(Apply(s, steps[0]), steps[1..], t)
  }

  lemma {:induction false} OneMoreStep(s: State, step: Step, steps: seq<Step>, t: State)
    requires Enabled(s, step) && Leads(Apply(s, step), steps, t)
    ensures Leads(s, [step] + steps, t)
  {
    assert ([step] + steps)[1..] == steps;
  }

  lemma {:induction false} LeadsOn(s: State, steps: seq<Step>, t: State, more: seq<Step>, u: State)
    requires Leads(s, steps, t) && Leads(t, more, u)
    ensures Leads(s, steps + more, u)
    decreases |steps|
  {
    if steps == [] {
      assert steps + more == more;
    } else {
      LeadsOn(Apply(s, steps[0]), steps[1..], t, more, u);
      OneMoreStep(s, steps[0], steps[1..] + more, u);
      assert [steps[0]] + (steps[1..] + more) == steps + more;
    }
  }

  /** A Runner up to the account it has registered, and from there to its report. */
  function RegisterSteps(r: nat, run: RunId, account: Tree): seq<Step> {
    [Begin(r, run), Load(r), Check(r), Lego(r, Some(account))]
  }

  function PublishSteps(r: nat): seq<Step> {
    [Persist(r, NoFault), Verify(r, true), Step.Report(r)]
  }

  lemma {:induction false} RunnerRegisters(s: State, r: nat, run: RunId, k: Key, account: Tree)
    requires r !in s.runners && run in s.jobs && s.jobs[run] == Job(Some(k), true) && k.generation >= 1
    requires Root(Some(k)) !in s.roots
    ensures Leads(s, RegisterSteps(r, run, account),
                  s.(runners := s.runners[r := Runner(run, Issued, Some(account), false)]))
  {
    var s1 := Apply(s, Begin(r, run));
    var s2 := Apply(s1, Load(r));
    var s3 := Apply(s2, Check(r));
    var s4 := Apply(s3, Lego(r, Some(account)));
    assert s4.runners == s.runners[r := Runner(run, Issued, Some(account), false)];
    assert Leads(s4, [], s4);
    OneMoreStep(s3, Lego(r, Some(account)), [], s4);
    OneMoreStep(s2, Check(r), [Lego(r, Some(account))], s4);
    OneMoreStep(s1, Load(r), [Check(r), Lego(r, Some(account))], s4);
    OneMoreStep(s, Begin(r, run), [Load(r), Check(r), Lego(r, Some(account))], s4);
  }

  lemma {:induction false} RunnerReports(s: State, r: nat, run: RunId, k: Key, account: Tree)
    requires r in s.runners && s.runners[r] == Runner(run, Issued, Some(account), false) && Registered(account)
    requires run in s.jobs && s.jobs[run] == Job(Some(k), true) && k.generation >= 1
    ensures Leads(s, PublishSteps(r),
                  s.(runners := s.runners[r := Runner(run, Ended, Some(account), true)],
                     roots := s.roots[Root(Some(k)) := Published(account, Some(k))],
                     reports := s.reports + {(run, Execute.Report(k.account, k.generation, true))}))
  {
    var s1 := Apply(s, Persist(r, NoFault));
    var s2 := Apply(s1, Verify(r, true));
    var s3 := Apply(s2, Step.Report(r));
    assert s3.runners == s.runners[r := Runner(run, Ended, Some(account), true)];
    assert Leads(s3, [], s3);
    OneMoreStep(s2, Step.Report(r), [], s3);
    OneMoreStep(s1, Verify(r, true), [Step.Report(r)], s3);
    OneMoreStep(s, Persist(r, NoFault), [Verify(r, true), Step.Report(r)], s3);
  }

  /** What the Conductor is told when a run has sent the generation out and its Runner has
      reported it registered. */
  predicate HearsOf(w: World, k: Key) {
    && w.payloadReadable && Launched(w) && w.wait.Reported?
    && w.wait.result.report == Some(Execute.Report(k.account, k.generation, true))
  }

  lemma {:induction false} ReportActivates(s: State, run: RunId, k: Key, w: World) returns (t: State)
    requires run in s.jobs && s.jobs[run] == Job(Some(k), true) && Attached(s.table, k, run)
    requires (run, Execute.Report(k.account, k.generation, true)) in s.reports && HearsOf(w, k)
    ensures Leads(s, [Resolve(run, w)], t)
    ensures t == s.(table := t.table) && HasPhase(t.table, k, Active)
  {
    t := Apply(s, Resolve(run, w));
    assert Leads(t, [], t);
    OneMoreStep(s, Resolve(run, w), [], t);
  }

  /** A provisioning run whose Runner registers an account and meets no fault ends with the
      account published under the generation's root, a report of success, and the generation
      active. */
  lemma {:induction false} ProvisioningActivates(s: State, run: RunId, k: Key, r: nat, account: Tree, w: World) returns (t: State)
    requires run !in s.jobs && Claimable(s.table, k) && k.generation >= 1 && r !in s.runners
    requires Root(Some(k)) !in s.roots && Registered(account) && HearsOf(w, k)
    ensures Leads(s, [ClaimFor(run, k)] + RegisterSteps(r, run, account) + PublishSteps(r) + [Resolve(run, w)], t)
    ensures Durable(t.roots, k) && t.roots[Root(Some(k))].tree == account
    ensures (run, Execute.Report(k.account, k.generation, true)) in t.reports
    ensures HasPhase(t.table, k, Active)
  {
    var report := Execute.Report(k.account, k.generation, true);
    var s1 := Apply(s, ClaimFor(run, k));
    var s2 := s1.(runners := s1.runners[r := Runner(run, Issued, Some(account), false)]);
    var s3 := s2.(runners := s2.runners[r := Runner(run, Ended, Some(account), true)],
                  roots := s2.roots[Root(Some(k)) := Published(account, Some(k))], reports := s2.reports + {(run, report)});
    t := ReportActivates(s3, run, k, w);
    assert Leads(s1, [], s1);
    OneMoreStep(s, ClaimFor(run, k), [], s1);
    RunnerRegisters(s1, r, run, k, account);
    RunnerReports(s2, r, run, k, account);
    LeadsOn(s, [ClaimFor(run, k)], s1, RegisterSteps(r, run, account), s2);
    LeadsOn(s, [ClaimFor(run, k)] + RegisterSteps(r, run, account), s2, PublishSteps(r), s3);
    LeadsOn(s, [ClaimFor(run, k)] + RegisterSteps(r, run, account) + PublishSteps(r), s3, [Resolve(run, w)], t);
  }
}
