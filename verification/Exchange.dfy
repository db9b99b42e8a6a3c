/** The directory protocol by which a Conductor offers jobs and exactly one Runner takes
    each: publishers, withdrawals, removals, any number of Runners and two-look observers
    as one machine of file-system steps. A rename or directory creation is atomic, and
    one that reports an error has done nothing. */
module Exchange {
  import opened Basics

  type RunId = nat

  /** Files of a run directory; a file is written under a temporary name and renamed. */
  datatype File = JobFile | ExecutionFile | ResultFile | Temp(name: File)
  type Files = map<File, string>

  /** The steps of one Publish call; Over ends it, however it ended. */
  datatype Publisher = LookPending | LookClaimed | MakeDir | Create | Fill | Commit | Offer | Clean | Over

  /** Everything about one run: where its directories are, and what has happened. */
  datatype Slot = Slot(
    job: string,
    publisher: Publisher,
    refused: bool,
    staging: Option<Files>,
    pending: Option<Files>,
    claimed: Option<Files>,
    withdrawn: Option<Files>,
    offered: bool,
    claimedBy: Option<nat>,
    takenBack: bool,
    removing: bool)

  function Fresh(job: string): Slot {
    Slot(job, LookPending, false, None, None, None, None, false, None, false, false)
  }

  // ----- what one step does to one run -----------------------------------------------------

  /** A rename of a directory succeeds when nothing, or an empty directory, is in its way. */
  predicate Free(dir: Option<Files>) {
    dir.None? || dir.value == map[]
  }

  datatype Action =
    | Publish(fails: bool, part: nat)
    | PublisherDies
    | Take(runner: nat)
    | WriteTemp(file: File, data: string)
    | CommitTemp(file: File)
    | Withdraw
    | Discard(file: File)
    | DiscardDir
    | RemoveFile(file: File)
    | RemoveDir

  function PublishNext(s: Slot, fails: bool, part: nat): Slot {
    match s.publisher
    case LookPending => if s.pending.Some? then s.(publisher := Over, refused := true) else s.(publisher := LookClaimed)
    case LookClaimed => if s.claimed.Some? then s.(publisher := Over, refused := true) else s.(publisher := MakeDir)
    case MakeDir =>
      if s.staging.Some? then s.(publisher := Over, refused := true)
      else if fails then s.(publisher := Over)
      else s.(publisher := Create, staging := Some(map[]))
    case Create =>
      if fails || s.staging.None? then s.(publisher := Clean)
      else s.(publisher := Fill, staging := Some(s.staging.value[Temp(JobFile) := ""]))
    case Fill =>
      // The bytes arrive in any number of pieces.
      if fails || s.staging.None? then s.(publisher := Clean)
      else
        var n := if part < |s.job| then part else |s.job|;
        s.(publisher := if n == |s.job| then Commit else Fill,
           staging := Some(s.staging.value[Temp(JobFile) := s.job[..n]]))
    case Commit =>
      if fails || s.staging.None? || Temp(JobFile) !in s.staging.value then s.(publisher := Clean)
      else
        var files := s.staging.value;
        s.(publisher := Offer, staging := Some((files - {Temp(JobFile)})[JobFile := files[Temp(JobFile)]]))
    case Offer =>
      if fails || s.staging.None? || !Free(s.pending) then s.(publisher := Clean)
      else s.(publisher := Over, staging := None, pending := s.staging, offered := true)
    case Clean => s.(publisher := Over, staging := if fails then s.staging else None)
    case Over => s
  }

  predicate Allowed(s: Slot, a: Action) {
    match a
    case Publish(_, _) => s.publisher != Over
    case PublisherDies => s.publisher != Over
    case Take(_) => s.pending.Some? && Free(s.claimed)
    case WriteTemp(f, _) => s.claimed.Some? && (f == ExecutionFile || f == ResultFile)
    case CommitTemp(f) =>
      s.claimed.Some? && (f == ExecutionFile || f == ResultFile) && Temp(f) in s.claimed.value
    case Withdraw => s.pending.Some? && Free(s.withdrawn)
    case Discard(f) => s.withdrawn.Some? && f in s.withdrawn.value
    case DiscardDir => s.withdrawn.Some? && s.withdrawn.value == map[]
    case RemoveFile(f) => s.claimed.Some? && f in s.claimed.value
    case RemoveDir => s.claimed.Some? && s.claimed.value == map[]
  }

  function Next(s: Slot, a: Action): Slot
    requires Allowed(s, a)
  {
    match a
    case Publish(fails, part) => PublishNext(s, fails, part)
    case PublisherDies => s.(publisher := Over)
    case Take(r) => s.(pending := None, claimed := s.pending, claimedBy := Some(r))
    case WriteTemp(f, data) => s.(claimed := Some(s.claimed.value[Temp(f) := data]))
    case CommitTemp(f) =>
      s.(claimed := Some((s.claimed.value - {Temp(f)})[f := s.claimed.value[Temp(f)]]))
    case Withdraw => s.(pending := None, withdrawn := s.pending, takenBack := true)
    case Discard(f) => s.(withdrawn := Some(s.withdrawn.value - {f}))
    case DiscardDir => s.(withdrawn := None)
    case RemoveFile(f) => s.(claimed := Some(s.claimed.value - {f}), removing := true)
    case RemoveDir => s.(claimed := None, removing := true)
  }

  // ----- the machine ------------------------------------------------------------------------

  /** A Runner looking for a job, trying one listed name after the other, or holding one. */
  datatype Runner = Looking | Trying(listed: seq<RunId>, next: nat) | Holding(id: RunId)

  datatype Where = Absent | IsPending | IsClaimed

  /** A StateOf call, with whether the run had been offered when it looked first. */
  datatype Look = First(id: RunId) | Second(id: RunId, wasOffered: bool) | Answer(id: RunId, where: Where)

  datatype State = State(slots: map<RunId, Slot>, runners: map<nat, Runner>, looks: map<nat, Look>)

  datatype Step =
    | BeginPublish(id: RunId, job: string)
    | OnRun(id: RunId, action: Action)
    | Start(runner: nat)
    | List(runner: nat, names: seq<RunId>)
    | Try(runner: nat)
    | GiveUp(runner: nat)
    | Write(runner: nat, file: File, data: string)
    | Rename(runner: nat, file: File)
    | BeginLook(looker: nat, id: RunId)
    | LookOnce(looker: nat)

  predicate IsPendingRun(s: State, id: RunId) {
    id in s.slots && s.slots[id].pending.Some?
  }

  /** What listing the pending directory yields: the run ids in order. A name may also be
      one that has just left. */
  predicate IsListing(s: State, names: seq<RunId>) {
    && (forall i, j | 0 <= i < j < |names| :: names[i] < names[j])
    && (forall i | 0 <= i < |names| :: names[i] in s.slots && s.slots[names[i]].offered)
    && (forall id | id in s.slots && s.slots[id].pending.Some? :: id in names)
  }

  predicate Enabled(s: State, step: Step) {
    match step
    case BeginPublish(id, _) => id !in s.slots   // an id is published once
    case OnRun(id, a) =>
      id in s.slots && Allowed(s.slots[id], a) && !a.Take? && !a.WriteTemp? && !a.CommitTemp?
    case Start(r) => r !in s.runners
    case List(r, names) => r in s.runners && s.runners[r] == Looking && IsListing(s, names)
    case Try(r) => r in s.runners && s.runners[r].Trying?
    case GiveUp(r) => r in s.runners
    case Write(r, f, _) =>
      && r in s.runners && s.runners[r].Holding? && s.runners[r].id in s.slots
      && Allowed(s.slots[s.runners[r].id], WriteTemp(f, ""))
    case Rename(r, f) =>
      && r in s.runners && s.runners[r].Holding? && s.runners[r].id in s.slots
      && Allowed(s.slots[s.runners[r].id], CommitTemp(f))
    case BeginLook(l, _) => l !in s.looks
    case LookOnce(l) => l in s.looks && !s.looks[l].Answer?
  }

  function On(s: State, id: RunId, a: Action): State
    requires id in s.slots && Allowed(s.slots[id], a)
  {
    s.(slots := s.slots[id := Next(s.slots[id], a)])
  }

  /** One rename of Take: the run is this Runner's, or it has gone, or the share failed. */
  function TryNext(s: State, r: nat): State
    requires r in s.runners && s.runners[r].Trying?
  {
    var Trying(listed, next) := s.runners[r];
    if next >= |listed| then s.(runners := s.runners[r := Looking])
    else
      var id := listed[next];
      if !IsPendingRun(s, id) then s.(runners := s.runners[r := Trying(listed, next + 1)])
      else if !Free(s.slots[id].claimed) then s.(runners := s.runners[r := Looking])
      else On(s, id, Take(r)).(runners := s.runners[r := Holding(id)])
  }

  function LookNext(s: State, look: Look): Look
    requires !look.Answer?
  {
    var id := look.id;
    match look
    case First(_) =>
      if IsPendingRun(s, id) then Answer(id, IsPending) else Second(id, id in s.slots && s.slots[id].offered)
    case Second(_, _) =>
      Answer(id, if id in s.slots && s.slots[id].claimed.Some? then IsClaimed else Absent)
  }

  function Apply(s: State, step: Step): State
    requires Enabled(s, step)
  {
    match step
    case BeginPublish(id, job) => s.(slots := s.slots[id := Fresh(job)])
    case OnRun(id, a) => On(s, id, a)
    case Start(r) => s.(runners := s.runners[r := Looking])
    case List(r, names) => s.(runners := s.runners[r := Trying(names, 0)])
    case Try(r) => TryNext(s, r)
    case GiveUp(r) => s.(runners := s.runners - {r})
    case Write(r, f, data) => On(s, s.runners[r].id, WriteTemp(f, data))
    case Rename(r, f) => On(s, s.runners[r].id, CommitTemp(f))
    case BeginLook(l, id) => s.(looks := s.looks[l := First(id)])
    case LookOnce(l) => s.(looks := s.looks[l := LookNext(s, s.looks[l])])
  }

  // ----- the invariant ---------------------------------------------------------------------------

  predicate Complete(files: Files, job: string) {
    JobFile in files && files[JobFile] == job
  }

  /** What is staged at each point of Publish. */
  predicate StagingOk(s: Slot) {
    match s.publisher
    case LookPending => s.staging.None?
    case LookClaimed => s.staging.None?
    case MakeDir => s.staging.None?
    case Create => s.staging == Some(map[])
    case Fill => s.staging.Some? && Temp(JobFile) in s.staging.value && JobFile !in s.staging.value
    case Commit => s.staging.Some? && Temp(JobFile) in s.staging.value && s.staging.value[Temp(JobFile)] == s.job
    case Offer => s.staging.Some? && Complete(s.staging.value, s.job)
    case Clean => true
    case Over => s.offered ==> s.staging.None?
  }

  /** A run is pending exactly from its offer until it is claimed or taken back, never
      both; and what is pending or claimed is the complete job. */
  predicate SlotOk(s: Slot) {
    && !s.refused
    && StagingOk(s)
    && (s.publisher != Over ==> !s.offered)
    && (s.pending.Some? <==> s.offered && s.claimedBy.None? && !s.takenBack)
    && (s.claimedBy.Some? || s.takenBack ==> s.offered)
    && !(s.claimedBy.Some? && s.takenBack)
    && (s.claimed.Some? || s.removing ==> s.claimedBy.Some?)
    && (s.claimedBy.Some? && !s.removing ==> s.claimed.Some?)
    && (s.withdrawn.Some? ==> s.takenBack)
    && (s.pending.Some? ==> Complete(s.pending.value, s.job))
    && (s.claimed.Some? && !s.removing ==> Complete(s.claimed.value, s.job))
  }

  predicate RunnerOk(s: State, r: nat) {
    r in s.runners ==> match s.runners[r]
      case Looking => true
      case Trying(listed, next) =>
        && (forall i, j | 0 <= i < j < |listed| :: listed[i] < listed[j])
        && (forall i | 0 <= i < |listed| :: listed[i] in s.slots && s.slots[listed[i]].offered)
        && (forall i | 0 <= i < |listed| && i < next :: s.slots[listed[i]].pending.None?)
      case Holding(id) => id in s.slots && s.slots[id].claimedBy == Some(r)
  }

  predicate LookOk(slots: map<RunId, Slot>, look: Look) {
    look.Second? && look.wasOffered ==>
      look.id in slots && slots[look.id].offered && slots[look.id].pending.None?
  }

  ghost predicate Inv(s: State) {
    && (forall id | id in s.slots :: SlotOk(s.slots[id]))
    && (forall r | r in s.runners :: RunnerOk(s, r))
    && (forall l | l in s.looks :: LookOk(s.slots, s.looks[l]))
  }

  predicate Init(s: State) {
    s == State(map[], map[], map[])
  }

  /** How the history of one run may grow. */
  predicate SlotForward(before: Slot, after: Slot) {
    && after.job == before.job
    && (before.offered ==> after.offered)
    && (before.claimedBy.Some? ==> after.claimedBy == before.claimedBy)
    && (before.takenBack ==> after.takenBack)
    && (before.removing ==> after.removing)
    && (before.offered && before.pending.None? ==> after.pending.None?)
  }

  lemma {:induction false} SlotStep(s: Slot, a: Action)
    requires SlotOk(s) && Allowed(s, a)
    ensures SlotOk(Next(s, a)) && SlotForward(s, Next(s, a))
    ensures a.Take? ==> s.claimedBy.None? && !s.takenBack
  {
    if a.Publish? && s.publisher == Fill {
      assert s.job[..|s.job|] == s.job;
    }
  }

  ghost predicate Forward(before: map<RunId, Slot>, after: map<RunId, Slot>) {
    forall id | id in before :: id in after && SlotForward(before[id], after[id])
  }

  lemma {:induction false} OthersKeepUp(s: State, slots: map<RunId, Slot>)
    requires Inv(s) && Forward(s.slots, slots) && forall id | id in slots :: SlotOk(slots[id])
    ensures Inv(s.(slots := slots))
  {}

  lemma {:induction false} OnKeeps(s: State, id: RunId, a: Action)
    requires Inv(s) && id in s.slots && Allowed(s.slots[id], a)
    ensures Inv(On(s, id, a)) && Forward(s.slots, On(s, id, a).slots)
    ensures a.Take? ==> s.slots[id].claimedBy.None?
  {
    SlotStep(s.slots[id], a);
    OthersKeepUp(s, On(s, id, a).slots);
  }

  lemma {:induction false} OneRunnerMoves(s: State, r: nat, runner: Runner)
    requires Inv(s) && RunnerOk(s.(runners := s.runners[r := runner]), r)
    ensures Inv(s.(runners := s.runners[r := runner]))
  {}

  lemma {:induction false} TryKeeps(s: State, r: nat)
    requires Inv(s) && r in s.runners && s.runners[r].Trying?
    ensures Inv(TryNext(s, r)) && Forward(s.slots, TryNext(s, r).slots)
  {
    var Trying(listed, next) := s.runners[r];
    assert RunnerOk(s, r);
    if next < |listed| && IsPendingRun(s, listed[next]) && Free(s.slots[listed[next]].claimed) {
      OnKeeps(s, listed[next], Take(r));
      OneRunnerMoves(On(s, listed[next], Take(r)), r, Holding(listed[next]));
    } else {
      OneRunnerMoves(s, r, TryNext(s, r).runners[r]);
    }
  }

  lemma {:induction false} InvIsInductive(s: State, step: Step)
    requires Inv(s) && Enabled(s, step)
    ensures Inv(Apply(s, step)) && Forward(s.slots, Apply(s, step).slots)
  {
    match step
    case BeginPublish(id, job) => OthersKeepUp(s, s.slots[id := Fresh(job)]);
    case OnRun(id, a) => OnKeeps(s, id, a);
    case Start(r) => OneRunnerMoves(s, r, Looking);
    case List(r, names) => OneRunnerMoves(s, r, Trying(names, 0));
    case Try(r) => TryKeeps(s, r);
    case GiveUp(r) =>
      forall q | q in s.runners - {r} ensures RunnerOk(Apply(s, step), q) {
        assert RunnerOk(s, q);
      }
    case Write(r, f, data) => OnKeeps(s, s.runners[r].id, WriteTemp(f, data));
    case Rename(r, f) => OnKeeps(s, s.runners[r].id, CommitTemp(f));
    case BeginLook(l, id) =>
      forall q | q in s.runners ensures RunnerOk(Apply(s, step), q) {
        assert RunnerOk(s, q);
      }
    case LookOnce(l) =>
      forall q | q in s.runners ensures RunnerOk(Apply(s, step), q) {
        assert RunnerOk(s, q);
      }
  }

  // ----- whole runs of the machine ------------------------------------------------------------------

  ghost predicate StepAt(states: seq<State>, steps: seq<Step>, i: nat)
    requires i < |steps| && |states| == |steps| + 1
  {
    Enabled(states[i], steps[i]) && states[i + 1] == Apply(states[i], steps[i])
  }

  ghost predicate IsRun(states: seq<State>, steps: seq<Step>) {
    |states| == |steps| + 1 && Init(states[0]) && forall i: nat | i < |steps| :: StepAt(states, steps, i)
  }

  lemma {:induction false} InvHolds(states: seq<State>, steps: seq<Step>, i: nat)
    requires IsRun(states, steps) && i < |states|
    ensures Inv(states[i])
  {
    if i > 0 {
      InvHolds(states, steps, i - 1);
      assert StepAt(states, steps, i - 1);
      InvIsInductive(states[i - 1], steps[i - 1]);
    }
  }

  lemma {:induction false} HistoryGrows(states: seq<State>, steps: seq<Step>, i: nat, j: nat, id: RunId)
    requires IsRun(states, steps) && i <= j < |states| && id in states[i].slots
    ensures id in states[j].slots && SlotForward(states[i].slots[id], states[j].slots[id])
    decreases j
  {
    if i < j {
      HistoryGrows(states, steps, i, j - 1, id);
      InvHolds(states, steps, j - 1);
      assert StepAt(states, steps, j - 1);
      InvIsInductive(states[j - 1], steps[j - 1]);
    }
  }

  /** A published job in every interleaving: what is pending is complete, what is claimed
      is complete until the Conductor removes it, a run claimed at any time is never taken
      back at any other, and Publish never finds its own id in use. */
  lemma {:induction false} ExchangeSafety(states: seq<State>, steps: seq<Step>, i: nat, j: nat, id: RunId)
    requires IsRun(states, steps) && i < |states| && j < |states|
    requires id in states[i].slots && id in states[j].slots
    ensures var s := states[i].slots[id];
            && (s.pending.Some? ==> Complete(s.pending.value, s.job) && s.claimed.None? && s.withdrawn.None?)
            && (s.claimed.Some? && !s.removing ==> Complete(s.claimed.value, s.job))
            && (s.offered && !s.takenBack && !s.removing ==> s.pending.Some? || s.claimed.Some?)
            && !s.refused
    ensures states[i].slots[id].job == states[j].slots[id].job
    ensures !(states[i].slots[id].claimedBy.Some? && states[j].slots[id].takenBack)
  {
    InvHolds(states, steps, i);
    InvHolds(states, steps, j);
    HistoryGrows(states, steps, if i < j then i else j, if i < j then j else i, id);
  }

  /** The step by which a Runner takes the run. */
  predicate Claims(s: State, step: Step, id: RunId) {
    && step.Try? && step.runner in s.runners && s.runners[step.runner].Trying?
    && var Trying(listed, next) := s.runners[step.runner];
    && next < |listed| && listed[next] == id && IsPendingRun(s, id) && Free(s.slots[id].claimed)
  }

  lemma {:induction false} ClaimsTheUnclaimed(s: State, step: Step, id: RunId)
    requires Inv(s) && Enabled(s, step) && Claims(s, step, id)
    ensures s.slots[id].claimedBy.None? && id in Apply(s, step).slots
    ensures Apply(s, step).slots[id].claimedBy == Some(step.runner) && Apply(s, step).runners[step.runner] == Holding(id)
  {}

  /** A Runner tries the names of its listing one after the other and takes the first that is
      still there. */
  lemma TriesThemAll(s: State, r: nat)
    requires Enabled(s, Try(r)) && s.runners[r].next < |s.runners[r].listed|
    ensures var Trying(listed, next) := s.runners[r];
            var after := Apply(s, Try(r));
            && (!IsPendingRun(s, listed[next]) ==>
                  after.slots == s.slots && after.runners[r] == Trying(listed, next + 1))
            && (Claims(s, Try(r), listed[next]) ==> after.runners[r] == Holding(listed[next]))
  {}

  /** A run is claimed once, whatever the Runners and their number. */
  lemma {:induction false} ClaimedOnce(states: seq<State>, steps: seq<Step>, i: nat, j: nat, id: RunId)
    requires IsRun(states, steps) && i <= j < |steps|
    requires Claims(states[i], steps[i], id) && Claims(states[j], steps[j], id)
    ensures i == j
  {
    InvHolds(states, steps, i);
    InvHolds(states, steps, j);
    assert StepAt(states, steps, i) && StepAt(states, steps, j);
    ClaimsTheUnclaimed(states[i], steps[i], id);
    ClaimsTheUnclaimed(states[j], steps[j], id);
    if i < j {
      HistoryGrows(states, steps, i + 1, j, id);
    }
  }

  /** The run a Runner takes is the oldest of those pending when it listed them that are
      pending still. */
  lemma {:induction false} TakesTheOldest(
      states: seq<State>, steps: seq<Step>, i: nat, j: nat, names: seq<RunId>, id: RunId, other: RunId)
    requires IsRun(states, steps) && i <= j < |steps|
    requires IsListing(states[i], names) && Claims(states[j], steps[j], id)
    requires states[j].runners[steps[j].runner].listed == names
    requires other < id && IsPendingRun(states[i], other)
    ensures !IsPendingRun(states[j], other)
  {
    InvHolds(states, steps, j);
    assert RunnerOk(states[j], steps[j].runner);
    assert other in names;
    var k :| 0 <= k < |names| && names[k] == other;
    var next := states[j].runners[steps[j].runner].next;
    assert names[next] == id;
  }

  /** StateOf says absent of a run that had been offered only when the Conductor has taken
      it back or begun to remove it; and what it says otherwise was so when it looked. */
  lemma {:induction false} StateOfFindsOffered(states: seq<State>, steps: seq<Step>, i: nat, looker: nat)
    requires IsRun(states, steps) && i < |steps| && steps[i] == LookOnce(looker)
    requires looker in states[i].looks && looker in states[i + 1].looks && states[i + 1].looks[looker].Answer?
    ensures var look, Answer(id, where) := states[i].looks[looker], states[i + 1].looks[looker];
            && (where == Absent ==> look.Second?)
            && (where == Absent && look.wasOffered ==>
                  id in states[i].slots && (states[i].slots[id].takenBack || states[i].slots[id].removing))
            && (where == IsPending ==> IsPendingRun(states[i], id))
            && (where == IsClaimed ==> id in states[i].slots && states[i].slots[id].claimed.Some?)
  {
    InvHolds(states, steps, i);
    assert StepAt(states, steps, i);
    assert LookOk(states[i].slots, states[i].looks[looker]);
  }

  /** Looking at the claimed directory first would miss a run taken between the looks. */
  lemma TheOtherOrderMissesARun(s: Slot, r: nat)
    requires SlotOk(s) && s.pending.Some?
    ensures s.claimed.None? && Allowed(s, Take(r))
    ensures var after := Next(s, Take(r)); after.pending.None? && after.claimed.Some? && SlotOk(after)
  {}

  // ----- a publication that meets no failure ---------------------------------------------------------

  /** Publish carried on with no failure, its file arriving in the given pieces. */
  function Publishing(s: Slot, parts: seq<nat>): Slot
    decreases |parts|
  {
    if parts == [] then s else Publishing(PublishNext(s, false, parts[0]), parts[1..])
  }

  /** Where such a publication of a run nobody knows yet can be. */
  predicate Unhindered(s: Slot) {
    && !s.refused && s.claimed.None? && s.withdrawn.None? && s.claimedBy.None? && !s.takenBack && !s.removing
    && match s.publisher
       case LookPending => s.pending.None? && s.staging.None? && !s.offered
       case LookClaimed => s.pending.None? && s.staging.None? && !s.offered
       case MakeDir => s.pending.None? && s.staging.None? && !s.offered
       case Create => s.pending.None? && s.staging == Some(map[]) && !s.offered
       case Fill => s.pending.None? && !s.offered && s.staging.Some? && s.staging.value.Keys == {Temp(JobFile)}
       case Commit => s.pending.None? && !s.offered && s.staging == Some(map[Temp(JobFile) := s.job])
       case Offer => s.pending.None? && !s.offered && s.staging == Some(map[JobFile := s.job])
       case Clean => false
       case Over => s.offered && s.staging.None? && s.pending == Some(map[JobFile := s.job])
  }

  lemma {:induction false} UnhinderedStep(s: Slot, part: nat)
    requires Unhindered(s)
    ensures Unhindered(PublishNext(s, false, part)) && PublishNext(s, false, part).job == s.job
  {
    if s.publisher == Fill {
      assert s.job[..|s.job|] == s.job;
      assert s.staging.value[Temp(JobFile) := s.job] == map[Temp(JobFile) := s.job];
    } else if s.publisher == Commit {
      assert (map[Temp(JobFile) := s.job] - {Temp(JobFile)})[JobFile := s.job] == map[JobFile := s.job];
    }
  }

  lemma {:induction false} UnhinderedToTheEnd(s: Slot, parts: seq<nat>)
    requires Unhindered(s)
    ensures Unhindered(Publishing(s, parts)) && Publishing(s, parts).job == s.job
    decreases |parts|
  {
    if parts != [] {
      UnhinderedStep(s, parts[0]);
      UnhinderedToTheEnd(PublishNext(s, false, parts[0]), parts[1..]);
    }
  }

  /** The last piece of the file, whatever came before it, brings the publication to its end. */
  lemma {:induction false} ThreeMoreSteps(s: Slot, last: nat)
    requires Unhindered(s) && s.publisher == Fill && |s.job| <= last
    ensures Publishing(s, [last, 0, 0]).publisher == Over
  {
    var s1 := PublishNext(s, false, last);
    var s2 := PublishNext(s1, false, 0);
    UnhinderedStep(s, last);
    UnhinderedStep(s1, 0);
    assert [last, 0, 0][1..] == [0, 0] && [0, 0][1..] == [0] && [0][1..] == [];
    assert Publishing(s, [last, 0, 0]) == Publishing(s1, [0, 0]) == Publishing(s2, [0]) == PublishNext(s2, false, 0);
  }

  lemma {:induction false} FourStepsToTheFile(job: string)
    ensures Publishing(Fresh(job), [0, 0, 0, 0]).publisher == Fill
  {
    assert [0, 0, 0, 0][1..] == [0, 0, 0] && [0, 0, 0][1..] == [0, 0] && [0, 0][1..] == [0] && [0][1..] == [];
    var s1 := PublishNext(Fresh(job), false, 0);
    var s2 := PublishNext(s1, false, 0);
    var s3 := PublishNext(s2, false, 0);
    assert Publishing(Fresh(job), [0, 0, 0, 0]) == Publishing(s1, [0, 0, 0]) == Publishing(s2, [0, 0])
        == Publishing(s3, [0]) == PublishNext(s3, false, 0);
  }

  /** In whatever pieces its file arrives, a Publish that meets no failure and has come to an
      end has offered the job, the whole of it and nothing else; and it does come to an end
      with the last piece. */
  lemma {:induction false} PublishOffers(job: string, parts: seq<nat>, last: nat)
    ensures var s := Publishing(Fresh(job), parts);
            && !s.refused && s.publisher != Clean
            && (s.publisher == Over <==> s.offered)
            && (s.publisher == Over ==> s.pending == Some(map[JobFile := job]))
            && (s.publisher == Fill && |job| <= last ==> Publishing(s, [last, 0, 0]).publisher == Over)
    ensures Publishing(Fresh(job), [0, 0, 0, 0]).publisher == Fill
  {
    FourStepsToTheFile(job);
    UnhinderedToTheEnd(Fresh(job), parts);
    var s := Publishing(Fresh(job), parts);
    if s.publisher == Fill && |job| <= last {
      ThreeMoreSteps(s, last);
    }
  }

  /** One that fails after it has made its directory goes on to remove it, offers nothing, and
      leaves nothing behind unless the removal fails too. */
  lemma FailedPublishCleansUp(s: Slot, part: nat)
    requires s.staging.Some? && (s.publisher == Create || s.publisher == Fill || s.publisher == Commit || s.publisher == Offer)
    ensures var failed := PublishNext(s, true, part);
            && failed == s.(publisher := Clean)
            && PublishNext(failed, false, part) == s.(publisher := Over, staging := None)
  {}

  /** The Runner that takes an offered job finds just that job, and what it then writes and
      commits is what anybody reads there. */
  lemma {:induction false} TakenAndAnswered(s: Slot, r: nat, f: File, data: string)
    requires SlotOk(s) && s.pending.Some? && (f == ExecutionFile || f == ResultFile)
    ensures Allowed(s, Take(r))
    ensures var taken := Next(s, Take(r));
            && taken.claimed == s.pending && taken.pending.None? && taken.claimedBy == Some(r)
            && Allowed(taken, WriteTemp(f, data))
            && var written := Next(taken, WriteTemp(f, data));
            && Allowed(written, CommitTemp(f))
            && var answered := Next(written, CommitTemp(f));
            && answered.claimed == Some((s.pending.value - {Temp(f)})[f := data])
  {
    var files := s.pending.value;
    assert (files[Temp(f) := data] - {Temp(f)})[f := data] == (files - {Temp(f)})[f := data];
  }

  // ----- what one run's Conductor may rely on ----------------------------------------------------------

  /** All that Runners and everybody else's calls do to a run that has been offered:
      they may take it, and add files to it once it is taken. */
  predicate Interference(before: Slot, after: Slot) {
    && after.job == before.job && after.publisher == before.publisher && after.offered == before.offered
    && after.staging == before.staging && after.withdrawn == before.withdrawn
    && after.takenBack == before.takenBack && after.removing == before.removing
    && (after.pending == before.pending || after.pending.None?)
    && (before.claimed.Some? || (before.pending.Some? && after.pending.None?) <==> after.claimed.Some?)
    && (before.claimed.Some? && ExecutionFile in before.claimed.value ==> ExecutionFile in after.claimed.value)
  }

  /** The run's own Conductor is the only one to publish, withdraw or remove it. */
  predicate Own(step: Step, id: RunId) {
    step.OnRun? && step.id == id
  }

  lemma {:induction false} RunnersOnlyTakeAndAdd(s: Slot, a: Action)
    requires SlotOk(s) && Allowed(s, a) && (a.Take? || a.WriteTemp? || a.CommitTemp?)
    ensures Interference(s, Next(s, a))
  {}

  lemma InterferenceIsTransitive(a: Slot, b: Slot, c: Slot)
    requires Interference(a, b) && Interference(b, c)
    ensures Interference(a, c)
  {}

  lemma {:induction false} OthersOnlyTakeAndAdd(s: State, step: Step, id: RunId)
    requires Inv(s) && Enabled(s, step) && !Own(step, id) && id in s.slots
    ensures id in Apply(s, step).slots && SlotOk(Apply(s, step).slots[id])
    ensures Interference(s.slots[id], Apply(s, step).slots[id])
  {
    assert SlotOk(s.slots[id]);
    if step.Try? {
      var Trying(listed, next) := s.runners[step.runner];
      if Claims(s, step, id) {
        RunnersOnlyTakeAndAdd(s.slots[id], Take(step.runner));
        SlotStep(s.slots[id], Take(step.runner));
      }
    } else if step.Write? && s.runners[step.runner].id == id {
      RunnersOnlyTakeAndAdd(s.slots[id], WriteTemp(step.file, step.data));
      SlotStep(s.slots[id], WriteTemp(step.file, step.data));
    } else if step.Rename? && s.runners[step.runner].id == id {
      RunnersOnlyTakeAndAdd(s.slots[id], CommitTemp(step.file));
      SlotStep(s.slots[id], CommitTemp(step.file));
    }
  }
}
