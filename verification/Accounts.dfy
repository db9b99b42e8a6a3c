/** The generations of ACME accounts: the transactional operations on the
    acme_accounts table as functions of its rows, and the invariant every sequence of
    them keeps. */
module Accounts {
  import opened Basics
  import Runs

  type RunId = Runs.RunId
  type TargetId = Runs.TargetId

  datatype Error = NotFound | Conflict | TargetRetired
  datatype Reply = Ok | Err(error: Error)

  /** An account of a binding, or of one target of it (scope = target id). */
  datatype Account = Account(binding: string, scope: string)
  datatype Key = Key(account: Account, generation: int)

  datatype Phase = Provisioning | Active | Retired | Failed | Cancelled

  /** One generation; the sealed payload and the run carrying it are nullable columns. */
  datatype Row = Row(phase: Phase, payload: Option<string>, run: Option<RunId>)

  type Table = map<Key, Row>

  // ----- queries ------------------------------------------------------------------------

  predicate HasPhase(t: Table, k: Key, phase: Phase) {
    k in t && t[k].phase == phase
  }

  /** max is the highest generation recorded for the account, 0 when there is none. */
  ghost predicate IsHighest(t: Table, a: Account, max: int) {
    && (forall k | k in t && k.account == a :: k.generation <= max)
    && if max == 0 then forall k | k in t :: k.account != a else Key(a, max) in t
  }

  predicate Claimable(t: Table, k: Key) {
    HasPhase(t, k, Provisioning) && t[k].run.None?
  }

  predicate Attached(t: Table, k: Key, run: RunId) {
    HasPhase(t, k, Provisioning) && t[k].run == Some(run)
  }

  ghost predicate HasActive(t: Table, a: Account) {
    exists x :: HasPhase(t, x, Active) && x.account == a
  }

  /** The active generation of the account, or 0. */
  ghost predicate IsActiveGeneration(t: Table, a: Account, g: int) {
    if g == 0 then forall k | k in t && k.account == a :: t[k].phase != Active
    else HasPhase(t, Key(a, g), Active)
  }

  // ----- the transactions ------------------------------------------------------------------

  function Requested(t: Table, a: Account, g: int, payload: string): Table {
    t[Key(a, g) := Row(Provisioning, Some(payload), None)]
  }

  predicate HasPending(t: Table, a: Account) {
    exists k :: k in t && k.account == a && t[k].phase == Provisioning
  }

  function Request(t: Table, a: Account, g: int, payload: string, scopeRetired: bool, highest: int): (Table, Reply) {
    if a.scope != "" && scopeRetired then (t, Err(TargetRetired))
    else if g != highest + 1 then (t, Err(Conflict))
    else if Key(a, g) in t || HasPending(t, a) then (t, Err(Conflict))
    else (Requested(t, a, g, payload), Ok)
  }

  function Claim(t: Table, k: Key, run: RunId): Table
    requires k in t
  {
    t[k := t[k].(run := Some(run))]
  }

  function Release(t: Table, k: Key, run: RunId): Table {
    if Attached(t, k, run) then t[k := t[k].(run := None)] else t
  }

  /** Every active generation of the account other than the given one, retired. */
  function RetireOthers(t: Table, k: Key): Table {
    map x | x in t :: if x.account == k.account && x != k && t[x].phase == Active then t[x].(phase := Retired) else t[x]
  }

  function Complete(t: Table, k: Key, run: RunId, registered: bool): (Table, Reply) {
    if !Attached(t, k, run) then (t, Err(Conflict))
    else if registered then (RetireOthers(t, k)[k := Row(Active, None, None)], Ok)
    else (t[k := Row(Failed, None, None)], Ok)
  }

  function Cancel(t: Table, k: Key): (Table, Reply) {
    if Claimable(t, k) then (t[k := Row(Cancelled, None, None)], Ok)
    else if k in t then (t, Err(Conflict))
    else (t, Err(NotFound))
  }

  /** Retiring a target withdraws what is pending for its own accounts. */
  function CancelScope(t: Table, target: TargetId): Table {
    map k | k in t :: if k.account.scope == target && t[k].phase == Provisioning then Row(Cancelled, None, None) else t[k]
  }

  // ----- the invariant ------------------------------------------------------------------------

  ghost predicate Contiguous(t: Table) {
    && (forall k | k in t :: 1 <= k.generation)
    && (forall k, g {:trigger k in t, Key(k.account, g)} | k in t && 1 <= g <= k.generation :: Key(k.account, g) in t)
  }

  ghost predicate PendingIsHighest(t: Table) {
    forall k, x | HasPhase(t, k, Provisioning) && x in t && x.account == k.account :: x.generation <= k.generation
  }

  ghost predicate OneActive(t: Table) {
    forall x, y | HasPhase(t, x, Active) && HasPhase(t, y, Active) && x.account == y.account :: x == y
  }

  ghost predicate RetiredBelowActive(t: Table) {
    && (forall k | HasPhase(t, k, Retired) :: HasActive(t, k.account))
    && (forall k, x | HasPhase(t, k, Retired) && HasPhase(t, x, Active) && x.account == k.account ::
          k.generation < x.generation)
  }

  predicate ColumnsMatch(row: Row) {
    && (row.payload.Some? <==> row.phase == Provisioning)
    && (row.run.Some? ==> row.phase == Provisioning)
  }

  ghost predicate Valid(t: Table) {
    && Contiguous(t) && PendingIsHighest(t) && OneActive(t) && RetiredBelowActive(t)
    && forall k | k in t :: ColumnsMatch(t[k])
  }

  /** How one generation may change: its outcome is decided once, and only an active
      generation is ever retired. */
  predicate PhaseForward(before: Phase, after: Phase) {
    before == after || before == Provisioning || (before == Active && after == Retired)
  }

  /** No generation is forgotten or reused, and the active one only rises. */
  ghost predicate Evolves(before: Table, after: Table) {
    && (forall k | k in before :: k in after && PhaseForward(before[k].phase, after[k].phase))
    && ActiveRises(before, after)
  }

  ghost predicate ActiveRises(before: Table, after: Table) {
    && (forall k | HasPhase(before, k, Active) :: HasActive(after, k.account))
    && (forall k, x | HasPhase(before, k, Active) && HasPhase(after, x, Active) && x.account == k.account ::
          k.generation <= x.generation)
  }

  /** The generations of an account are exactly 1 to the highest, and a pending one
      is the highest; so at most one is pending. */
  lemma {:induction false} GenerationsAreOneToHighest(t: Table, a: Account, max: int, g: int)
    requires Valid(t) && IsHighest(t, a, max)
    ensures Key(a, g) in t <==> 1 <= g <= max
    ensures HasPhase(t, Key(a, g), Provisioning) ==> g == max
    ensures HasPhase(t, Key(a, g), Retired) ==> exists h :: HasPhase(t, Key(a, h), Active) && g < h
  {}

  lemma {:induction false} EvolvesIsReflexive(t: Table)
    requires OneActive(t)
    ensures Evolves(t, t)
  {}

  /** The order of active and retired generations depends on which keys are active
      and retired only. */
  lemma {:induction false} SameActiveAndRetired(t: Table, after: Table)
    requires OneActive(t) && RetiredBelowActive(t)
    requires forall k :: HasPhase(after, k, Active) <==> HasPhase(t, k, Active)
    requires forall k :: HasPhase(after, k, Retired) <==> HasPhase(t, k, Retired)
    ensures OneActive(after) && RetiredBelowActive(after) && ActiveRises(t, after)
  {}

  lemma {:induction false} NewGenerationIsContiguous(t: Table, a: Account, g: int, payload: string)
    requires Contiguous(t) && 1 <= g && forall h | 1 <= h < g :: Key(a, h) in t
    ensures Contiguous(Requested(t, a, g, payload))
  {}

  lemma {:induction false} NewGenerationIsHighest(t: Table, a: Account, g: int, payload: string)
    requires PendingIsHighest(t) && !HasPending(t, a)
    requires forall k | k in t && k.account == a :: k.generation < g
    ensures PendingIsHighest(Requested(t, a, g, payload))
  {}

  lemma {:induction false} NewGenerationRows(t: Table, a: Account, g: int, payload: string)
    requires Key(a, g) !in t && forall k | k in t :: ColumnsMatch(t[k])
    ensures var after := Requested(t, a, g, payload);
            && (forall k :: HasPhase(after, k, Active) <==> HasPhase(t, k, Active))
            && (forall k :: HasPhase(after, k, Retired) <==> HasPhase(t, k, Retired))
            && (forall k | k in after :: ColumnsMatch(after[k]))
            && (forall k | k in t :: k in after && after[k] == t[k])
  {}

  lemma {:induction false} NewGenerationKeeps(t: Table, a: Account, g: int, payload: string)
    requires Valid(t) && !HasPending(t, a) && Key(a, g) !in t
    requires Contiguous(Requested(t, a, g, payload)) && PendingIsHighest(Requested(t, a, g, payload))
    ensures Valid(Requested(t, a, g, payload)) && Evolves(t, Requested(t, a, g, payload))
  {
    NewGenerationRows(t, a, g, payload);
    SameActiveAndRetired(t, Requested(t, a, g, payload));
  }

  lemma {:induction false} BelowHighest(t: Table, a: Account, highest: int, h: int)
    requires Contiguous(t) && IsHighest(t, a, highest)
    ensures 1 <= h <= highest ==> Key(a, h) in t
    ensures 0 <= highest
    ensures Key(a, h) in t ==> h <= highest
  {}

  /** Exactly when a request is accepted: the next number, and nothing pending. */
  lemma {:induction false} RequestAccepts(t: Table, a: Account, g: int, payload: string, scopeRetired: bool, highest: int)
    requires Contiguous(t) && IsHighest(t, a, highest)
    ensures var (after, reply) := Request(t, a, g, payload, scopeRetired, highest);
            && (reply.Ok? <==> !(a.scope != "" && scopeRetired) && g == highest + 1 && !HasPending(t, a))
            && after == if reply.Ok? then Requested(t, a, g, payload) else t
  {}

  lemma {:induction false} NextGenerationKeeps(t: Table, a: Account, g: int, payload: string)
    requires Valid(t) && !HasPending(t, a) && IsHighest(t, a, g - 1)
    ensures Valid(Requested(t, a, g, payload)) && Evolves(t, Requested(t, a, g, payload))
  {
    forall h ensures 1 <= h < g ==> Key(a, h) in t ensures Key(a, h) in t ==> h < g ensures 1 <= g {
      BelowHighest(t, a, g - 1, h);
    }
    NewGenerationIsContiguous(t, a, g, payload);
    NewGenerationIsHighest(t, a, g, payload);
    NewGenerationKeeps(t, a, g, payload);
  }

  lemma {:induction false} RequestKeeps(t: Table, a: Account, g: int, payload: string, scopeRetired: bool, highest: int)
    requires Valid(t) && IsHighest(t, a, highest)
    ensures var after := Request(t, a, g, payload, scopeRetired, highest).0; Valid(after) && Evolves(t, after)
  {
    RequestAccepts(t, a, g, payload, scopeRetired, highest);
    if Request(t, a, g, payload, scopeRetired, highest).1.Ok? {
      NextGenerationKeeps(t, a, g, payload);
    } else {
      EvolvesIsReflexive(t);
    }
  }

  /** A transaction that decides what is pending, or changes nothing but columns. */
  ghost predicate Settles(t: Table, after: Table) {
    && after.Keys == t.Keys
    && forall k | k in t ::
         && ColumnsMatch(after[k])
         && (after[k].phase == t[k].phase
             || (t[k].phase == Provisioning && (after[k].phase == Failed || after[k].phase == Cancelled)))
  }

  lemma {:induction false} SettlingIsContiguous(t: Table, after: Table)
    requires Contiguous(t) && after.Keys == t.Keys
    ensures Contiguous(after)
  {}

  lemma {:induction false} SettlingKeeps(t: Table, after: Table)
    requires Valid(t) && Settles(t, after)
    ensures Valid(after) && Evolves(t, after)
  {
    SettlingIsContiguous(t, after);
    SameActiveAndRetired(t, after);
  }

  lemma {:induction false} PendingIsAbove(t: Table, k: Key, x: Key)
    requires PendingIsHighest(t) && HasPhase(t, k, Provisioning) && x in t && x.account == k.account
    ensures x == k || x.generation < k.generation
  {}

  /** What activation does to one row. */
  lemma {:induction false} ActivatedRow(t: Table, k: Key, run: RunId, x: Key)
    requires Valid(t) && Attached(t, k, run)
    ensures var after := Complete(t, k, run, true).0;
            && after.Keys == t.Keys
            && (x in t && x.account != k.account ==> after[x] == t[x])
            && (x in t && x.account == k.account && x != k ==>
                  && after[x].phase != Provisioning && after[x].phase != Active
                  && PhaseForward(t[x].phase, after[x].phase) && ColumnsMatch(after[x]))
            && after[k] == Row(Active, None, None)
  {}

  lemma {:induction false} ActivationCovers(t: Table, k: Key, run: RunId, a: Account)
    requires Valid(t) && Attached(t, k, run)
    ensures var after := Complete(t, k, run, true).0;
            HasActive(after, a) <==> a == k.account || HasActive(t, a)
  {}

  /** One generation of the account becomes active, the others of that account are neither
      active nor pending, and other accounts keep theirs. */
  ghost predicate Activated(t: Table, after: Table, k: Key) {
    && after.Keys == t.Keys && HasPhase(after, k, Active)
    && (forall x | HasPhase(after, x, Active) && x.account == k.account :: x == k)
    && (forall x | x in t :: ColumnsMatch(after[x]) && PhaseForward(t[x].phase, after[x].phase))
    && (forall x | HasPhase(after, x, Provisioning) :: HasPhase(t, x, Provisioning))
    && (forall x: Key | x.account != k.account :: HasPhase(after, x, Active) <==> HasPhase(t, x, Active))
    && (forall x | HasPhase(after, x, Retired) && x.account != k.account :: HasPhase(t, x, Retired))
  }

  lemma {:induction false} CompletionActivates(t: Table, k: Key, run: RunId)
    requires Valid(t) && Attached(t, k, run)
    ensures Activated(t, Complete(t, k, run, true).0, k)
  {
    var after := Complete(t, k, run, true).0;
    ActivatedRow(t, k, run, k);
    forall x: Key
      ensures HasPhase(after, x, Active) && x.account == k.account ==> x == k
      ensures x in t ==> ColumnsMatch(after[x]) && PhaseForward(t[x].phase, after[x].phase)
      ensures HasPhase(after, x, Provisioning) ==> HasPhase(t, x, Provisioning)
      ensures x.account != k.account ==> (HasPhase(after, x, Active) <==> HasPhase(t, x, Active))
      ensures HasPhase(after, x, Retired) && x.account != k.account ==> HasPhase(t, x, Retired)
    {
      ActivatedRow(t, k, run, x);
    }
  }

  /** Activation: the new generation is above the one it retires, because what is
      pending is the highest. */
  lemma {:induction false} ActivationKeeps(t: Table, k: Key, run: RunId)
    requires Valid(t) && Attached(t, k, run)
    ensures var after := Complete(t, k, run, true).0;
            Valid(after) && Evolves(t, after) && HasPhase(after, k, Active)
  {
    var after := Complete(t, k, run, true).0;
    CompletionActivates(t, k, run);
    forall a: Account ensures HasActive(after, a) <==> a == k.account || HasActive(t, a) {
      ActivationCovers(t, k, run, a);
    }
    assert HasPhase(t, k, Provisioning);
    ActivatedIsValid(t, after, k);
  }

  lemma {:induction false} ActivatedIsValid(t: Table, after: Table, k: Key)
    requires Valid(t) && Activated(t, after, k) && HasPhase(t, k, Provisioning)
    requires forall a: Account :: HasActive(after, a) <==> a == k.account || HasActive(t, a)
    ensures Valid(after) && Evolves(t, after)
  {
    SettlingIsContiguous(t, after);
    forall x | HasPhase(t, x, Active) ensures HasActive(t, x.account) {
      assert x.account == x.account;
    }
    forall x | x in t && x.account == k.account ensures x == k || x.generation < k.generation {
      PendingIsAbove(t, k, x);
    }
  }

  // ----- every sequence of transactions --------------------------------------------------------

  datatype Op =
    | DoRequest(account: Account, generation: int, payload: string, scopeRetired: bool, highest: int)
    | DoClaim(key: Key, run: RunId)
    | DoRelease(key: Key, run: RunId)
    | DoComplete(key: Key, run: RunId, registered: bool)
    | DoCancel(key: Key)
    | DoCancelScope(target: TargetId)

  ghost predicate Applicable(t: Table, op: Op) {
    match op
    case DoRequest(a, _, _, _, highest) => IsHighest(t, a, highest)
    case DoClaim(k, _) => Claimable(t, k)
    case _ => true
  }

  function After(t: Table, op: Op): Table
    requires op.DoClaim? ==> op.key in t
  {
    match op
    case DoRequest(a, g, payload, retired, highest) => Request(t, a, g, payload, retired, highest).0
    case DoClaim(k, run) => Claim(t, k, run)
    case DoRelease(k, run) => Release(t, k, run)
    case DoComplete(k, run, registered) => Complete(t, k, run, registered).0
    case DoCancel(k) => Cancel(t, k).0
    case DoCancelScope(target) => CancelScope(t, target)
  }

  lemma {:induction false} OtherOpsSettle(t: Table, op: Op)
    requires (forall k | k in t :: ColumnsMatch(t[k])) && Applicable(t, op) && !op.DoRequest?
    requires !(op.DoComplete? && op.registered)
    ensures Settles(t, After(t, op))
  {}

  lemma {:induction false} OpKeeps(t: Table, op: Op)
    requires Valid(t) && Applicable(t, op)
    ensures Valid(After(t, op)) && Evolves(t, After(t, op))
  {
    if op.DoRequest? {
      RequestKeeps(t, op.account, op.generation, op.payload, op.scopeRetired, op.highest);
    } else if op.DoComplete? && op.registered {
      if Attached(t, op.key, op.run) {
        ActivationKeeps(t, op.key, op.run);
      } else {
        EvolvesIsReflexive(t);
      }
    } else {
      OtherOpsSettle(t, op);
      SettlingKeeps(t, After(t, op));
    }
  }

  lemma EvolvesIsTransitive(a: Table, b: Table, c: Table)
    requires Evolves(a, b) && Evolves(b, c)
    ensures Evolves(a, c)
  {}

  lemma {:induction false} OpLeadsTo(t: Table, op: Op, after: Table)
    requires Valid(t) && Applicable(t, op) && after == After(t, op)
    ensures Valid(after) && Evolves(t, after)
  {
    OpKeeps(t, op);
  }

  ghost predicate OpAt(tables: seq<Table>, ops: seq<Op>, i: nat)
    requires i < |ops| && |tables| == |ops| + 1
  {
    Applicable(tables[i], ops[i]) && tables[i + 1] == After(tables[i], ops[i])
  }

  ghost predicate IsHistory(tables: seq<Table>, ops: seq<Op>) {
    && |tables| == |ops| + 1 && tables[0] == map[]
    && forall i: nat | i < |ops| :: OpAt(tables, ops, i)
  }

  lemma {:induction false} EveryTableIsValid(tables: seq<Table>, ops: seq<Op>, i: nat)
    requires IsHistory(tables, ops) && i < |tables|
    ensures Valid(tables[i])
  {
    if i > 0 {
      EveryTableIsValid(tables, ops, i - 1);
      assert OpAt(tables, ops, i - 1);
      OpLeadsTo(tables[i - 1], ops[i - 1], tables[i]);
    }
  }

  lemma {:induction false} OneOpEvolves(tables: seq<Table>, ops: seq<Op>, i: nat)
    requires IsHistory(tables, ops) && i < |ops|
    ensures Evolves(tables[i], tables[i + 1])
  {
    EveryTableIsValid(tables, ops, i);
    assert OpAt(tables, ops, i);
    OpLeadsTo(tables[i], ops[i], tables[i + 1]);
  }

  lemma {:induction false} TablesEvolve(tables: seq<Table>, ops: seq<Op>, i: nat, j: nat)
    requires IsHistory(tables, ops) && i <= j < |tables|
    ensures Evolves(tables[i], tables[j])
    decreases j
  {
    if i == j {
      EveryTableIsValid(tables, ops, i);
      EvolvesIsReflexive(tables[i]);
    } else {
      TablesEvolve(tables, ops, i, j - 1);
      OneOpEvolves(tables, ops, j - 1);
      EvolvesIsTransitive(tables[i], tables[j - 1], tables[j]);
    }
  }

  /** The life of an account under any sequence of requests, claims, releases,
      completions, cancellations and target retirements: its generations are 1 to the
      highest, at most the highest is pending and it alone has a payload, at most one is
      active, retired ones lie below it; and the active generation neither falls nor
      disappears. */
  lemma {:induction false} AccountLifecycle(
      tables: seq<Table>, ops: seq<Op>, i: nat, j: nat, a: Account, max: int, before: int, now: int)
    requires IsHistory(tables, ops) && i <= j < |tables|
    requires IsHighest(tables[j], a, max)
    requires IsActiveGeneration(tables[i], a, before) && IsActiveGeneration(tables[j], a, now)
    ensures before <= now <= max
    ensures forall g :: Key(a, g) in tables[j] <==> 1 <= g <= max
    ensures forall g :: HasPhase(tables[j], Key(a, g), Provisioning) ==> g == max
    ensures forall g :: HasPhase(tables[j], Key(a, g), Active) ==> g == now
    ensures forall g :: HasPhase(tables[j], Key(a, g), Retired) ==> g < now
    ensures forall k | k in tables[j] :: ColumnsMatch(tables[j][k])
  {
    EveryTableIsValid(tables, ops, i);
    EveryTableIsValid(tables, ops, j);
    TablesEvolve(tables, ops, i, j);
    var t := tables[j];
    forall g
      ensures Key(a, g) in t <==> 1 <= g <= max
      ensures HasPhase(t, Key(a, g), Provisioning) ==> g == max
      ensures HasPhase(t, Key(a, g), Retired) ==> exists h :: HasPhase(t, Key(a, h), Active) && g < h
    {
      GenerationsAreOneToHighest(t, a, max, g);
    }
    if before != 0 {
      var x :| HasPhase(t, x, Active) && x.account == a;
      assert x == Key(a, x.generation);
      assert HasPhase(tables[i], Key(a, before), Active);
    }
  }

  /** An outcome is final: a cancelled, failed or retired generation has neither credential nor
      run, and stays as it is, so that no later claim can hand it out. */
  lemma {:induction false} DecidedIsFinal(tables: seq<Table>, ops: seq<Op>, i: nat, j: nat, k: Key)
    requires IsHistory(tables, ops) && i <= j < |tables| && k in tables[i]
    requires tables[i][k].phase == Cancelled || tables[i][k].phase == Failed || tables[i][k].phase == Retired
    ensures k in tables[j] && tables[j][k] == Row(tables[i][k].phase, None, None)
    ensures j < |ops| && ops[j].DoClaim? ==> ops[j].key != k
  {
    TablesEvolve(tables, ops, i, j);
    EveryTableIsValid(tables, ops, j);
    assert j < |ops| ==> OpAt(tables, ops, j);
  }

  /** A cancellation that is accepted withdraws the request for good; one that is refused finds
      it attached, decided or missing. */
  lemma {:induction false} CancelWithdraws(tables: seq<Table>, ops: seq<Op>, i: nat, j: nat, k: Key)
    requires IsHistory(tables, ops) && i < j < |tables| && ops[i] == DoCancel(k)
    ensures var reply := Cancel(tables[i], k).1;
            && (reply == Ok <==> k in tables[i] && tables[i][k].phase == Provisioning && tables[i][k].run == None)
            && (reply == Err(NotFound) <==> k !in tables[i])
            && (reply == Ok ==> k in tables[j] && tables[j][k] == Row(Cancelled, None, None))
            && (reply == Ok && j < |ops| && ops[j].DoClaim? ==> ops[j].key != k)
            && (reply != Ok ==> tables[i + 1] == tables[i])
            && forall x | x in tables[i] && x != k :: x in tables[i + 1] && tables[i + 1][x] == tables[i][x]
  {
    assert OpAt(tables, ops, i);
    if Cancel(tables[i], k).1 == Ok {
      DecidedIsFinal(tables, ops, i + 1, j, k);
    }
  }

  // ----- between a claim and its resolution ------------------------------------------------------

  /** The transactions that may take a generation from the run it is attached to: that run's own
      release or completion, and the retirement of the generation's own target. */
  predicate Detaches(op: Op, k: Key, run: RunId) {
    || op == DoRelease(k, run)
    || (op.DoComplete? && op.key == k && op.run == run)
    || (op.DoCancelScope? && op.target == k.account.scope)
  }

  /** Nobody else changes an attached generation. */
  lemma {:induction false} AttachedIsKept(t: Table, op: Op, after: Table, k: Key, run: RunId)
    requires Attached(t, k, run) && Applicable(t, op) && !Detaches(op, k, run) && after == After(t, op)
    ensures k in after && after[k] == t[k] && Attached(after, k, run)
  {}

  /** Whatever requests, claims, releases, completions, cancellations and retirements happen
      between a claim and its resolution, the generation stays attached, its row untouched. */
  lemma {:induction false} AttachedUntilResolved(
      tables: seq<Table>, ops: seq<Op>, i: nat, j: nat, k: Key, run: RunId)
    requires IsHistory(tables, ops) && i <= j < |tables| && Attached(tables[i], k, run)
    requires forall m: nat | i <= m < j :: !Detaches(ops[m], k, run)
    ensures Attached(tables[j], k, run) && tables[j][k] == tables[i][k]
    decreases j
  {
    if i < j {
      AttachedUntilResolved(tables, ops, i, j - 1, k, run);
      assert OpAt(tables, ops, j - 1);
      AttachedIsKept(tables[j - 1], ops[j - 1], tables[j], k, run);
    }
  }
}
