/** When the scheduler wants a run: due targets, retry backoff, and pending account
    requests, and the pass that queues the runs. */
module Planning {
  import opened Basics
  import Runs

  type Id = nat   // identifiers in their order of creation

  datatype LastRun = LastRun(status: Runs.Status, requestedAt: int, finishedAt: Option<int>)
  datatype Success = Success(revision: int, expiresAt: Option<int>)
  datatype Summary = Summary(last: Option<LastRun>, succeeded: Option<Success>, failures: int)

  datatype Target = Target(enabled: bool, retired: bool, revision: int, policyRef: string)
  datatype Policy = Policy(enabled: bool, acme: string, renewBeforeDays: int)

  const DAY := 24 * 3600 * 1_000_000_000

  // ----- backoff ----------------------------------------------------------------------------------

  /** Durations are 64-bit; the verifier checks every operation for overflow. */
  newtype Duration = x: int | -0x8000_0000_0000_0000 <= x < 0x8000_0000_0000_0000

  function Pow2(n: nat): nat {
    if n == 0 then 1 else 2 * Pow2(n - 1)
  }

  function Min(a: int, b: int): int {
    if a <= b then a else b
  }

  function Doublings(n: int): nat {
    if n < 1 then 0 else n - 1
  }

  /** The base doubled for each failure beyond the first and capped; but where doubling
      arrives just one below the cap, which takes an odd cap, the cap itself. */
  function BackoffOf(n: int, base: int, max: int): int {
    var doubled := base * Pow2(Doublings(n));
    if n >= 2 && doubled == max - 1 then max else Min(max, doubled)
  }

  lemma {:induction false} DoublingGrows(base: int, i: nat, n: nat)
    requires base > 0 && i <= n
    ensures base * Pow2(i) <= base * Pow2(n)
    ensures i < n ==> 2 * (base * Pow2(i)) <= base * Pow2(n)
  {
    if i < n {
      DoublingGrows(base, i, n - 1);
      assert base * Pow2(n) == 2 * (base * Pow2(n - 1));
    }
  }

  method Backoff(n: int, base: Duration, max: Duration) returns (wait: Duration)
    requires base > 0 && max > 0
    ensures wait as int == BackoffOf(n, base as int, max as int)
    ensures wait as int == Min(max as int, base as int * Pow2(Doublings(n))) <==>
            !(n >= 2 && base as int * Pow2(Doublings(n)) == max as int - 1)
  {
    var m := if n < 1 then 1 else n;
    wait := base;
    var i := 1;
    while i < m
      invariant 1 <= i <= m && wait as int == base as int * Pow2(i - 1)
      invariant i > 1 ==> wait as int < max as int - 1
    {
      DoublingGrows(base as int, i - 1, m - 1);
      DoublingGrows(base as int, i, m - 1);
      if wait >= max / 2 {
        assert base as int * Pow2(i) == 2 * (base as int * Pow2(i - 1));
        return max;
      }
      wait := wait * 2;
      i := i + 1;
    }
    if wait > max {
      wait := max;
    }
  }

  /** The result is the capped doubling unless doubling arrives one below the cap. For an even
      cap that never happens, whatever the base, and a cap configured in whole seconds is an
      even number of nanoseconds. */
  lemma BackoffIsTheCappedDoubling(n: int, base: int, max: int, seconds: int)
    ensures BackoffOf(n, base, max) == Min(max, base * Pow2(Doublings(n))) <==>
            !(n >= 2 && base * Pow2(Doublings(n)) == max - 1)
    ensures max % 2 == 0 || max == seconds * 1_000_000_000 ==>
              BackoffOf(n, base, max) == Min(max, base * Pow2(Doublings(n)))
  {
    if max == seconds * 1_000_000_000 {
      assert max == 2 * (seconds * 500_000_000);
    }
    if n >= 2 {
      assert base * Pow2(n - 1) == 2 * (base * Pow2(n - 2));
    }
  }

  /** An odd cap can be reached early: from one nanosecond the second failure doubles to two,
      and a cap of three takes its place. */
  lemma AnOddCapIsReachedEarly()
    ensures BackoffOf(2, 1, 3) == 3 && Min(3, 1 * Pow2(Doublings(2))) == 2
  {
    assert Pow2(1) == 2 * Pow2(0);
  }

  // ----- what is due --------------------------------------------------------------------------------

  datatype Config = Config(base: int, max: int)

  predicate Active(s: Summary) {
    s.last.Some? && s.last.value.status.Active()
  }

  predicate EndedBadly(s: Summary) {
    s.last.Some? && (s.last.value.status == Runs.Failed || s.last.value.status == Runs.Cancelled)
  }

  function RetryAt(s: Summary, c: Config): int
    requires s.last.Some?
  {
    (if s.last.value.finishedAt.Some? then s.last.value.finishedAt.value else s.last.value.requestedAt)
    + BackoffOf(s.failures, c.base, c.max)
  }

  predicate Due(t: Target, p: Policy, s: Summary, now: int, c: Config) {
    if t.retired then false
    else if !t.enabled || !p.enabled then false
    else if Active(s) then false
    else if EndedBadly(s) && now < RetryAt(s, c) then false
    else if s.succeeded.None? then true
    else if s.succeeded.value.revision != t.revision then true
    else if s.succeeded.value.expiresAt.None? then true
    else now >= s.succeeded.value.expiresAt.value - p.renewBeforeDays * DAY
  }

  /** Whether a target must run to carry a request made at the given time: a failure before
      the request does not hold it back. */
  predicate ProvisioningDue(requestedAt: int, s: Summary, now: int, c: Config) {
    !(EndedBadly(s) && s.last.value.requestedAt >= requestedAt && now < RetryAt(s, c))
  }

  /** What is due stays due, until something is recorded. */
  lemma DueIsMonotone(t: Target, p: Policy, s: Summary, now: int, later: int, c: Config)
    requires now <= later
    ensures Due(t, p, s, now, c) ==> Due(t, p, s, later, c)
  {}

  /** The times before which something keeps the target from running: the end of the backoff
      after a bad end, and the start of the renewal window while the last success still stands
      for the target as it is. */
  function BackoffEnd(s: Summary, c: Config): Option<int> {
    if EndedBadly(s) then Some(RetryAt(s, c)) else None
  }

  function RenewalStart(t: Target, p: Policy, s: Summary): Option<int> {
    match s.succeeded
    case Some(Success(revision, Some(expiresAt))) =>
      if revision == t.revision then Some(expiresAt - p.renewBeforeDays * DAY) else None
    case _ => None
  }

  function Later(x: Option<int>, y: Option<int>): Option<int> {
    match (x, y)
    case (Some(a), Some(b)) => Some(if a < b then b else a)
    case (None, _) => y
    case (_, None) => x
  }

  /** The time from which the target is due, if there has to be waited for one. */
  function DueTime(t: Target, p: Policy, s: Summary, c: Config): Option<int> {
    Later(BackoffEnd(s, c), RenewalStart(t, p, s))
  }

  /** A target in service with no active run is due exactly from one moment on: at that moment
      and ever after, never before it, or always when nothing has to be waited for. */
  lemma DueFrom(t: Target, p: Policy, s: Summary, now: int, c: Config)
    ensures Due(t, p, s, now, c) <==>
            && t.enabled && p.enabled && !t.retired && !Active(s)
            && (DueTime(t, p, s, c).Some? ==> DueTime(t, p, s, c).value <= now)
  {}

  /** Waiting until the due time is enough and necessary, so two times that disagree lie on
      either side of it. */
  lemma DueChangesOnce(t: Target, p: Policy, s: Summary, before: int, after: int, c: Config)
    requires !Due(t, p, s, before, c) && Due(t, p, s, after, c)
    ensures DueTime(t, p, s, c).Some? && before < DueTime(t, p, s, c).value <= after
    ensures Due(t, p, s, DueTime(t, p, s, c).value, c) && !Due(t, p, s, DueTime(t, p, s, c).value - 1, c)
  {
    DueFrom(t, p, s, before, c);
    DueFrom(t, p, s, after, c);
  }

  /** After a bad end the target waits out the backoff, counted from when the run finished or,
      when that is not known, from when it was requested; one that never succeeded is due as
      soon as that is over. */
  lemma WaitsOutTheBackoff(t: Target, p: Policy, s: Summary, last: LastRun, now: int, c: Config)
    requires s.last == Some(last) && (last.status == Runs.Failed || last.status == Runs.Cancelled)
    requires t.enabled && p.enabled && !t.retired
    ensures last.finishedAt.Some? && now < last.finishedAt.value + BackoffOf(s.failures, c.base, c.max) ==>
              !Due(t, p, s, now, c)
    ensures last.finishedAt.None? && now < last.requestedAt + BackoffOf(s.failures, c.base, c.max) ==>
              !Due(t, p, s, now, c)
    ensures s.succeeded.None? ==>
              (Due(t, p, s, now, c) <==>
                 now - (match last.finishedAt case Some(f) => f case None => last.requestedAt)
                   >= BackoffOf(s.failures, c.base, c.max))
  {}

  /** A pending account request is held back by a bad end only of a run requested no earlier
      than it was, and then for the same backoff. */
  lemma OnlyLaterFailuresHoldARequestBack(requestedAt: int, s: Summary, now: int, c: Config)
    ensures s.last.None? || s.last.value.requestedAt < requestedAt
            || (s.last.value.status != Runs.Failed && s.last.value.status != Runs.Cancelled) ==>
              ProvisioningDue(requestedAt, s, now, c)
    ensures s.last.Some? && s.last.value.requestedAt >= requestedAt
            && (s.last.value.status == Runs.Failed || s.last.value.status == Runs.Cancelled) ==>
              (ProvisioningDue(requestedAt, s, now, c) <==>
                 now - (match s.last.value.finishedAt case Some(f) => f case None => s.last.value.requestedAt)
                   >= BackoffOf(s.failures, c.base, c.max))
  {}

  // ----- one pass ------------------------------------------------------------------------------------

  /** A target the pass will not find twice, and what it read about it. */
  datatype Candidate = Candidate(id: Id, summary: Summary)

  /** In whole seconds, like the comparison of the candidates. */
  function Expiry(s: Summary): int {
    if s.succeeded.Some? && s.succeeded.value.expiresAt.Some?
    then s.succeeded.value.expiresAt.value / 1_000_000_000 else 0
  }

  /** Sooner expiry first, by whole seconds, then the older target. */
  predicate Sooner(a: Candidate, b: Candidate) {
    Expiry(a.summary) < Expiry(b.summary) || (Expiry(a.summary) == Expiry(b.summary) && a.id <= b.id)
  }

  /** Of two certificates the one that expires in an earlier second goes first, of two in the
      same second the older target's; and a target that has none goes before them all, as
      certificates expire after 1970. */
  lemma EarlierExpiryGoesFirst(a: Candidate, b: Candidate, x: int, y: int)
    requires b.summary.succeeded.Some? && b.summary.succeeded.value.expiresAt == Some(y)
    ensures a.summary.succeeded.Some? && a.summary.succeeded.value.expiresAt == Some(x) ==>
              && (x < y && x / 1_000_000_000 < y / 1_000_000_000 ==> Sooner(a, b) && !Sooner(b, a))
              && (x / 1_000_000_000 == y / 1_000_000_000 && a.id < b.id ==> Sooner(a, b) && !Sooner(b, a))
    ensures a.summary.succeeded.None? && y >= 1_000_000_000 ==> Sooner(a, b) && !Sooner(b, a)
  {}

  predicate Sorted(cands: seq<Candidate>) {
    forall i, j | 0 <= i < j < |cands| :: Sooner(cands[i], cands[j])
  }

  function Insert(x: Candidate, cands: seq<Candidate>): seq<Candidate> {
    if cands == [] || Sooner(x, cands[0]) then [x] + cands else [cands[0]] + Insert(x, cands[1..])
  }

  lemma {:induction false} InsertSorts(x: Candidate, cands: seq<Candidate>)
    requires Sorted(cands)
    ensures Sorted(Insert(x, cands)) && multiset(Insert(x, cands)) == multiset(cands) + multiset{x}
  {
    if cands != [] && !Sooner(x, cands[0]) {
      InsertSorts(x, cands[1..]);
      assert cands == [cands[0]] + cands[1..];
      var rest := Insert(x, cands[1..]);
      forall y | y in rest ensures Sooner(cands[0], y) {
        assert y in multiset(rest);
      }
      FirstThenSorted(cands[0], rest);
    } else {
      forall y | y in cands ensures Sooner(x, y) {
        var j :| 0 <= j < |cands| && cands[j] == y;
        assert j > 0 ==> Sooner(cands[0], cands[j]);
      }
      FirstThenSorted(x, cands);
    }
  }

  lemma FirstThenSorted(x: Candidate, rest: seq<Candidate>)
    requires Sorted(rest) && forall y | y in rest :: Sooner(x, y)
    ensures Sorted([x] + rest)
  {}

  method Sort(cands: seq<Candidate>) returns (sorted: seq<Candidate>)
    ensures Sorted(sorted) && multiset(sorted) == multiset(cands)
  {
    sorted := [];
    for i := 0 to |cands|
      invariant Sorted(sorted) && multiset(sorted) == multiset(cands[..i])
    {
      InsertSorts(cands[i], sorted);
      sorted := Insert(cands[i], sorted);
      assert cands[..i + 1] == cands[..i] + [cands[i]];
    }
    assert cands[..|cands|] == cands;
  }

  class Scheduler {
    const targets: map<Id, Target>
    const policies: map<string, Policy>      // those that can be loaded
    const eab: set<string>
    const targetScoped: set<string>
    const bindingRequests: map<string, int>          // pending and unattached, with their times
    const targetRequests: map<(string, Id), int>
    const config: Config
    const now: int
    var summaries: map<Id, Summary>

    constructor (targets: map<Id, Target>, policies: map<string, Policy>, eab: set<string>, targetScoped: set<string>,
                 bindingRequests: map<string, int>, targetRequests: map<(string, Id), int>, config: Config, now: int,
                 summaries: map<Id, Summary>)
      requires targets.Keys <= summaries.Keys
      ensures this.summaries == summaries && this.targets == targets
    {
      this.targets, this.policies, this.eab, this.targetScoped := targets, policies, eab, targetScoped;
      this.bindingRequests, this.targetRequests := bindingRequests, targetRequests;
      this.config, this.now, this.summaries := config, now, summaries;
    }

    predicate Listed(id: Id) {
      id in targets && targets[id].enabled && !targets[id].retired
    }

    predicate InService(id: Id) {
      Listed(id) && targets[id].policyRef in policies && policies[targets[id].policyRef].enabled
    }

    function PolicyOf(id: Id): Policy
      requires InService(id)
    {
      policies[targets[id].policyRef]
    }

    /** The target is to run for its own sake: its certificate, or its own account. */
    predicate Wanted(id: Id, s: Summary) {
      && InService(id) && !Active(s)
      && (|| Due(targets[id], PolicyOf(id), s, now, config)
          || (&& PolicyOf(id).acme in eab && PolicyOf(id).acme in targetScoped
              && (PolicyOf(id).acme, id) in targetRequests
              && ProvisioningDue(targetRequests[(PolicyOf(id).acme, id)], s, now, config)))
    }

    /** Its run could carry the request of the binding's one account. */
    predicate Carries(id: Id, binding: string) {
      InService(id) && PolicyOf(id).acme == binding && binding in eab && binding !in targetScoped
    }

    /** The summaries after runs have been queued for some targets. */
    function With(before: map<Id, Summary>, planned: set<Id>): map<Id, Summary> {
      map id | id in before ::
        if id in planned then before[id].(last := Some(LastRun(Runs.Queued, now, None))) else before[id]
    }

    /** Refused for a target with an active run. */
    method CreateRun(id: Id, ghost before: map<Id, Summary>, ghost planned: set<Id>) returns (ok: bool)
      requires id in summaries && summaries == With(before, planned)
      modifies this
      ensures ok <==> !Active(old(summaries)[id])
      ensures ok ==> summaries == old(summaries)[id := old(summaries)[id].(last := Some(LastRun(Runs.Queued, now, None)))]
      ensures summaries == With(before, if ok then planned + {id} else planned)
    {
      ok := !Active(summaries[id]);
      if ok {
        summaries := summaries[id := summaries[id].(last := Some(LastRun(Runs.Queued, now, None)))];
      }
    }

    /** The request of a binding is carried by a queued run, or every target that could carry
        it is running already or held back by a later failure. */
    ghost predicate Served(binding: string, before: map<Id, Summary>, planned: set<Id>)
      requires targets.Keys <= before.Keys
    {
      binding in bindingRequests ==>
        || (exists id :: Carries(id, binding) && (id in planned || IsQueued(before[id])))
        || (forall id | Carries(id, binding) ::
              Active(before[id]) || !ProvisioningDue(bindingRequests[binding], before[id], now, config))
    }

    predicate IsQueued(s: Summary) {
      s.last.Some? && s.last.value.status == Runs.Queued
    }

    /** A target that may run now to carry the binding's pending request. */
    predicate MayCarry(id: Id, binding: string, before: map<Id, Summary>)
      requires targets.Keys <= before.Keys
    {
      && Carries(id, binding) && binding in bindingRequests && !Active(before[id])
      && ProvisioningDue(bindingRequests[binding], before[id], now, config)
    }

    ghost predicate AreCandidates(cands: seq<Candidate>, binding: string, before: map<Id, Summary>)
      requires targets.Keys <= before.Keys
    {
      && (forall i | 0 <= i < |cands| :: Carries(cands[i].id, binding) && cands[i].summary == before[cands[i].id])
      && forall id | Carries(id, binding) :: Candidate(id, before[id]) in cands
    }

    method ListTargets() returns (list: seq<Id>)
      ensures forall id :: id in list <==> Listed(id)
      ensures forall i, j | 0 <= i < j < |list| :: list[i] != list[j]
    {
      list := [];
      var left := set id | id in targets && targets[id].enabled && !targets[id].retired;
      while left != {}
        invariant forall id :: id in list || id in left <==> Listed(id)
        invariant forall i, j | 0 <= i < j < |list| :: list[i] != list[j]
        invariant forall i | 0 <= i < |list| :: list[i] !in left
        decreases |left|
      {
        var id :| id in left;
        list := list + [id];
        left := left - {id};
      }
    }

    method AnyQueued(binding: string, cands: seq<Candidate>, ghost before: map<Id, Summary>, planned: set<Id>) returns (found: bool)
      requires targets.Keys <= before.Keys && AreCandidates(cands, binding, before)
      ensures found <==> exists id :: Carries(id, binding) && (id in planned || IsQueued(before[id]))
    {
      for i := 0 to |cands|
        invariant forall j | 0 <= j < i :: cands[j].id !in planned && !IsQueued(cands[j].summary)
      {
        if cands[i].id in planned || IsQueued(cands[i].summary) {
          assert Carries(cands[i].id, binding);
          return true;
        }
      }
      found := false;
      forall id | Carries(id, binding) ensures id !in planned && !IsQueued(before[id]) {
        var j :| 0 <= j < |cands| && cands[j] == Candidate(id, before[id]);
      }
    }

    /** Queues one run to carry the binding's pending request when no run will, for the
        target whose certificate expires soonest among those that may run. */
    method PlanBinding(binding: string, cands: seq<Candidate>, before: map<Id, Summary>, planned: set<Id>)
      returns (planned': set<Id>)
      requires targets.Keys <= before.Keys && summaries == With(before, planned)
      requires AreCandidates(cands, binding, before)
      modifies this
      ensures summaries == With(before, planned')
      ensures planned <= planned' && |planned' - planned| <= 1
      ensures Served(binding, before, planned')
      ensures forall id | id in planned' - planned :: MayCarry(id, binding, before)
      ensures forall id, other | id in planned' - planned && Carries(id, binding) && MayCarry(other, binding, before) ::
                Sooner(Candidate(id, before[id]), Candidate(other, before[other]))
      ensures (exists id :: Carries(id, binding) && (id in planned || IsQueued(before[id]))) ==> planned' == planned
    {
      planned' := planned;
      if binding !in bindingRequests {
        return;
      }
      var carried := AnyQueued(binding, cands, before, planned);
      if carried {
        return;
      }
      var sorted := Sort(cands);
      SameMembers(sorted, cands);
      for i := 0 to |sorted|
        invariant planned' == planned && summaries == With(before, planned)
        invariant forall j | 0 <= j < i ::
            Active(sorted[j].summary) || !ProvisioningDue(bindingRequests[binding], sorted[j].summary, now, config)
      {
        var c := sorted[i];
        assert c in cands;
        if Active(c.summary) || !ProvisioningDue(bindingRequests[binding], c.summary, now, config) {
          continue;
        }
        var ok := CreateRun(c.id, before, planned);
        if ok {
          planned' := planned + {c.id};
          assert planned' - planned == {c.id};
          FirstIsSoonest(binding, sorted, i, cands, before);
          return;
        }
      }
      AllHeldBack(binding, sorted, cands, before, planned);
    }

    lemma SameMembers(a: seq<Candidate>, b: seq<Candidate>)
      requires multiset(a) == multiset(b)
      ensures forall c :: c in a <==> c in b
    {
      forall c ensures c in a <==> c in b {
        assert c in a <==> c in multiset(a);
        assert c in b <==> c in multiset(b);
      }
    }

    lemma FirstIsSoonest(binding: string, sorted: seq<Candidate>, i: nat, cands: seq<Candidate>, before: map<Id, Summary>)
      requires targets.Keys <= before.Keys && AreCandidates(cands, binding, before) && Sorted(sorted) && i < |sorted|
      requires forall c :: c in sorted <==> c in cands
      requires binding in bindingRequests
      requires forall j | 0 <= j < i ::
                 Active(sorted[j].summary) || !ProvisioningDue(bindingRequests[binding], sorted[j].summary, now, config)
      ensures forall other | MayCarry(other, binding, before) :: Sooner(sorted[i], Candidate(other, before[other]))
    {}

    lemma AllHeldBack(binding: string, sorted: seq<Candidate>, cands: seq<Candidate>, before: map<Id, Summary>, planned: set<Id>)
      requires targets.Keys <= before.Keys && AreCandidates(cands, binding, before) && binding in bindingRequests
      requires forall c :: c in sorted <==> c in cands
      requires forall j | 0 <= j < |sorted| ::
                 Active(sorted[j].summary) || !ProvisioningDue(bindingRequests[binding], sorted[j].summary, now, config)
      ensures Served(binding, before, planned)
    {}

    /** One target of the pass: a run when it wants one and has none. */
    method PlanTarget(id: Id, ghost before: map<Id, Summary>, planned: set<Id>) returns (planned': set<Id>)
      requires targets.Keys <= before.Keys && Listed(id) && id !in planned && summaries == With(before, planned)
      modifies this
      ensures summaries == With(before, planned')
      ensures planned' == if Wanted(id, before[id]) then planned + {id} else planned
    {
      planned' := planned;
      if !InService(id) {
        return;
      }
      var s := summaries[id];
      assert s == before[id];
      if Active(s) {
        return;
      }
      var due := Due(targets[id], PolicyOf(id), s, now, config);
      var acme := PolicyOf(id).acme;
      if !due && acme in eab && acme in targetScoped && (acme, id) in targetRequests {
        due := ProvisioningDue(targetRequests[(acme, id)], s, now, config);
      }
      if due {
        var ok := CreateRun(id, before, planned);
        planned' := planned + {id};
      }
    }

    /** The candidates of one binding, with what the pass read about them. */
    method Candidates(binding: string, list: seq<Id>, before: map<Id, Summary>) returns (cands: seq<Candidate>)
      requires targets.Keys <= before.Keys && forall id :: id in list <==> Listed(id)
      ensures AreCandidates(cands, binding, before)
    {
      cands := [];
      for i := 0 to |list|
        invariant forall j | 0 <= j < |cands| :: Carries(cands[j].id, binding) && cands[j].summary == before[cands[j].id]
        invariant forall j | 0 <= j < i && Carries(list[j], binding) :: Candidate(list[j], before[list[j]]) in cands
      {
        if Carries(list[i], binding) {
          cands := cands + [Candidate(list[i], before[list[i]])];
        }
      }
    }

    ghost predicate WantedPlanned(list: seq<Id>, before: map<Id, Summary>, planned: set<Id>) {
      forall id :: id in planned <==> id in before && id in list && Wanted(id, before[id])
    }

    method PlanTargets(list: seq<Id>, ghost before: map<Id, Summary>) returns (planned: set<Id>)
      requires targets.Keys <= before.Keys && summaries == before
      requires forall id :: id in list <==> Listed(id)
      requires forall i, j | 0 <= i < j < |list| :: list[i] != list[j]
      modifies this
      ensures summaries == With(before, planned) && WantedPlanned(list, before, planned)
    {
      assert summaries == With(before, {});
      planned := {};
      for i := 0 to |list|
        invariant summaries == With(before, planned) && WantedPlanned(list[..i], before, planned)
      {
        assert list[..i + 1] == list[..i] + [list[i]];
        planned := PlanTarget(list[i], before, planned);
      }
      assert list[..|list|] == list;
    }

    /** The extra runs carry requests of bindings. */
    ghost predicate CarriersOnly(before: map<Id, Summary>, extra: set<Id>)
      requires targets.Keys <= before.Keys
    {
      forall id | id in extra ::
        InService(id) && MayCarry(id, PolicyOf(id).acme, before)
    }

    lemma ServedStays(binding: string, before: map<Id, Summary>, planned: set<Id>, more: set<Id>)
      requires targets.Keys <= before.Keys && planned <= more && Served(binding, before, planned)
      ensures Served(binding, before, more)
    {}

    lemma CarriersStay(before: map<Id, Summary>, extra: set<Id>, binding: string, more: set<Id>)
      requires targets.Keys <= before.Keys && CarriersOnly(before, extra)
      requires forall id | id in more :: id in extra || MayCarry(id, binding, before)
      ensures CarriersOnly(before, more)
    {}

    method PlanBindings(list: seq<Id>, before: map<Id, Summary>, wanted: set<Id>) returns (planned: set<Id>)
      requires targets.Keys <= before.Keys && summaries == With(before, wanted)
      requires forall id :: id in list <==> Listed(id)
      modifies this
      ensures summaries == With(before, planned) && wanted <= planned
      ensures CarriersOnly(before, planned - wanted)
      ensures forall b | b in eab :: Served(b, before, planned)
    {
      planned := wanted;
      var bindings := eab;
      while bindings != {}
        invariant bindings <= eab && wanted <= planned && summaries == With(before, planned)
        invariant forall b | b in eab && b !in bindings :: Served(b, before, planned)
        invariant CarriersOnly(before, planned - wanted)
        decreases |bindings|
      {
        var b :| b in bindings;
        var cands := Candidates(b, list, before);
        ghost var was := planned;
        planned := PlanBinding(b, cands, before, planned);
        forall x | x in eab && x !in bindings ensures Served(x, before, planned) {
          ServedStays(x, before, was, planned);
        }
        CarriersStay(before, was - wanted, b, planned - wanted);
        bindings := bindings - {b};
      }
    }

    /** One pass with a fixed clock and no other writer: every target that is due, for its
        certificate or its own account, has a run queued, every binding's request is served,
        and nothing else changes; no target gets a run beside an active one. */
    method Plan() returns (planned: set<Id>)
      requires targets.Keys <= summaries.Keys
      modifies this
      ensures summaries == With(old(summaries), planned)
      ensures forall id | Listed(id) && Wanted(id, old(summaries)[id]) :: id in planned
      ensures forall binding :: Served(binding, old(summaries), planned)
      ensures CarriersOnly(old(summaries), set id | id in planned && id in targets && !Wanted(id, old(summaries)[id]))
      ensures forall id | id in planned :: InService(id) && !Active(old(summaries)[id])
      ensures summaries.Keys == old(summaries).Keys
      ensures forall id | id in planned ::
                id in summaries && summaries[id] == old(summaries)[id].(last := Some(LastRun(Runs.Queued, now, None)))
      ensures forall id | id in summaries && id !in planned :: summaries[id] == old(summaries)[id]
    {
      var before := summaries;
      var list := ListTargets();
      var wanted := PlanTargets(list, before);
      planned := PlanBindings(list, before, wanted);
      forall b ensures Served(b, before, planned) {
        assert b !in eab ==> forall id :: !Carries(id, b);
      }
    }
  }
}
