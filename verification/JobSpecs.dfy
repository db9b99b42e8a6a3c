/** What the API handlers let into the registry, one request at a time, and the job
    specification built from it: it always passes the contract's own validation. */
module JobSpecs {
  import opened Basics
  import opened Contract
  import opened Text
  import N = Names
  import P = Provisioning
  import A = Accounts

  const KEY_TYPES := ["ec256", "ec384", "rsa2048", "rsa3072", "rsa4096"]

  datatype Policy = Policy(
    name: string, suffixes: seq<string>, allowWildcard: bool, acme: string, renewBeforeDays: int, keyType: string,
    maxSANs: int, enabled: bool)

  datatype Target = Target(
    fqdn: string, additional: seq<string>, owner: string, policyRef: string, execution: string, dns: string,
    store: string, enabled: bool, retired: bool, revision: int)

  // ----- the contract -------------------------------------------------------------------------

  datatype AccountRef = AccountRef(scope: string, generation: int, sealedPayload: Option<P.Sealed>)

  datatype PolicySpec = PolicySpec(
    suffixes: seq<string>, allowWildcard: bool, renewBeforeDays: int, keyType: string, maxSANs: Option<int>)

  datatype JobSpec = JobSpec(
    runId: string, targetId: string, revision: int, fqdn: string, additional: Option<seq<string>>,
    policy: PolicySpec, acme: string, account: Option<AccountRef>, dns: string, store: string)

  /** The fields validation may complain about, in the order it looks at them. */
  datatype Invalid =
    | RunId | TargetId | Revision | Fqdn | AdditionalNames | Suffixes | RenewBeforeDays | KeyType | MaxSans
    | AcmeBinding | Account | AccountScope | DnsBinding | StoreBinding | NotCovered | TooManyNames

  predicate Canonical(s: string) {
    N.Normalized(s) == N.Ok(s)
  }

  predicate CanonicalSuffix(s: string) {
    Canonical(s) && !N.IsWildcard(s)
  }

  /** The policy check of a name, normalizing both sides. */
  predicate Evaluates(name: string, suffixes: seq<string>, allowWildcard: bool) {
    N.Normalized(name).Ok? && N.Permits(N.Policy(suffixes, allowWildcard), N.Normalized(name).value)
  }

  predicate AllEvaluate(names: seq<string>, suffixes: seq<string>, allowWildcard: bool) {
    forall i | 0 <= i < |names| :: Evaluates(names[i], suffixes, allowWildcard)
  }

  predicate AccountOk(a: AccountRef) {
    && IsGeneration(a.generation) && (a.scope == "" || IsIdentifier(a.scope))
    && (a.sealedPayload.Some? ==>
          P.SealedOk(a.sealedPayload.value) && a.sealedPayload.value.version == P.VersionFor(a.scope))
  }

  function ValidatePolicy(p: PolicySpec): Option<Invalid> {
    if p.suffixes == [] || |p.suffixes| > MAX_ALLOWED_SUFFIXES then Some(Suffixes)
    else if exists i :: 0 <= i < |p.suffixes| && !CanonicalSuffix(p.suffixes[i]) then Some(Suffixes)
    else if !Distinct(p.suffixes) then Some(Suffixes)
    else if p.renewBeforeDays < MIN_RENEW_BEFORE_DAYS || p.renewBeforeDays > MAX_RENEW_BEFORE_DAYS
    then Some(RenewBeforeDays)
    else if p.keyType !in KEY_TYPES then Some(KeyType)
    else if p.maxSANs.Some? && (p.maxSANs.value < 1 || p.maxSANs.value > MAX_NAMES) then Some(MaxSans)
    else None
  }

  function Additional(s: JobSpec): seq<string> {
    if s.additional.Some? then s.additional.value else []
  }

  function Validate(s: JobSpec): Option<Invalid> {
    var names := N.AllNames(s.fqdn, Additional(s));
    if !IsIdentifier(s.runId) then Some(RunId)
    else if !IsIdentifier(s.targetId) then Some(TargetId)
    else if s.revision < 1 then Some(Revision)
    else if !Canonical(s.fqdn) then Some(Fqdn)
    else if s.additional == Some([]) || |Additional(s)| > MAX_NAMES - 1 then Some(AdditionalNames)
    else if exists i :: 0 <= i < |Additional(s)| && !Canonical(Additional(s)[i]) then Some(AdditionalNames)
    else if !Distinct(names) then Some(AdditionalNames)
    else if ValidatePolicy(s.policy).Some? then ValidatePolicy(s.policy)
    else if !IsBindingName(s.acme) then Some(AcmeBinding)
    else if s.account.Some? && !AccountOk(s.account.value) then Some(Account)
    else if s.account.Some? && s.account.value.scope != "" && s.account.value.scope != s.targetId then Some(AccountScope)
    else if !IsBindingName(s.dns) then Some(DnsBinding)
    else if !IsBindingName(s.store) then Some(StoreBinding)
    else if !AllEvaluate(names, s.policy.suffixes, s.policy.allowWildcard) then Some(NotCovered)
    else if !N.CountOk(|names|, if s.policy.maxSANs.Some? then s.policy.maxSANs.value else 1) then Some(TooManyNames)
    else None
  }

  /** A job for one name carries neither additional names nor a bound on them. */
  function BuildJobSpec(runId: string, id: string, t: Target, p: Policy, account: Option<AccountRef>): JobSpec {
    var single := t.additional == [];
    JobSpec(runId, id, t.revision, t.fqdn, if single then None else Some(t.additional),
            PolicySpec(p.suffixes, p.allowWildcard, p.renewBeforeDays, p.keyType, if single then None else Some(p.maxSANs)),
            p.acme, account, t.dns, t.store)
  }

  // ----- what the handlers let in ----------------------------------------------------------------

  predicate GoodPolicy(p: Policy) {
    && 1 <= |p.suffixes| <= MAX_ALLOWED_SUFFIXES && Distinct(p.suffixes)
    && (forall i | 0 <= i < |p.suffixes| :: CanonicalSuffix(p.suffixes[i]))
    && IsBindingName(p.acme) && MIN_RENEW_BEFORE_DAYS <= p.renewBeforeDays <= MAX_RENEW_BEFORE_DAYS
    && p.keyType in KEY_TYPES && 1 <= p.maxSANs <= MAX_NAMES
  }

  predicate GoodTarget(t: Target) {
    && Canonical(t.fqdn) && |t.additional| <= MAX_NAMES - 1
    && (forall i | 0 <= i < |t.additional| :: Canonical(t.additional[i]))
    && IsBindingName(t.dns) && IsBindingName(t.store) && t.revision >= 1
  }

  /** Every name of the target is allowed by the policy, appears once, and there are no more
      of them than it permits. */
  predicate NamesFit(t: Target, p: Policy) {
    var names := N.AllNames(t.fqdn, t.additional);
    && AllEvaluate(names, p.suffixes, p.allowWildcard)
    && Distinct(names) && N.CountOk(|names|, p.maxSANs)
  }

  /** An account request whose payload has the form its scope needs. */
  predicate GoodRequest(k: A.Key, payload: P.Sealed) {
    AccountOk(AccountRef(k.account.scope, k.generation, Some(payload)))
  }

  datatype Registry = Registry(
    policies: map<string, Policy>, targets: map<string, Target>, requests: map<A.Key, P.Sealed>)

  ghost predicate Good(r: Registry) {
    && (forall id | id in r.policies :: GoodPolicy(r.policies[id]))
    && (forall id | id in r.targets :: GoodTarget(r.targets[id]) && IsIdentifier(id))
    && (forall id | id in r.targets && !r.targets[id].retired ::
          r.targets[id].policyRef in r.policies && NamesFit(r.targets[id], r.policies[r.targets[id].policyRef]))
    && (forall k | k in r.requests :: GoodRequest(k, r.requests[k]))
  }

  // ----- the specification built from it ------------------------------------------------------------

  lemma GoodPoliciesValidate(p: Policy, maxSANs: Option<int>)
    requires GoodPolicy(p) && (maxSANs == None || maxSANs == Some(p.maxSANs))
    ensures ValidatePolicy(PolicySpec(p.suffixes, p.allowWildcard, p.renewBeforeDays, p.keyType, maxSANs)).None?
  {}

  /** A specification built from a target and a policy the handlers accept passes validation
      exactly when the target's names fit the policy. */
  lemma {:induction false} ValidExactlyWhenNamesFit(runId: string, id: string, t: Target, p: Policy, account: Option<AccountRef>)
    requires IsIdentifier(runId) && IsIdentifier(id) && GoodTarget(t) && GoodPolicy(p)
    requires account.Some? ==> AccountOk(account.value) && (account.value.scope == "" || account.value.scope == id)
    ensures Validate(BuildJobSpec(runId, id, t, p, account)).None? <==> NamesFit(t, p)
  {
    var s := BuildJobSpec(runId, id, t, p, account);
    GoodPoliciesValidate(p, s.policy.maxSANs);
    assert Additional(s) == t.additional;
  }

  /** The account a run may be given: none, an earlier request of the binding or of the
      target, or one of them with its payload. */
  ghost predicate MayUse(r: Registry, account: Option<AccountRef>, id: string) {
    account.Some? ==>
      && (account.value.scope == "" || account.value.scope == id)
      && exists k :: k in r.requests && k.account.scope == account.value.scope && k.generation == account.value.generation
                     && (account.value.sealedPayload.Some? ==> account.value.sealedPayload.value == r.requests[k])
  }

  /** For every target in service, whatever account the run uses, the scheduler's own
      validation never rejects the job. */
  lemma {:induction false} BuiltSpecsAreValid(r: Registry, runId: string, id: string, account: Option<AccountRef>)
    requires Good(r) && IsIdentifier(runId)
    requires id in r.targets && !r.targets[id].retired && MayUse(r, account, id)
    ensures var t := r.targets[id];
            t.policyRef in r.policies && Validate(BuildJobSpec(runId, id, t, r.policies[t.policyRef], account)).None?
  {
    var t := r.targets[id];
    if account.Some? {
      var k :| k in r.requests && k.account.scope == account.value.scope && k.generation == account.value.generation
               && (account.value.sealedPayload.Some? ==> account.value.sealedPayload.value == r.requests[k]);
      assert GoodRequest(k, r.requests[k]);
    }
    ValidExactlyWhenNamesFit(runId, id, t, r.policies[t.policyRef], account);
  }

  /** What a Runner decides on, read from the job. */
  function RequestOf(s: JobSpec): N.Request {
    N.Request(s.fqdn, Additional(s), N.Bindings(s.acme, s.dns, s.store))
  }

  /** The job says what the registry says: run, target, revision, names, bindings and account
      arrive unchanged, and so does the snapshot of the policy. */
  ghost predicate Carries(s: JobSpec, runId: string, id: string, t: Target, p: Policy, account: Option<AccountRef>) {
    && s.runId == runId && s.targetId == id && s.revision == t.revision && s.account == account
    && N.AllNames(s.fqdn, Additional(s)) == N.AllNames(t.fqdn, t.additional)
    && s.acme == p.acme && s.dns == t.dns && s.store == t.store
    && s.policy.suffixes == p.suffixes && s.policy.allowWildcard == p.allowWildcard
    && s.policy.renewBeforeDays == p.renewBeforeDays && s.policy.keyType == p.keyType
    && (s.additional.Some? <==> |t.additional| > 0) && (s.policy.maxSANs.Some? <==> |t.additional| > 0)
    && (s.policy.maxSANs.Some? ==> s.policy.maxSANs.value == p.maxSANs)
  }

  /** Which Runners accept the job of a target in service: exactly those that allow its names,
      that many of them, and each of its three bindings for what it is. */
  lemma {:induction false} RunnersOfTheBindingsAccept(
      r: Registry, runId: string, id: string, account: Option<AccountRef>, runner: N.RunnerPolicy)
    requires Good(r) && id in r.targets && !r.targets[id].retired
    ensures var t := r.targets[id];
            && t.policyRef in r.policies
            && var p := r.policies[t.policyRef];
               var s := BuildJobSpec(runId, id, t, p, account);
            && Carries(s, runId, id, t, p, account)
            && (N.Authorizes(runner, RequestOf(s)) <==>
                  && N.CountOk(1 + |t.additional|, runner.maxNames)
                  && N.NameOk(runner, t.fqdn) && N.NamesOk(runner, t.additional)
                  && p.acme in runner.acme && t.dns in runner.dns && t.store in runner.store)
  {
    var t := r.targets[id];
    JobCarries(runId, id, t, r.policies[t.policyRef], account);
    AcceptedExactly(BuildJobSpec(runId, id, t, r.policies[t.policyRef], account), runner);
  }

  lemma JobCarries(runId: string, id: string, t: Target, p: Policy, account: Option<AccountRef>)
    ensures Carries(BuildJobSpec(runId, id, t, p, account), runId, id, t, p, account)
    ensures Additional(BuildJobSpec(runId, id, t, p, account)) == t.additional
  {}

  lemma AcceptedExactly(s: JobSpec, runner: N.RunnerPolicy)
    requires Distinct(N.AllNames(s.fqdn, Additional(s))) && s.acme != "" && s.dns != "" && s.store != ""
    ensures N.Authorizes(runner, RequestOf(s)) <==>
              && N.CountOk(1 + |Additional(s)|, runner.maxNames)
              && N.NameOk(runner, s.fqdn) && N.NamesOk(runner, Additional(s))
              && s.acme in runner.acme && s.dns in runner.dns && s.store in runner.store
  {
    FirstAndOthers(runner, s.fqdn, Additional(s));
  }

  lemma FirstAndOthers(runner: N.RunnerPolicy, fqdn: string, additional: seq<string>)
    ensures N.NamesOk(runner, N.AllNames(fqdn, additional)) <==> N.NameOk(runner, fqdn) && N.NamesOk(runner, additional)
    ensures |N.AllNames(fqdn, additional)| == 1 + |additional|
  {
    var names := N.AllNames(fqdn, additional);
    assert names[0] == fqdn && forall i | 0 <= i < |additional| :: names[i + 1] == additional[i];
  }

  lemma CanonicalNamesAreAllowed(runner: N.RunnerPolicy, names: seq<string>, p: Policy)
    requires runner.policy == N.Policy(p.suffixes, p.allowWildcard)
    requires AllEvaluate(names, p.suffixes, p.allowWildcard) && forall i | 0 <= i < |names| :: Canonical(names[i])
    ensures N.NamesOk(runner, names)
  {
    forall i | 0 <= i < |names| ensures N.NameOk(runner, names[i]) {
      assert Evaluates(names[i], p.suffixes, p.allowWildcard);
      N.FixedPointsAreHostNames(names[i]);
    }
  }

  lemma FittingNamesAreAllowed(runner: N.RunnerPolicy, t: Target, p: Policy)
    requires runner.policy == N.Policy(p.suffixes, p.allowWildcard) && GoodTarget(t) && NamesFit(t, p)
    ensures N.NameOk(runner, t.fqdn) && N.NamesOk(runner, t.additional) && N.CountOk(1 + |t.additional|, p.maxSANs)
  {
    var names := N.AllNames(t.fqdn, t.additional);
    assert names == [t.fqdn] + t.additional;
    CanonicalNamesAreAllowed(runner, names, p);
    FirstAndOthers(runner, t.fqdn, t.additional);
  }

  /** So a Runner set up with the policy's own suffixes and bounds and with the three bindings
      accepts every job of every target in service, whatever account it names. */
  lemma {:induction false} OwnRunnersAccept(
      r: Registry, runId: string, id: string, account: Option<AccountRef>, runner: N.RunnerPolicy)
    requires Good(r) && id in r.targets && !r.targets[id].retired && r.targets[id].policyRef in r.policies
    requires var p := r.policies[r.targets[id].policyRef];
             && runner.policy == N.Policy(p.suffixes, p.allowWildcard) && runner.maxNames == p.maxSANs
             && runner.acme == [p.acme] && runner.dns == [r.targets[id].dns] && runner.store == [r.targets[id].store]
    ensures var t := r.targets[id];
            N.Authorizes(runner, RequestOf(BuildJobSpec(runId, id, t, r.policies[t.policyRef], account)))
  {
    FittingNamesAreAllowed(runner, r.targets[id], r.policies[r.targets[id].policyRef]);
    RunnersOfTheBindingsAccept(r, runId, id, account, runner);
  }

  lemma {:induction false} PolicyWriteKeeps(r: Registry, id: string, p: Policy)
    requires Good(r) && GoodPolicy(p)
    requires forall x | x in r.targets && !r.targets[x].retired && r.targets[x].policyRef == id :: NamesFit(r.targets[x], p)
    ensures Good(r.(policies := r.policies[id := p]))
  {}

  lemma {:induction false} TargetWriteKeeps(r: Registry, id: string, t: Target)
    requires Good(r) && GoodTarget(t) && IsIdentifier(id)
    requires !t.retired ==> t.policyRef in r.policies && NamesFit(t, r.policies[t.policyRef])
    ensures Good(r.(targets := r.targets[id := t]))
  {}

  /** A target with its flag set, at its next revision. */
  function WithFlag(t: Target, enabled: bool): Target {
    t.(enabled := enabled, revision := t.revision + 1)
  }

  function Flagged(r: Registry, id: string, enabled: bool): Registry
    requires id in r.targets
  {
    r.(targets := r.targets[id := WithFlag(r.targets[id], enabled)])
  }

  lemma FlagKeepsFit(t: Target, enabled: bool, p: Policy)
    requires NamesFit(t, p)
    ensures NamesFit(WithFlag(t, enabled), p)
  {}

  lemma FlagKeepsGood(t: Target, enabled: bool)
    requires GoodTarget(t)
    ensures GoodTarget(WithFlag(t, enabled))
  {}

  lemma FlagWriteKeeps(r: Registry, id: string, enabled: bool)
    requires Good(r) && id in r.targets && !r.targets[id].retired
    ensures Good(Flagged(r, id, enabled))
  {
    var t := r.targets[id];
    FlagKeepsFit(t, enabled, r.policies[t.policyRef]);
    FlagKeepsGood(t, enabled);
    TargetWriteKeeps(r, id, WithFlag(t, enabled));
  }

  /** An update of a policy and the creation of a target under it, each acceptable on its
      own, where the target does not fit the updated policy. */
  ghost predicate Overlap(r: Registry, policy: string, updated: Policy, id: string, t: Target) {
    && Good(r) && policy in r.policies && GoodPolicy(updated)
    && (forall x | x in r.targets && !r.targets[x].retired && r.targets[x].policyRef == policy ::
          NamesFit(r.targets[x], updated))
    && IsIdentifier(id) && id !in r.targets
    && GoodTarget(t) && !t.retired && t.policyRef == policy
    && NamesFit(t, r.policies[policy]) && !NamesFit(t, updated)
  }

  /** It takes one request at a time: when a target is created between the check of a policy
      update and its write, the next run of that target can be rejected. */
  lemma {:induction false} OverlappingRequestsCanBreakIt(
      r: Registry, policy: string, updated: Policy, id: string, t: Target, runId: string)
    requires Overlap(r, policy, updated, id, t) && IsIdentifier(runId)
    ensures Good(r.(policies := r.policies[policy := updated]))
    ensures Good(r.(targets := r.targets[id := t]))
    ensures Validate(BuildJobSpec(runId, id, t, updated, None)).Some?
  {
    PolicyWriteKeeps(r, policy, updated);
    TargetWriteKeeps(r, id, t);
    ValidExactlyWhenNamesFit(runId, id, t, updated, None);
  }

  lemma SplitChar(c: char)
    requires c != '.'
    ensures Split([c]) == [[c]]
  {
    assert [c][1..] == "" && Split("") == [""];
    assert [c] + "" == [c];
  }

  lemma ShortName(c: char)
    requires c == 'a' || c == 'c'
    ensures var s := [c] + "." + "b"; Split(s) == [[c], "b"] && Canonical(s) && !N.IsWildcard(s)
  {
    var s := [c] + "." + "b";
    SplitAtDot([c], "b");
    SplitChar(c);
    SplitChar('b');
    assert N.ValidLabel([c]) && N.ValidLabel("b");
    N.FixedPointsAreHostNames(s);
  }

  lemma UnderItself(name: string, suffixes: seq<string>, i: nat)
    requires i < |suffixes| && suffixes[i] == name && !N.IsWildcard(name)
    requires forall j | 0 <= j < |suffixes| :: CanonicalSuffix(suffixes[j])
    ensures Evaluates(name, suffixes, false)
  {
    assert N.EndsWith(N.BaseLabels(name), Split(N.Normalized(suffixes[i]).value));
    assert N.Covered(name, suffixes);
  }

  lemma BothEvaluate(a: string, c: string, suffixes: seq<string>, allowWildcard: bool)
    requires Evaluates(a, suffixes, allowWildcard) && Evaluates(c, suffixes, allowWildcard)
    ensures AllEvaluate([a, c], suffixes, allowWildcard)
  {}

  lemma TwoNamesFit(t: Target, p: Policy, c: string)
    requires t.additional == [c] && t.fqdn != c && AllEvaluate([t.fqdn, c], p.suffixes, p.allowWildcard)
    ensures NamesFit(t, p) <==> p.maxSANs >= 2
  {
    assert N.AllNames(t.fqdn, t.additional) == [t.fqdn, c];
  }

  function OverlapPolicy(maxSANs: int): Policy {
    Policy("", ["a.b", "c.b"], false, "acme", 30, "ec256", maxSANs, true)
  }

  function OverlapTarget(): Target {
    Target("a.b", ["c.b"], "o", "p", "e", "d", "s", true, false, 1)
  }

  lemma OverlapNames()
    ensures CanonicalSuffix("a.b") && CanonicalSuffix("c.b")
  {
    ShortName('a');
    ShortName('c');
    assert ['a'] + "." + "b" == "a.b" && ['c'] + "." + "b" == "c.b";
  }

  lemma OverlapEvaluates()
    ensures AllEvaluate(["a.b", "c.b"], ["a.b", "c.b"], false)
  {
    OverlapNames();
    UnderItself("a.b", ["a.b", "c.b"], 0);
    UnderItself("c.b", ["a.b", "c.b"], 1);
    BothEvaluate("a.b", "c.b", ["a.b", "c.b"], false);
  }

  lemma TwoSuffixesAreGood(x: string, y: string, maxSANs: int)
    requires CanonicalSuffix(x) && CanonicalSuffix(y) && x != y && 1 <= maxSANs <= MAX_NAMES
    ensures GoodPolicy(Policy("", [x, y], false, "acme", 30, "ec256", maxSANs, true))
  {
    assert KEY_TYPES[0] == "ec256";
  }

  lemma TwoNamesAreGood(x: string, y: string)
    requires Canonical(x) && Canonical(y)
    ensures GoodTarget(Target(x, [y], "o", "p", "e", "d", "s", true, false, 1))
  {}

  lemma OverlapIsGood(maxSANs: int)
    requires 1 <= maxSANs <= MAX_NAMES
    ensures GoodPolicy(OverlapPolicy(maxSANs)) && GoodTarget(OverlapTarget())
  {
    OverlapNames();
    assert "a.b"[0] != "c.b"[0];
    TwoSuffixesAreGood("a.b", "c.b", maxSANs);
    TwoNamesAreGood("a.b", "c.b");
  }

  lemma OverlapFits(maxSANs: int)
    ensures NamesFit(OverlapTarget(), OverlapPolicy(maxSANs)) <==> maxSANs >= 2
  {
    OverlapEvaluates();
    assert "a.b"[0] != "c.b"[0];
    TwoNamesFit(OverlapTarget(), OverlapPolicy(maxSANs), "c.b");
  }

  /** Such an overlap exists: a target of two names, and a policy about to allow one. */
  lemma OverlapsExist() returns (r: Registry, updated: Policy, t: Target)
    ensures Overlap(r, "p", updated, "t", t)
  {
    OverlapIsGood(1);
    OverlapIsGood(2);
    OverlapFits(1);
    OverlapFits(2);
    updated, t := OverlapPolicy(1), OverlapTarget();
    r := Registry(map["p" := OverlapPolicy(2)], map[], map[]);
  }

  // ----- the handlers ------------------------------------------------------------------------------------

  datatype PolicyInput = PolicyInput(
    name: Option<string>, suffixes: seq<string>, allowWildcard: bool, acme: string, renewBeforeDays: int, keyType: string,
    maxSANs: Option<int>, enabled: Option<bool>)

  predicate NormalizableName(name: string, suffix: bool) {
    N.Normalized(name).Ok? && (suffix ==> !N.IsWildcard(N.Normalized(name).value))
  }

  predicate Normalizable(names: seq<string>, suffixes: bool) {
    forall i | 0 <= i < |names| :: NormalizableName(names[i], suffixes)
  }

  /** The names in canonical form; a name without one stays as it is. */
  function NormalizedAll(names: seq<string>): seq<string> {
    seq(|names|, i requires 0 <= i < |names| =>
      if N.Normalized(names[i]).Ok? then N.Normalized(names[i]).value else names[i])
  }

  method NormalizeOne(name: string, suffix: bool) returns (out: Option<string>)
    ensures out.Some? <==> NormalizableName(name, suffix)
    ensures out.Some? ==> N.Normalized(name) == N.Ok(out.value)
  {
    var r := N.NormalizeFQDN(name);
    out := if r.Err? || (suffix && N.IsWildcard(r.value)) then None else Some(r.value);
  }

  lemma OneMoreNormalized(names: seq<string>, i: nat, suffixes: bool)
    requires i < |names|
    ensures Normalizable(names[..i + 1], suffixes) <==>
            Normalizable(names[..i], suffixes) && NormalizableName(names[i], suffixes)
    ensures Normalizable(names, suffixes) ==> NormalizableName(names[i], suffixes)
    ensures NormalizableName(names[i], suffixes) ==>
              NormalizedAll(names[..i + 1]) == NormalizedAll(names[..i]) + [N.Normalized(names[i]).value]
  {
    var before, after := names[..i], names[..i + 1];
    assert after == before + [names[i]];
    assert after[i] == names[i] && forall j | 0 <= j < i :: after[j] == before[j];
  }

  /** The names normalized one by one, or nothing when one is not a name. */
  method NormalizeAll(names: seq<string>, suffixes: bool) returns (out: Option<seq<string>>)
    ensures out.Some? <==> Normalizable(names, suffixes)
    ensures out.Some? ==> out.value == NormalizedAll(names)
  {
    var done: seq<string> := [];
    for i := 0 to |names|
      invariant Normalizable(names[..i], suffixes) && done == NormalizedAll(names[..i])
    {
      OneMoreNormalized(names, i, suffixes);
      var r := NormalizeOne(names[i], suffixes);
      if r.None? {
        return None;
      }
      done := done + [r.value];
    }
    assert names[..|names|] == names;
    out := Some(done);
  }

  lemma NormalizedAreCanonical(names: seq<string>, suffixes: bool)
    requires Normalizable(names, suffixes)
    ensures forall n | n in NormalizedAll(names) :: Canonical(n) && (suffixes ==> CanonicalSuffix(n))
  {
    forall n | n in NormalizedAll(names) ensures Canonical(n) && (suffixes ==> CanonicalSuffix(n)) {
      var i :| 0 <= i < |names| && NormalizedAll(names)[i] == n;
      assert NormalizableName(names[i], suffixes);
      N.NormalizationIsIdempotent(names[i]);
    }
  }

  const MAX_POLICY_NAME := 64
  const MAX_OWNER := 128

  predicate IsControl(c: char) {
    c < ' ' || 127 as char <= c < 160 as char
  }

  /** A display name of a policy: short, and free of control characters. */
  predicate PolicyNameOk(name: string) {
    |name| <= MAX_POLICY_NAME && forall i | 0 <= i < |name| :: !IsControl(name[i])
  }

  /** Omitted, the name is empty for a new policy and unchanged otherwise. */
  function NameFrom(input: PolicyInput, current: Option<Policy>): string {
    if input.name.Some? then TrimSpace(input.name.value) else if current.Some? then current.value.name else ""
  }

  function Utf8Length(s: string): nat {
    if s == "" then 0
    else
      var c := s[|s| - 1] as int;
      Utf8Length(s[..|s| - 1]) + if c < 0x80 then 1 else if c < 0x800 then 2 else if c < 0x1_0000 then 3 else 4
  }

  /** The owner of a target, trimmed: not empty, of bounded length, printable throughout. Which
      characters print is a parameter. */
  predicate OwnerOk(owner: string, prints: char -> bool) {
    && TrimSpace(owner) != "" && Utf8Length(TrimSpace(owner)) <= MAX_OWNER
    && forall i | 0 <= i < |TrimSpace(owner)| :: prints(TrimSpace(owner)[i])
  }

  /** When an input describes a policy; current is the one it replaces, if any. */
  predicate PolicyInputOk(input: PolicyInput, current: Option<Policy>, registered: set<string>) {
    && PolicyNameOk(NameFrom(input, current))
    && 1 <= |input.suffixes| <= MAX_ALLOWED_SUFFIXES && Normalizable(input.suffixes, true)
    && Distinct(NormalizedAll(input.suffixes))
    && IsBindingName(input.acme) && input.acme in registered
    && MIN_RENEW_BEFORE_DAYS <= input.renewBeforeDays <= MAX_RENEW_BEFORE_DAYS
    && input.keyType in KEY_TYPES && 1 <= MaxSansFrom(input, current) <= MAX_NAMES
  }

  /** Omitted, the bound is one for a new policy and unchanged otherwise. */
  function MaxSansFrom(input: PolicyInput, current: Option<Policy>): int {
    if input.maxSANs.Some? then input.maxSANs.value else if current.Some? then current.value.maxSANs else 1
  }

  function PolicyFrom(input: PolicyInput, current: Option<Policy>): Policy {
    Policy(NameFrom(input, current), NormalizedAll(input.suffixes), input.allowWildcard, input.acme,
           input.renewBeforeDays, input.keyType, MaxSansFrom(input, current),
           if input.enabled.Some? then input.enabled.value else current.None? || current.value.enabled)
  }

  /** Entry by entry the canonical form. */
  predicate CanonicalForms(names: seq<string>, forms: seq<string>) {
    |forms| == |names| && forall i | 0 <= i < |names| :: N.Normalized(names[i]) == N.Ok(forms[i])
  }

  lemma NormalizedAllIsCanonical(names: seq<string>, suffixes: bool)
    requires Normalizable(names, suffixes)
    ensures CanonicalForms(names, NormalizedAll(names))
  {
    forall i | 0 <= i < |names| ensures N.Normalized(names[i]) == N.Ok(NormalizedAll(names)[i]) {
      assert NormalizableName(names[i], suffixes);
    }
  }

  /** The policy is the one the input asks for, what it leaves out taken from the policy it
      replaces, and from nowhere for a new one: no name, one name at most, in service. */
  predicate Describes(input: PolicyInput, current: Option<Policy>, p: Policy) {
    && CanonicalForms(input.suffixes, p.suffixes) && p.allowWildcard == input.allowWildcard && p.acme == input.acme
    && p.renewBeforeDays == input.renewBeforeDays && p.keyType == input.keyType
    && (input.name.Some? ==> p.name == TrimSpace(input.name.value))
    && (input.maxSANs.Some? ==> p.maxSANs == input.maxSANs.value)
    && (input.enabled.Some? ==> p.enabled == input.enabled.value)
    && (current.Some? ==> && (input.name.None? ==> p.name == current.value.name)
                          && (input.maxSANs.None? ==> p.maxSANs == current.value.maxSANs)
                          && (input.enabled.None? ==> p.enabled == current.value.enabled))
    && (current.None? ==> && (input.name.None? ==> p.name == "") && (input.maxSANs.None? ==> p.maxSANs == 1)
                          && (input.enabled.None? ==> p.enabled))
  }

  lemma AcceptedPoliciesAreGood(input: PolicyInput, current: Option<Policy>, registered: set<string>)
    requires PolicyInputOk(input, current, registered)
    ensures GoodPolicy(PolicyFrom(input, current))
  {
    NormalizedAreCanonical(input.suffixes, true);
    var suffixes := NormalizedAll(input.suffixes);
    assert forall i | 0 <= i < |suffixes| :: suffixes[i] in suffixes;
  }

  method EvaluateOne(name: string, suffixes: seq<string>, allowWildcard: bool) returns (ok: bool)
    ensures ok <==> Evaluates(name, suffixes, allowWildcard)
  {
    var r := N.Evaluate(name, N.Policy(suffixes, allowWildcard));
    ok := r.Ok?;
  }

  lemma OneMoreName(names: seq<string>, i: nat, suffixes: seq<string>, allowWildcard: bool)
    requires i < |names|
    ensures AllEvaluate(names[..i + 1], suffixes, allowWildcard) <==>
            AllEvaluate(names[..i], suffixes, allowWildcard) && Evaluates(names[i], suffixes, allowWildcard)
    ensures AllEvaluate(names, suffixes, allowWildcard) ==> Evaluates(names[i], suffixes, allowWildcard)
  {
    var before, after := names[..i], names[..i + 1];
    assert after == before + [names[i]];
    assert after[i] == names[i] && forall j | 0 <= j < i :: after[j] == before[j];
  }

  method EvaluateAll(names: seq<string>, suffixes: seq<string>, allowWildcard: bool) returns (ok: bool)
    ensures ok <==> AllEvaluate(names, suffixes, allowWildcard)
  {
    for i := 0 to |names|
      invariant AllEvaluate(names[..i], suffixes, allowWildcard)
    {
      ok := EvaluateOne(names[i], suffixes, allowWildcard);
      OneMoreName(names, i, suffixes, allowWildcard);
      if !ok {
        return;
      }
    }
    assert names[..|names|] == names;
    ok := true;
  }

  method CheckNames(t: Target, p: Policy) returns (ok: bool)
    ensures ok <==> NamesFit(t, p)
  {
    var names := N.AllNames(t.fqdn, t.additional);
    ok := EvaluateAll(names, p.suffixes, p.allowWildcard);
    var distinct := N.CheckDistinct(names);
    ok := ok && distinct && N.CountOk(|names|, p.maxSANs);
  }

  /** The account of a binding, or of one of its targets, and a generation of it. */
  function RequestKey(binding: string, target: Option<string>, generation: int): A.Key {
    A.Key(A.Account(binding, if target.Some? then target.value else ""), generation)
  }

  function Created(input: Target): Target {
    var name := N.Normalized(input.fqdn);
    input.(fqdn := if name.Ok? then name.value else input.fqdn, additional := NormalizedAll(input.additional),
           owner := TrimSpace(input.owner), retired := false, revision := 1)
  }

  /** A new target is what was asked for: in service as asked, at its first revision. */
  predicate Takes(t: Target, input: Target) {
    && t.owner == TrimSpace(input.owner) && t.policyRef == input.policyRef && t.execution == input.execution
    && t.dns == input.dns && t.store == input.store && t.enabled == input.enabled && !t.retired && t.revision == 1
  }

  datatype TargetUpdate = TargetUpdate(
    additional: Option<seq<string>>, owner: Option<string>, policyRef: Option<string>, execution: Option<string>,
    dns: Option<string>, store: Option<string>, enabled: Option<bool>, revision: int)

  function Or<T>(x: Option<T>, y: T): T {
    if x.Some? then x.value else y
  }

  function Updated(t: Target, input: TargetUpdate): Target {
    t.(additional := if input.additional.Some? then NormalizedAll(input.additional.value) else t.additional,
       owner := if input.owner.Some? then TrimSpace(input.owner.value) else t.owner,
       policyRef := Or(input.policyRef, t.policyRef), execution := Or(input.execution, t.execution),
       dns := Or(input.dns, t.dns), store := Or(input.store, t.store), enabled := Or(input.enabled, t.enabled),
       revision := t.revision + 1)
  }

  /** Of two values for a field the given one, when there is one. */
  predicate Chosen<T(==)>(given: Option<T>, before: T, after: T) {
    match given case Some(x) => after == x case None => after == before
  }

  /** The update changes the fields it names to what it says, the revision by one, and nothing
      else. */
  predicate Changes(t: Target, input: TargetUpdate, after: Target) {
    && after.fqdn == t.fqdn && after.retired == t.retired && after.revision == t.revision + 1
    && (input.additional.Some? ==> CanonicalForms(input.additional.value, after.additional))
    && (input.additional.None? ==> after.additional == t.additional)
    && (input.owner.Some? ==> after.owner == TrimSpace(input.owner.value)) && (input.owner.None? ==> after.owner == t.owner)
    && Chosen(input.policyRef, t.policyRef, after.policyRef) && Chosen(input.execution, t.execution, after.execution)
    && Chosen(input.dns, t.dns, after.dns) && Chosen(input.store, t.store, after.store)
    && Chosen(input.enabled, t.enabled, after.enabled)
  }

  lemma UpdateChanges(t: Target, input: TargetUpdate)
    requires input.additional.Some? ==> Normalizable(input.additional.value, false)
    ensures Changes(t, input, Updated(t, input))
  {
    if input.additional.Some? {
      NormalizedAllIsCanonical(input.additional.value, false);
    }
  }

  /** An update names at least one field, and what it says of names and owner is well formed. */
  predicate UpdateOk(input: TargetUpdate, prints: char -> bool) {
    && (input.additional.Some? || input.owner.Some? || input.policyRef.Some? || input.execution.Some?
        || input.dns.Some? || input.store.Some? || input.enabled.Some?)
    && (input.additional.Some? ==>
          |input.additional.value| <= MAX_NAMES - 1 && Normalizable(input.additional.value, false))
    && (input.owner.Some? ==> OwnerOk(input.owner.value, prints))
  }

  /** What the bindings say about accounts: those whose authority takes a credential, and those
      that keep one account per target. */
  predicate MayRequest(r: Registry, registered: set<string>, eab: set<string>, targetScoped: set<string>,
                       binding: string, target: Option<string>)
  {
    && IsBindingName(binding) && binding in registered && binding in eab
    && (binding in targetScoped <==> target.Some?)
    && (target.Some? ==>
          && target.value in r.targets && !r.targets[target.value].retired
          && r.targets[target.value].policyRef in r.policies
          && r.policies[r.targets[target.value].policyRef].acme == binding)
  }

  class Api {
    const acmeBindings: set<string>
    const dnsBindings: set<string>
    const storeBindings: set<string>
    const executionBindings: set<string>
    const eabBindings: set<string>
    const targetScoped: set<string>
    const provisioningKeyId: Option<string>   // of the configured provisioning key, if any
    const prints: char -> bool
    var registry: Registry

    constructor (acme: set<string>, dns: set<string>, store: set<string>, execution: set<string>,
                 eab: set<string>, targetScoped: set<string>, keyId: Option<string>, prints: char -> bool)
      ensures registry == Registry(map[], map[], map[]) && Good(registry)
    {
      acmeBindings, dnsBindings, storeBindings, executionBindings := acme, dns, store, execution;
      eabBindings, this.targetScoped, provisioningKeyId, this.prints := eab, targetScoped, keyId, prints;
      registry := Registry(map[], map[], map[]);
    }

    /** Accepts exactly the inputs that describe a policy. */
    method ApplyPolicyInput(input: PolicyInput, current: Option<Policy>) returns (r: Option<Policy>)
      ensures r.Some? <==> PolicyInputOk(input, current, acmeBindings)
      ensures r.Some? ==> r.value == PolicyFrom(input, current) && GoodPolicy(r.value)
      ensures r.Some? ==> Describes(input, current, r.value)
    {
      var name := "";
      if input.name.Some? {
        name := TrimSpace(input.name.value);
      } else if current.Some? {
        name := current.value.name;
      }
      if !PolicyNameOk(name) {
        return None;
      }
      if |input.suffixes| == 0 || |input.suffixes| > MAX_ALLOWED_SUFFIXES {
        return None;
      }
      var suffixes := NormalizeAll(input.suffixes, true);
      if suffixes.None? {
        return None;
      }
      var distinct := N.CheckDistinct(suffixes.value);
      if !distinct || !IsBindingName(input.acme) || input.acme !in acmeBindings {
        return None;
      }
      if input.renewBeforeDays < MIN_RENEW_BEFORE_DAYS || input.renewBeforeDays > MAX_RENEW_BEFORE_DAYS {
        return None;
      }
      if input.keyType !in KEY_TYPES {
        return None;
      }
      var maxSANs := 1;
      if input.maxSANs.Some? {
        maxSANs := input.maxSANs.value;
      } else if current.Some? {
        maxSANs := current.value.maxSANs;
      }
      if maxSANs < 1 || maxSANs > MAX_NAMES {
        return None;
      }
      var enabled := if input.enabled.Some? then input.enabled.value else current.None? || current.value.enabled;
      r := Some(Policy(name, suffixes.value, input.allowWildcard, input.acme, input.renewBeforeDays, input.keyType,
                       maxSANs, enabled));
      NormalizedAllIsCanonical(input.suffixes, true);
      AcceptedPoliciesAreGood(input, current, acmeBindings);
    }

    /** The registry may refuse a name that is taken. */
    method CreatePolicy(id: string, input: PolicyInput, refused: bool) returns (ok: bool)
      requires Good(registry) && id !in registry.policies
      modifies this
      ensures Good(registry)
      ensures ok <==> !refused && PolicyInputOk(input, None, acmeBindings)
      ensures registry == if ok then old(registry).(policies := old(registry).policies[id := PolicyFrom(input, None)])
                          else old(registry)
    {
      var p := ApplyPolicyInput(input, None);
      ok := p.Some? && !refused;
      if ok {
        PolicyWriteKeeps(registry, id, p.value);
        registry := registry.(policies := registry.policies[id := p.value]);
      }
    }

    /** Whether every target in service under the policy would still satisfy p. */
    method CoversTargets(id: string, p: Policy) returns (ok: bool)
      ensures ok <==> forall x | x in registry.targets && !registry.targets[x].retired && registry.targets[x].policyRef == id ::
                        NamesFit(registry.targets[x], p)
    {
      var under := set x | x in registry.targets && !registry.targets[x].retired && registry.targets[x].policyRef == id;
      var left := under;
      ok := true;
      while left != {}
        invariant left <= under
        invariant ok <==> forall x | x in under && x !in left :: NamesFit(registry.targets[x], p)
        decreases |left|
      {
        var x :| x in left;
        var fits := CheckNames(registry.targets[x], p);
        ok := ok && fits;
        left := left - {x};
      }
      assert forall x :: x in under <==>
          x in registry.targets && !registry.targets[x].retired && registry.targets[x].policyRef == id;
    }

    /** Replaces a policy unless a target under it would no longer satisfy it. */
    method UpdatePolicy(id: string, input: PolicyInput, refused: bool) returns (ok: bool)
      requires Good(registry)
      modifies this
      ensures Good(registry)
      ensures ok <==>
                && !refused && id in old(registry).policies
                && var current := Some(old(registry).policies[id]);
                && PolicyInputOk(input, current, acmeBindings)
                && forall x | x in old(registry).targets && !old(registry).targets[x].retired
                              && old(registry).targets[x].policyRef == id ::
                     NamesFit(old(registry).targets[x], PolicyFrom(input, current))
      ensures ok ==> registry == old(registry).(policies :=
                       old(registry).policies[id := PolicyFrom(input, Some(old(registry).policies[id]))])
      ensures !ok ==> registry == old(registry)
    {
      if id !in registry.policies {
        return false;
      }
      var p := ApplyPolicyInput(input, Some(registry.policies[id]));
      if p.None? {
        return false;
      }
      ok := CoversTargets(id, p.value);
      ok := ok && !refused;
      if ok {
        PolicyWriteKeeps(registry, id, p.value);
        registry := registry.(policies := registry.policies[id := p.value]);
      }
    }

    /** Registered bindings, and a policy that exists and permits the names. */
    predicate Acceptable(t: Target, policies: map<string, Policy>) {
      && IsBindingName(t.execution) && t.execution in executionBindings
      && IsBindingName(t.dns) && t.dns in dnsBindings && IsBindingName(t.store) && t.store in storeBindings
      && IsIdentifier(t.policyRef) && t.policyRef in policies && NamesFit(t, policies[t.policyRef])
    }

    /** The checks a target passes before it is written. */
    method CheckTarget(t: Target) returns (ok: bool)
      ensures ok <==> Acceptable(t, registry.policies)
    {
      if !IsBindingName(t.execution) || t.execution !in executionBindings
         || !IsBindingName(t.dns) || t.dns !in dnsBindings || !IsBindingName(t.store) || t.store !in storeBindings {
        return false;
      }
      if !IsIdentifier(t.policyRef) || t.policyRef !in registry.policies {
        return false;
      }
      ok := CheckNames(t, registry.policies[t.policyRef]);
    }

    lemma AcceptableIsGood(t: Target, policies: map<string, Policy>)
      requires Acceptable(t, policies) && Canonical(t.fqdn) && |t.additional| <= MAX_NAMES - 1 && t.revision >= 1
      requires forall n | n in t.additional :: Canonical(n)
      ensures GoodTarget(t)
    {}

    method ValidateOwner(owner: string) returns (out: Option<string>)
      ensures out == if OwnerOk(owner, prints) then Some(TrimSpace(owner)) else None
    {
      var trimmed := TrimSpace(owner);
      if trimmed == "" || Utf8Length(trimmed) > MAX_OWNER {
        return None;
      }
      for i := 0 to |trimmed|
        invariant forall j | 0 <= j < i :: prints(trimmed[j])
      {
        if !prints(trimmed[i]) {
          return None;
        }
      }
      out := Some(trimmed);
    }

    /** Creates a target under a new id, unless the registry refuses its names. */
    method CreateTarget(id: string, input: Target, refused: bool) returns (ok: bool)
      requires Good(registry) && IsIdentifier(id) && id !in registry.targets
      modifies this
      ensures Good(registry)
      ensures ok <==>
                && !refused && NormalizableName(input.fqdn, false) && |input.additional| <= MAX_NAMES - 1
                && Normalizable(input.additional, false) && OwnerOk(input.owner, prints)
                && Acceptable(Created(input), old(registry).policies)
      ensures registry == if ok then old(registry).(targets := old(registry).targets[id := Created(input)]) else old(registry)
      ensures ok ==> && id in registry.targets
                     && N.Normalized(input.fqdn) == N.Ok(registry.targets[id].fqdn)
                     && CanonicalForms(input.additional, registry.targets[id].additional)
                     && Takes(registry.targets[id], input)
    {
      var name := NormalizeOne(input.fqdn, false);
      if name.None? || |input.additional| > MAX_NAMES - 1 {
        return false;
      }
      var names := NormalizeAll(input.additional, false);
      if names.None? {
        return false;
      }
      var owner := ValidateOwner(input.owner);
      if owner.None? {
        return false;
      }
      N.NormalizationIsIdempotent(input.fqdn);
      NormalizedAreCanonical(input.additional, false);
      NormalizedAllIsCanonical(input.additional, false);
      var created := input.(fqdn := name.value, additional := names.value, owner := owner.value, retired := false, revision := 1);
      ok := CheckTarget(created);
      ok := ok && !refused;
      if ok {
        AcceptableIsGood(created, registry.policies);
        TargetWriteKeeps(registry, id, created);
        registry := registry.(targets := registry.targets[id := created]);
      }
    }

    /** The additional names after an update. */
    method ApplyNames(t: Target, input: TargetUpdate) returns (out: Option<seq<string>>)
      requires |t.additional| <= MAX_NAMES - 1 && forall n | n in t.additional :: Canonical(n)
      ensures out.Some? <==> (input.additional.Some? ==>
                |input.additional.value| <= MAX_NAMES - 1 && Normalizable(input.additional.value, false))
      ensures out.Some? ==>
                && out.value == (if input.additional.Some? then NormalizedAll(input.additional.value) else t.additional)
                && |out.value| <= MAX_NAMES - 1 && forall n | n in out.value :: Canonical(n)
    {
      if input.additional.None? {
        return Some(t.additional);
      }
      if |input.additional.value| > MAX_NAMES - 1 {
        return None;
      }
      out := NormalizeAll(input.additional.value, false);
      if out.Some? {
        NormalizedAreCanonical(input.additional.value, false);
      }
    }

    /** Changes the fields an update names; the FQDN never changes. */
    method ApplyUpdate(t: Target, input: TargetUpdate) returns (out: Option<Target>)
      requires |t.additional| <= MAX_NAMES - 1 && forall n | n in t.additional :: Canonical(n)
      ensures out.Some? <==> UpdateOk(input, prints)
      ensures out.Some? ==> out.value == Updated(t, input)
      ensures out.Some? ==> |out.value.additional| <= MAX_NAMES - 1 && forall n | n in out.value.additional :: Canonical(n)
    {
      var additional := ApplyNames(t, input);
      if additional.None? {
        return None;
      }
      var owner := t.owner;
      if input.owner.Some? {
        var validated := ValidateOwner(input.owner.value);
        if validated.None? {
          return None;
        }
        owner := validated.value;
      }
      var changed := input.additional.Some? || input.owner.Some? || input.policyRef.Some? || input.execution.Some?
                     || input.dns.Some? || input.store.Some? || input.enabled.Some?;
      if !changed {
        return None;
      }
      out := Some(t.(additional := additional.value, owner := owner,
                     policyRef := if input.policyRef.Some? then input.policyRef.value else t.policyRef,
                     execution := if input.execution.Some? then input.execution.value else t.execution,
                     dns := if input.dns.Some? then input.dns.value else t.dns,
                     store := if input.store.Some? then input.store.value else t.store,
                     enabled := if input.enabled.Some? then input.enabled.value else t.enabled,
                     revision := t.revision + 1));
    }

    method UpdateTarget(id: string, input: TargetUpdate, refused: bool) returns (ok: bool)
      requires Good(registry)
      modifies this
      ensures Good(registry)
      ensures ok <==>
                && !refused && id in old(registry).targets && !old(registry).targets[id].retired
                && old(registry).targets[id].revision == input.revision && UpdateOk(input, prints)
                && Acceptable(Updated(old(registry).targets[id], input), old(registry).policies)
      ensures ok ==> registry == old(registry).(targets :=
                       old(registry).targets[id := Updated(old(registry).targets[id], input)])
      ensures ok ==> id in registry.targets && Changes(old(registry).targets[id], input, registry.targets[id])
      ensures !ok ==> registry == old(registry)
    {
      if id !in registry.targets || registry.targets[id].retired || registry.targets[id].revision != input.revision {
        return false;
      }
      var t := registry.targets[id];
      var updated := ApplyUpdate(t, input);
      if updated.None? {
        return false;
      }
      ok := CheckTarget(updated.value);
      ok := ok && !refused;
      if ok {
        UpdateChanges(t, input);
        AcceptableIsGood(updated.value, registry.policies);
        TargetWriteKeeps(registry, id, updated.value);
        registry := registry.(targets := registry.targets[id := updated.value]);
      }
    }

    /** Enabling and disabling write the flag without a look at the policy, and only when it
        changes; a target keeps fitting its policy. */
    method SetTargetEnabled(id: string, enabled: bool, refused: bool) returns (ok: bool)
      requires Good(registry)
      modifies this
      ensures Good(registry)
      ensures ok <==>
                && id in old(registry).targets && !old(registry).targets[id].retired
                && (refused ==> old(registry).targets[id].enabled == enabled)
      ensures registry == if ok && old(registry).targets[id].enabled != enabled then Flagged(old(registry), id, enabled)
                          else old(registry)
      ensures ok ==> && id in registry.targets
                     && registry.targets[id] ==
                          if old(registry).targets[id].enabled == enabled then old(registry).targets[id]
                          else old(registry).targets[id].(enabled := enabled, revision := old(registry).targets[id].revision + 1)
    {
      if id !in registry.targets || registry.targets[id].retired {
        return false;
      }
      if registry.targets[id].enabled == enabled {
        return true;
      }
      if refused {
        return false;
      }
      ok := true;
      SetFlag(id, enabled);
    }

    method SetFlag(id: string, enabled: bool)
      requires Good(registry) && id in registry.targets && !registry.targets[id].retired
      modifies this
      ensures Good(registry) && registry == Flagged(old(registry), id, enabled) && id in registry.targets
      ensures registry.targets[id] ==
                old(registry).targets[id].(enabled := enabled, revision := old(registry).targets[id].revision + 1)
    {
      FlagWriteKeeps(registry, id, enabled);
      registry := Flagged(registry, id, enabled);
    }

    method RetireTarget(id: string, refused: bool) returns (ok: bool)
      requires Good(registry)
      modifies this
      ensures Good(registry)
      ensures ok <==> !refused && id in old(registry).targets && !old(registry).targets[id].retired && !old(registry).targets[id].enabled
      ensures ok ==> var t := old(registry).targets[id];
                registry == old(registry).(targets := old(registry).targets[id := t.(retired := true, revision := t.revision + 1)])
      ensures !ok ==> registry == old(registry)
    {
      if id !in registry.targets || registry.targets[id].retired || registry.targets[id].enabled || refused {
        return false;
      }
      var t := registry.targets[id].(retired := true, revision := registry.targets[id].revision + 1);
      TargetWriteKeeps(registry, id, t);
      registry := registry.(targets := registry.targets[id := t]);
      ok := true;
    }

    /** Records a request for an account the binding keeps, with a generation in range and a
        payload of the form and version of its scope, sealed to the configured key; the registry
        may refuse the number. */
    method RequestProvisioning(binding: string, target: Option<string>, generation: int, payload: P.Sealed, refused: bool)
      returns (ok: bool)
      requires Good(registry)
      modifies this
      ensures Good(registry)
      ensures ok <==>
                && !refused && provisioningKeyId == Some(payload.keyId)
                && MayRequest(old(registry), acmeBindings, eabBindings, targetScoped, binding, target)
                && GoodRequest(RequestKey(binding, target, generation), payload)
                && RequestKey(binding, target, generation) !in old(registry).requests
      ensures registry == if ok then
                            old(registry).(requests := old(registry).requests[RequestKey(binding, target, generation) := payload])
                          else old(registry)
      ensures RequestKey(binding, target, generation).account.binding == binding
      ensures RequestKey(binding, target, generation).account.scope == match target case Some(t) => t case None => ""
      ensures RequestKey(binding, target, generation).generation == generation
    {
      if provisioningKeyId.None? || !IsBindingName(binding) || binding !in acmeBindings {
        return false;
      }
      if target.None? {
        if binding in targetScoped {
          return false;
        }
      } else {
        if binding !in targetScoped || target.value !in registry.targets {
          return false;
        }
        var t := registry.targets[target.value];
        if t.policyRef !in registry.policies || registry.policies[t.policyRef].acme != binding || t.retired {
          return false;
        }
      }
      if binding !in eabBindings {
        return false;
      }
      ok := Record(binding, target, generation, payload, refused);
    }

    /** The part of a request that looks at the request itself. */
    method Record(binding: string, target: Option<string>, generation: int, payload: P.Sealed, refused: bool)
      returns (ok: bool)
      requires Good(registry) && provisioningKeyId.Some?
      requires target.Some? ==> IsIdentifier(target.value)
      modifies this
      ensures Good(registry)
      ensures ok <==>
                && !refused && provisioningKeyId == Some(payload.keyId)
                && GoodRequest(RequestKey(binding, target, generation), payload)
                && RequestKey(binding, target, generation) !in old(registry).requests
      ensures registry == if ok then
                            old(registry).(requests := old(registry).requests[RequestKey(binding, target, generation) := payload])
                          else old(registry)
    {
      if !IsGeneration(generation) || !P.SealedOk(payload) {
        return false;
      }
      var scope := if target.Some? then target.value else "";
      var want := if target.Some? then P.VERSION_SCOPED else P.VERSION;
      if payload.version != want || payload.keyId != provisioningKeyId.value {
        return false;
      }
      var k := A.Key(A.Account(binding, scope), generation);
      if k in registry.requests || refused {
        return false;
      }
      registry := registry.(requests := registry.requests[k := payload]);
      ok := true;
    }
  }
}
