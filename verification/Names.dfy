/** Host names and the policies over them: canonical form, suffixes on label boundaries,
    and the Runner's authorization of a request. */
module Names {
  import opened Basics
  import opened Text
  import Decimal

  const MAX_FQDN := 253
  const MAX_LABEL := 63
  const WILDCARD := "*"

  datatype Problem =
    | Empty | NonAscii | TooLong | TooFewLabels | IdnaLabel | InvalidLabel | InvalidWildcard | NumericTld
    | WildcardInSuffix | NoSuffixes | WildcardNotAllowed | SuffixNotAllowed
    | TooManyNames | NotNormalized | DuplicateName | BindingNotAllowed

  datatype Result<T> = Ok(value: T) | Err(problem: Problem)

  // ----- host names ---------------------------------------------------------------------------

  predicate LabelChar(c: char) {
    'a' <= c <= 'z' || '0' <= c <= '9' || c == '-'
  }

  predicate ValidLabel(part: string) {
    && 1 <= |part| <= MAX_LABEL && !("xn--" <= part) && part[0] != '-' && part[|part| - 1] != '-'
    && forall i | 0 <= i < |part| :: LabelChar(part[i])
  }

  predicate AllDigits(s: string) {
    s != "" && Decimal.AllDigits(s)
  }

  /** The host names in canonical form: at most 253 octets in at least two labels of 1 to 63
      lower-case letters, digits and inner hyphens, the last not a number, where a whole
      first part may be the wildcard above at least two others. */
  predicate HostName(s: string) {
    var labels := Split(s);
    && |s| <= MAX_FQDN && |labels| >= 2
    && (forall i | 0 <= i < |labels| :: ValidLabel(labels[i]) || (i == 0 && labels[i] == WILDCARD))
    && (labels[0] == WILDCARD ==> |labels| >= 3)
    && !AllDigits(labels[|labels| - 1])
  }

  predicate Ascii(s: string) {
    forall i | 0 <= i < |s| :: s[i] < 128 as char
  }

  function StripDot(s: string): string {
    if s != "" && s[|s| - 1] == '.' then s[..|s| - 1] else s
  }

  function LabelProblem(part: string): Option<Problem> {
    if part == "" || |part| > MAX_LABEL then Some(InvalidLabel)
    else if "xn--" <= part then Some(IdnaLabel)
    else if part[0] == '-' || part[|part| - 1] == '-' then Some(InvalidLabel)
    else if exists i :: 0 <= i < |part| && !LabelChar(part[i]) then Some(InvalidLabel)
    else None
  }

  /** What the loop over the labels finds first, from label i on. */
  function FirstBad(labels: seq<string>, i: nat): Option<Problem>
    decreases |labels| - i
  {
    if i >= |labels| then None
    else if labels[i] == WILDCARD then (if i != 0 then Some(InvalidWildcard) else FirstBad(labels, i + 1))
    else if '*' in labels[i] then Some(InvalidWildcard)
    else if LabelProblem(labels[i]).Some? then LabelProblem(labels[i])
    else FirstBad(labels, i + 1)
  }

  function Checked(s: string): Result<string> {
    var labels := Split(s);
    if s == "" then Err(Empty)
    else if |s| > MAX_FQDN then Err(TooLong)
    else if |labels| < 2 then Err(TooFewLabels)
    else if FirstBad(labels, 0).Some? then Err(FirstBad(labels, 0).value)
    else if labels[0] == WILDCARD && |labels| < 3 then Err(InvalidWildcard)
    else if AllDigits(labels[|labels| - 1]) then Err(NumericTld)
    else Ok(s)
  }

  function Canon(input: string): string {
    StripDot(ToLower(TrimSpace(input)))
  }

  function Normalized(input: string): Result<string> {
    if TrimSpace(input) == "" then Err(Empty)
    else if !Ascii(TrimSpace(input)) then Err(NonAscii)
    else Checked(Canon(input))
  }

  method ValidateLabel(part: string) returns (problem: Option<Problem>)
    ensures problem == LabelProblem(part)
  {
    if part == "" || |part| > MAX_LABEL {
      return Some(InvalidLabel);
    }
    if "xn--" <= part {
      return Some(IdnaLabel);
    }
    if part[0] == '-' || part[|part| - 1] == '-' {
      return Some(InvalidLabel);
    }
    for i := 0 to |part|
      invariant forall j | 0 <= j < i :: LabelChar(part[j])
    {
      if !LabelChar(part[i]) {
        return Some(InvalidLabel);
      }
    }
    problem := None;
  }

  method NormalizeFQDN(input: string) returns (r: Result<string>)
    ensures r == Normalized(input)
  {
    var s := TrimSpace(input);
    if s == "" {
      return Err(Empty);
    }
    for i := 0 to |s|
      invariant Ascii(s[..i])
    {
      if s[i] >= 128 as char {
        return Err(NonAscii);
      }
      assert s[..i + 1] == s[..i] + [s[i]];
    }
    assert s[..|s|] == s;
    s := ToLower(s);
    if s[|s| - 1] == '.' {
      s := s[..|s| - 1];
    }
    if s == "" {
      return Err(Empty);
    }
    if |s| > MAX_FQDN {
      return Err(TooLong);
    }
    var labels := Split(s);
    if |labels| < 2 {
      return Err(TooFewLabels);
    }
    for i := 0 to |labels|
      invariant FirstBad(labels, 0) == FirstBad(labels, i)
    {
      if labels[i] == WILDCARD {
        if i != 0 {
          return Err(InvalidWildcard);
        }
        continue;
      }
      if '*' in labels[i] {
        return Err(InvalidWildcard);
      }
      var problem := ValidateLabel(labels[i]);
      if problem.Some? {
        return Err(problem.value);
      }
    }
    if labels[0] == WILDCARD && |labels| < 3 {
      return Err(InvalidWildcard);
    }
    if AllDigits(labels[|labels| - 1]) {
      return Err(NumericTld);
    }
    r := Ok(s);
  }

  lemma LabelProblemIsInvalidity(part: string)
    ensures LabelProblem(part).None? <==> ValidLabel(part)
    ensures ValidLabel(part) ==> '*' !in part
  {}

  lemma {:induction false} NoBadLabel(labels: seq<string>, i: nat)
    requires i <= |labels|
    ensures FirstBad(labels, i).None? <==>
            forall j | i <= j < |labels| :: ValidLabel(labels[j]) || (j == 0 && labels[j] == WILDCARD)
    decreases |labels| - i
  {
    if i < |labels| {
      NoBadLabel(labels, i + 1);
      LabelProblemIsInvalidity(labels[i]);
    }
  }

  /** Normalization accepts exactly the inputs whose trimmed, lower-cased form without one
      trailing dot is a canonical host name, and answers with that form. */
  lemma NormalizedExactly(input: string)
    ensures Normalized(input).Ok? <==> Ascii(TrimSpace(input)) && HostName(Canon(input))
    ensures Normalized(input).Ok? ==> Normalized(input).value == Canon(input)
  {
    NoBadLabel(Split(Canon(input)), 0);
  }

  predicate HostChar(c: char) {
    LabelChar(c) || c == '*' || c == '.'
  }

  /** A label that is wrong otherwise than by an internationalized prefix. */
  predicate BadLabel(part: string) {
    !ValidLabel(part) && part != WILDCARD && (|part| > MAX_LABEL || !("xn--" <= part))
  }

  /** What the loop over the labels complains about is there. */
  lemma {:induction false} FirstBadIsReal(labels: seq<string>, i: nat)
    ensures FirstBad(labels, i) == Some(InvalidWildcard) ==> exists j :: i <= j < |labels| && '*' in labels[j]
    ensures FirstBad(labels, i) == Some(IdnaLabel) ==> exists j :: i <= j < |labels| && "xn--" <= labels[j]
    ensures FirstBad(labels, i) == Some(InvalidLabel) ==> exists j :: i <= j < |labels| && BadLabel(labels[j])
    ensures FirstBad(labels, i).Some? ==> FirstBad(labels, i).value in {InvalidWildcard, IdnaLabel, InvalidLabel}
    decreases |labels| - i
  {
    if i < |labels| {
      assert WILDCARD[0] == '*';
      LabelProblemIsInvalidity(labels[i]);
      FirstBadIsReal(labels, i + 1);
    }
  }

  /** A refused name has the problem it is refused for. */
  lemma {:induction false} ProblemsAreReal(input: string)
    ensures var r, s := Normalized(input), Canon(input);
            var labels := Split(s);
            r.Err? ==> match r.problem
              case Empty => TrimSpace(input) == "" || s == ""
              case NonAscii => !Ascii(TrimSpace(input))
              case TooLong => |s| > MAX_FQDN
              case TooFewLabels => |labels| < 2
              case IdnaLabel => exists i :: 0 <= i < |labels| && "xn--" <= labels[i]
              case InvalidLabel => exists i :: 0 <= i < |labels| && BadLabel(labels[i])
              case InvalidWildcard => exists i :: 0 <= i < |labels| && '*' in labels[i]
              case NumericTld => AllDigits(labels[|labels| - 1])
              case _ => false
  {
    var labels := Split(Canon(input));
    FirstBadIsReal(labels, 0);
    assert WILDCARD[0] == '*';
  }

  lemma TrailingDotLeavesAnEmptyLabel(s: string)
    requires s != "" && s[|s| - 1] == '.'
    ensures Split(s)[|Split(s)| - 1] == ""
  {}

  lemma {:induction false} HostNamesAreMadeOfHostChars(s: string)
    requires HostName(s)
    ensures s != "" && s[|s| - 1] != '.' && forall k | 0 <= k < |s| :: HostChar(s[k])
  {
    CharsOfParts(s, c => HostChar(c));
    if s[|s| - 1] == '.' {
      TrailingDotLeavesAnEmptyLabel(s);
    }
  }

  lemma {:induction false} HostCharsNeedNothing(s: string)
    requires s != "" && s[|s| - 1] != '.' && forall k | 0 <= k < |s| :: HostChar(s[k])
    ensures TrimSpace(s) == s && Ascii(s) && ToLower(s) == s && Canon(s) == s
  {}

  /** Canonical names are exactly the fixed points of normalization. */
  lemma FixedPointsAreHostNames(s: string)
    ensures Normalized(s) == Ok(s) <==> HostName(s)
  {
    NormalizedExactly(s);
    if HostName(s) {
      HostNamesAreMadeOfHostChars(s);
      HostCharsNeedNothing(s);
    }
  }

  /** Normalizing twice is normalizing once, and the result meets the limits of section
      2.3.4 of RFC 1035. */
  lemma NormalizationIsIdempotent(input: string)
    requires Normalized(input).Ok?
    ensures var s := Normalized(input).value;
            && Normalized(s) == Ok(s) && 1 <= |s| <= MAX_FQDN
            && forall i | 0 <= i < |Split(s)| :: 1 <= |Split(s)[i]| <= MAX_LABEL
  {
    NormalizedExactly(input);
    FixedPointsAreHostNames(Normalized(input).value);
    HostNamesAreMadeOfHostChars(Normalized(input).value);
  }

  // ----- suffixes ----------------------------------------------------------------------------------

  predicate IsWildcard(fqdn: string) {
    "*." <= fqdn
  }

  predicate HasSuffix(s: string, suffix: string) {
    |suffix| <= |s| && s[|s| - |suffix|..] == suffix
  }

  function Base(fqdn: string): string {
    if IsWildcard(fqdn) then fqdn[2..] else fqdn
  }

  predicate MatchesSuffix(fqdn: string, suffix: string) {
    if fqdn == "" || suffix == "" then false
    else if Base(fqdn) == suffix then true
    else if |Base(fqdn)| <= |suffix| then false
    else HasSuffix(Base(fqdn), "." + suffix)
  }

  /** The labels of a name, without a leading wildcard. */
  function BaseLabels(fqdn: string): seq<string> {
    if IsWildcard(fqdn) then Split(fqdn)[1..] else Split(fqdn)
  }

  predicate EndsWith(labels: seq<string>, end: seq<string>) {
    |end| <= |labels| && labels[|labels| - |end|..] == end
  }

  lemma BaseLabelsAreLabelsOfTheBase(fqdn: string)
    ensures BaseLabels(fqdn) == Split(Base(fqdn))
  {
    if IsWildcard(fqdn) {
      assert fqdn == WILDCARD + "." + fqdn[2..];
      SplitAtDot(WILDCARD, fqdn[2..]);
      assert WILDCARD[1..] == "" && Split("") == [""];
      assert Split(WILDCARD) == [['*'] + ""];
    }
  }

  lemma {:induction false} EndingInSuffixEndsInLabels(base: string, suffix: string)
    requires HasSuffix(base, "." + suffix)
    ensures EndsWith(Split(base), Split(suffix))
  {
    var head := base[..|base| - |suffix| - 1];
    assert base == head + "." + suffix;
    SplitAtDot(head, suffix);
    assert Split(base) == Split(head) + Split(suffix);
  }

  lemma ConcatHasSuffix(x: string, y: string)
    ensures HasSuffix(x + "." + y, "." + y)
  {}

  lemma JoinedEndsInJoinedEnd(head: seq<string>, end: seq<string>)
    requires |head| >= 1 && |end| >= 1
    ensures HasSuffix(Join(head + end), "." + Join(end))
  {
    JoinConcat(head, end);
    ConcatHasSuffix(Join(head), Join(end));
  }

  lemma JoinedLabelsEndInSuffix(labels: seq<string>, end: seq<string>)
    requires |end| >= 1 && EndsWith(labels, end)
    ensures labels == end || HasSuffix(Join(labels), "." + Join(end))
  {
    var head := labels[..|labels| - |end|];
    assert labels == head + end;
    if head == [] {
      assert labels == end;
    } else {
      JoinedEndsInJoinedEnd(head, end);
    }
  }

  lemma {:induction false} EndingInLabelsEndsInSuffix(base: string, suffix: string)
    requires EndsWith(Split(base), Split(suffix))
    ensures base == suffix || HasSuffix(base, "." + suffix)
  {
    JoinUndoesSplit(base);
    JoinUndoesSplit(suffix);
    JoinedLabelsEndInSuffix(Split(base), Split(suffix));
  }

  /** A name matches a suffix exactly when the suffix's labels are the last of its own. */
  lemma {:induction false} SuffixesAreWholeLabels(fqdn: string, suffix: string)
    requires fqdn != "" && suffix != ""
    ensures MatchesSuffix(fqdn, suffix) <==> EndsWith(BaseLabels(fqdn), Split(suffix))
  {
    BaseLabelsAreLabelsOfTheBase(fqdn);
    var base := Base(fqdn);
    if MatchesSuffix(fqdn, suffix) {
      if base != suffix {
        EndingInSuffixEndsInLabels(base, suffix);
      }
    } else if EndsWith(Split(base), Split(suffix)) {
      EndingInLabelsEndsInSuffix(base, suffix);
    }
  }

  /** Being under a suffix is transitive. */
  lemma {:induction false} SuffixesAreTransitive(fqdn: string, middle: string, suffix: string)
    requires MatchesSuffix(fqdn, middle) && MatchesSuffix(middle, suffix) && !IsWildcard(middle)
    ensures MatchesSuffix(fqdn, suffix)
  {}

  // ----- policies ------------------------------------------------------------------------------------

  datatype Policy = Policy(suffixes: seq<string>, allowWildcard: bool)

  predicate SuffixOk(s: string) {
    Normalized(s).Ok? && !IsWildcard(Normalized(s).value)
  }

  predicate PolicyOk(p: Policy) {
    p.suffixes != [] && forall i | 0 <= i < |p.suffixes| :: SuffixOk(p.suffixes[i])
  }

  /** The name is under one of the suffixes, label by label. */
  predicate Covered(name: string, suffixes: seq<string>) {
    exists i :: 0 <= i < |suffixes| && Normalized(suffixes[i]).Ok?
                && EndsWith(BaseLabels(name), Split(Normalized(suffixes[i]).value))
  }

  predicate Permits(p: Policy, name: string) {
    PolicyOk(p) && (IsWildcard(name) ==> p.allowWildcard) && Covered(name, p.suffixes)
  }

  method NormalizeSuffix(input: string) returns (r: Result<string>)
    ensures r.Ok? <==> SuffixOk(input)
    ensures r.Ok? ==> r == Normalized(input)
    ensures r.Err? ==> if Normalized(input).Ok? then r.problem == WildcardInSuffix else r == Normalized(input)
  {
    r := NormalizeFQDN(input);
    if r.Ok? && IsWildcard(r.value) {
      r := Err(WildcardInSuffix);
    }
  }

  method NormalizePolicy(p: Policy) returns (r: Result<Policy>)
    ensures r.Ok? <==> PolicyOk(p)
    ensures r.Ok? ==>
              && r.value.allowWildcard == p.allowWildcard && |r.value.suffixes| == |p.suffixes|
              && forall i | 0 <= i < |p.suffixes| :: Ok(r.value.suffixes[i]) == Normalized(p.suffixes[i])
    ensures r == Err(NoSuffixes) ==> p.suffixes == []
    ensures r.Err? && p.suffixes == [] ==> r.problem == NoSuffixes
  {
    if p.suffixes == [] {
      return Err(NoSuffixes);
    }
    var out: seq<string> := [];
    for i := 0 to |p.suffixes|
      invariant |out| == i
      invariant forall j | 0 <= j < i :: SuffixOk(p.suffixes[j]) && Ok(out[j]) == Normalized(p.suffixes[j])
    {
      var n := NormalizeSuffix(p.suffixes[i]);
      if n.Err? {
        SuffixProblems(p.suffixes[i]);
        return Err(n.problem);
      }
      out := out + [n.value];
    }
    r := Ok(Policy(out, p.allowWildcard));
  }

  lemma SuffixProblems(s: string)
    ensures Normalized(s) != Err(NoSuffixes)
  {
    NoSuffixesIsNoLabelProblem(Split(Canon(s)), 0);
  }

  lemma {:induction false} NoSuffixesIsNoLabelProblem(labels: seq<string>, i: nat)
    ensures FirstBad(labels, i) != Some(NoSuffixes)
    decreases |labels| - i
  {
    if i < |labels| {
      NoSuffixesIsNoLabelProblem(labels, i + 1);
    }
  }

  lemma NormalizedIsNotEmpty(input: string)
    requires Normalized(input).Ok?
    ensures Normalized(input).value != ""
  {}

  lemma CoverageIsMatching(name: string, suffixes: seq<string>)
    requires name != "" && forall i | 0 <= i < |suffixes| :: Normalized(suffixes[i]).Ok?
    ensures Covered(name, suffixes) <==>
            exists i :: 0 <= i < |suffixes| && MatchesSuffix(name, Normalized(suffixes[i]).value)
  {
    forall i | 0 <= i < |suffixes|
      ensures MatchesSuffix(name, Normalized(suffixes[i]).value) <==>
              EndsWith(BaseLabels(name), Split(Normalized(suffixes[i]).value))
    {
      NormalizedIsNotEmpty(suffixes[i]);
      SuffixesAreWholeLabels(name, Normalized(suffixes[i]).value);
    }
  }

  method MatchesAny(name: string, suffixes: seq<string>) returns (found: bool)
    ensures found <==> exists i :: 0 <= i < |suffixes| && MatchesSuffix(name, suffixes[i])
  {
    for i := 0 to |suffixes|
      invariant forall j | 0 <= j < i :: !MatchesSuffix(name, suffixes[j])
    {
      if MatchesSuffix(name, suffixes[i]) {
        return true;
      }
    }
    found := false;
  }

  method Evaluate(fqdn: string, p: Policy) returns (r: Result<string>)
    ensures r.Ok? <==> Normalized(fqdn).Ok? && Permits(p, Normalized(fqdn).value)
    ensures r.Ok? ==> r == Normalized(fqdn)
    ensures Normalized(fqdn).Err? ==> r == Normalized(fqdn)
  {
    r := NormalizeFQDN(fqdn);
    if r.Err? {
      return;
    }
    var name := r.value;
    NormalizedIsNotEmpty(fqdn);
    var np := NormalizePolicy(p);
    if np.Err? {
      return Err(np.problem);
    }
    if IsWildcard(name) && !np.value.allowWildcard {
      return Err(WildcardNotAllowed);
    }
    CoverageIsMatching(name, p.suffixes);
    assert forall i | 0 <= i < |p.suffixes| :: np.value.suffixes[i] == Normalized(p.suffixes[i]).value;
    var found := MatchesAny(name, np.value.suffixes);
    if !found {
      r := Err(SuffixNotAllowed);
    }
  }

  // ----- authorization ---------------------------------------------------------------------------------

  function AllNames(fqdn: string, additional: seq<string>): seq<string> {
    [fqdn] + additional
  }

  method CheckDistinct(names: seq<string>) returns (ok: bool)
    ensures ok <==> Distinct(names)
  {
    var seen: set<string> := {};
    for i := 0 to |names|
      invariant forall n :: n in seen <==> exists j :: 0 <= j < i && names[j] == n
      invariant Distinct(names[..i])
    {
      if names[i] in seen {
        return false;
      }
      seen := seen + {names[i]};
    }
    assert names[..|names|] == names;
    ok := true;
  }

  predicate CountOk(n: int, max: int) {
    n <= if max < 1 then 1 else max
  }

  datatype Bindings = Bindings(acme: string, dns: string, store: string)

  datatype RunnerPolicy = RunnerPolicy(
    policy: Policy, acme: seq<string>, dns: seq<string>, store: seq<string>, maxNames: int)

  datatype Request = Request(fqdn: string, additional: seq<string>, bindings: Bindings)

  predicate BindingOk(name: string, allowed: seq<string>) {
    name != "" && name in allowed
  }

  predicate BindingsOk(p: RunnerPolicy, b: Bindings) {
    BindingOk(b.acme, p.acme) && BindingOk(b.dns, p.dns) && BindingOk(b.store, p.store)
  }

  /** A name in canonical form, permitted by the policy. */
  predicate NameOk(p: RunnerPolicy, name: string) {
    HostName(name) && Permits(p.policy, name)
  }

  predicate NamesOk(p: RunnerPolicy, names: seq<string>) {
    forall i | 0 <= i < |names| :: NameOk(p, names[i])
  }

  /** What a Runner lets through. */
  predicate Authorizes(p: RunnerPolicy, req: Request) {
    var names := AllNames(req.fqdn, req.additional);
    CountOk(|names|, p.maxNames) && NamesOk(p, names) && Distinct(names) && BindingsOk(p, req.bindings)
  }

  method AuthorizeName(p: RunnerPolicy, n: string) returns (problem: Option<Problem>)
    ensures problem.None? <==> NameOk(p, n)
  {
    FixedPointsAreHostNames(n);
    var name := NormalizeFQDN(n);
    if name.Err? {
      return Some(name.problem);
    }
    if name.value != n {
      return Some(NotNormalized);
    }
    var e := Evaluate(name.value, p.policy);
    problem := if e.Err? then Some(e.problem) else None;
  }

  method AuthorizeNames(p: RunnerPolicy, names: seq<string>) returns (problem: Option<Problem>)
    ensures problem.None? <==> NamesOk(p, names)
  {
    for i := 0 to |names|
      invariant NamesOk(p, names[..i])
    {
      problem := AuthorizeName(p, names[i]);
      OneMoreName(p, names, i);
      if problem.Some? {
        return;
      }
    }
    assert names[..|names|] == names;
    problem := None;
  }

  lemma OneMoreName(p: RunnerPolicy, names: seq<string>, i: nat)
    requires i < |names|
    ensures NamesOk(p, names[..i + 1]) <==> NamesOk(p, names[..i]) && NameOk(p, names[i])
    ensures NamesOk(p, names) ==> NameOk(p, names[i])
  {
    var before, after := names[..i], names[..i + 1];
    assert after == before + [names[i]];
    assert after[i] == names[i] && forall j | 0 <= j < i :: after[j] == before[j];
  }

  /** Accepts exactly the requests with few enough, canonical, covered and distinct names and
      listed bindings, and says which of these a refused request lacks, the first in order. */
  method Authorize(p: RunnerPolicy, req: Request) returns (problem: Option<Problem>)
    ensures problem.None? <==> Authorizes(p, req)
    ensures var names := AllNames(req.fqdn, req.additional);
            && (!CountOk(|names|, p.maxNames) ==> problem == Some(TooManyNames))
            && (CountOk(|names|, p.maxNames) && NamesOk(p, names) && !Distinct(names) ==> problem == Some(DuplicateName))
            && (CountOk(|names|, p.maxNames) && NamesOk(p, names) && Distinct(names) && !BindingsOk(p, req.bindings) ==>
                  problem == Some(BindingNotAllowed))
  {
    var names := AllNames(req.fqdn, req.additional);
    if !CountOk(|names|, p.maxNames) {
      return Some(TooManyNames);
    }
    problem := AuthorizeNames(p, names);
    if problem.Some? {
      return;
    }
    var distinct := CheckDistinct(names);
    if !distinct {
      return Some(DuplicateName);
    }
    if !BindingsOk(p, req.bindings) {
      return Some(BindingNotAllowed);
    }
    problem := None;
  }

  // ----- the names of a certificate -------------------------------------------------------------------------

  ghost function LowerSet(names: seq<string>): set<string> {
    set i | 0 <= i < |names| :: ToLower(names[i])
  }

  predicate DistinctLower(names: seq<string>) {
    forall i, j | 0 <= i < j < |names| :: ToLower(names[i]) != ToLower(names[j])
  }

  /** Whether a certificate carries exactly the wanted names, by counting. */
  method SameNames(dnsNames: seq<string>, want: seq<string>) returns (same: bool)
    ensures same <==> |LowerSet(dnsNames)| == |want| && LowerSet(want) <= LowerSet(dnsNames)
  {
    var have: set<string> := {};
    for i := 0 to |dnsNames|
      invariant have == LowerSet(dnsNames[..i])
    {
      have := have + {ToLower(dnsNames[i])};
      LowerSetGrows(dnsNames, i);
    }
    assert dnsNames[..|dnsNames|] == dnsNames;
    if |have| != |want| {
      return false;
    }
    for i := 0 to |want|
      invariant forall j | 0 <= j < i :: ToLower(want[j]) in have
    {
      if ToLower(want[i]) !in have {
        assert ToLower(want[i]) in LowerSet(want);
        return false;
      }
    }
    same := true;
  }

  lemma LowerSetGrows(names: seq<string>, i: nat)
    requires i < |names|
    ensures LowerSet(names[..i + 1]) == LowerSet(names[..i]) + {ToLower(names[i])}
  {}

  lemma InLowerSet(names: seq<string>, x: string)
    ensures x in LowerSet(names) <==> exists j :: 0 <= j < |names| && ToLower(names[j]) == x
  {}

  lemma DistinctLowerAppend(names: seq<string>, x: string)
    ensures DistinctLower(names + [x]) <==> DistinctLower(names) && ToLower(x) !in LowerSet(names)
  {
    var all := names + [x];
    assert all[|names|] == x && forall i | 0 <= i < |names| :: all[i] == names[i];
    InLowerSet(names, ToLower(x));
  }

  lemma {:induction false} DistinctNamesCount(names: seq<string>)
    ensures |LowerSet(names)| <= |names|
    ensures |LowerSet(names)| == |names| <==> DistinctLower(names)
  {
    if names == [] {
      assert LowerSet(names) == {};
    } else {
      var last := |names| - 1;
      DistinctNamesCount(names[..last]);
      LowerSetGrows(names, last);
      DistinctLowerAppend(names[..last], names[last]);
      assert names[..last + 1] == names == names[..last] + [names[last]];
    }
  }

  /** The count decides equality of the two sets exactly when no wanted name repeats; for a
      repeated one it accepts a certificate with a name too many. */
  lemma {:induction false} CountingIsExactForDistinctNames(want: seq<string>)
    ensures DistinctLower(want) <==>
            forall dnsNames: seq<string> ::
              (|LowerSet(dnsNames)| == |want| && LowerSet(want) <= LowerSet(dnsNames)) <==> LowerSet(dnsNames) == LowerSet(want)
  {
    DistinctNamesCount(want);
    if DistinctLower(want) {
      forall dnsNames: seq<string> | |LowerSet(dnsNames)| == |want| && LowerSet(want) <= LowerSet(dnsNames)
        ensures LowerSet(dnsNames) == LowerSet(want)
      {
        SubsetOfSameSize(LowerSet(want), LowerSet(dnsNames));
      }
    } else {
      assert LowerSet(want) == LowerSet(want) && |LowerSet(want)| != |want|;
    }
  }

  lemma SubsetOfSameSize(a: set<string>, b: set<string>)
    requires a <= b && |a| == |b|
    ensures a == b
  {
    assert |b - a| == |b| - |a|;
    assert b - a == {};
  }

  lemma TheCountAcceptsOneNameTooMany()
    ensures var want, have := ["a", "a"], ["a", "b"];
            |LowerSet(have)| == |want| && LowerSet(want) <= LowerSet(have) && LowerSet(have) != LowerSet(want)
  {
    var want, have := ["a", "a"], ["a", "b"];
    DistinctNamesCount(have);
    assert ToLower("a")[0] == 'a' && ToLower("b")[0] == 'b';
    assert ToLower(have[1]) in LowerSet(have);
    forall x | x in LowerSet(want) ensures x in LowerSet(have) {
      assert x == ToLower(have[0]);
    }
    assert ToLower("b") !in LowerSet(want) by {
      assert forall i | 0 <= i < 2 :: want[i] == "a";
    }
  }

  /** The names a Runner has authorized never repeat, so for them the count is exact. */
  lemma AuthorizedNamesAreDistinct(p: RunnerPolicy, names: seq<string>)
    requires NamesOk(p, names) && Distinct(names)
    ensures DistinctLower(names)
  {
    forall i | 0 <= i < |names| ensures ToLower(names[i]) == names[i] {
      HostNamesAreMadeOfHostChars(names[i]);
      HostCharsNeedNothing(names[i]);
    }
  }
}
