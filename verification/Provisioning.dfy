/** Sealing an account credential to a Runner, for one account and generation: the
    authenticated data, and sealing and opening over an ideal key agreement, key derivation
    and authenticated encryption. */
module Provisioning {
  import opened Contract
  import Decimal

  const VERSION := "x25519-hkdf-sha256-a256gcm/v1"
  const VERSION_SCOPED := "x25519-hkdf-sha256-a256gcm/v2"
  const CONTRACT := "acme-conductor.cits-nue.github.io/v1alpha1"
  const PURPOSE := "account-provisioning"
  const INFO := "acme-conductor.cits-nue.github.io/v1alpha1 account-provisioning"
  const NONCE_LENGTH := 12
  const TAG_LENGTH := 16
  const MAX_PLAINTEXT := 4096

  datatype Result<T> = Ok(value: T) | Err(error: Error)
  datatype Error = BadCredential | BadNonce | BadBinding | BadGeneration | BadScope | UnknownKey | NotOpened

  // ----- authenticated data ---------------------------------------------------------------------

  function VersionFor(scope: string): string {
    if scope == "" then VERSION else VERSION_SCOPED
  }

  function Aad(version: string, keyId: string, binding: string, generation: nat): string {
    CONTRACT + "\n" + (PURPOSE + "\n" + (("version=" + version) + "\n" + (("keyId=" + keyId) + "\n" +
      (("binding=" + binding) + "\n" + ("generation=" + Decimal.Render(generation))))))
  }

  function ScopedAad(version: string, keyId: string, binding: string, scope: string, generation: nat): string {
    CONTRACT + "\n" + (PURPOSE + "\n" + (("version=" + version) + "\n" + (("keyId=" + keyId) + "\n" +
      (("binding=" + binding) + "\n" + (("scope=" + scope) + "\n" + ("generation=" + Decimal.Render(generation)))))))
  }

  function AadFor(version: string, keyId: string, binding: string, scope: string, generation: nat): string {
    if version == VERSION_SCOPED then ScopedAad(version, keyId, binding, scope, generation)
    else Aad(version, keyId, binding, generation)
  }

  predicate OneLine(s: string) {
    forall i | 0 <= i < |s| :: s[i] != '\n'
  }

  lemma NewlineIsBeyond(a: string, x: string, b: string, y: string)
    requires OneLine(a) && a + "\n" + x == b + "\n" + y
    ensures |a| <= |b|
  {
    assert (b + "\n" + y)[|b|] == '\n';
    assert forall i | 0 <= i < |a| :: (a + "\n" + x)[i] == a[i];
  }

  /** The first lines are equal, and so is the rest. */
  lemma Peel(a: string, x: string, b: string, y: string)
    requires OneLine(a) && OneLine(b) && a + "\n" + x == b + "\n" + y
    ensures a == b && x == y
  {
    NewlineIsBeyond(a, x, b, y);
    NewlineIsBeyond(b, y, a, x);
    assert (a + "\n" + x)[..|a|] == a && (b + "\n" + y)[..|b|] == b;
    assert (a + "\n" + x)[|a| + 1..] == x && (b + "\n" + y)[|b| + 1..] == y;
  }

  lemma Unprefix(p: string, a: string, b: string)
    requires p + a == p + b
    ensures a == b
  {
    assert (p + a)[|p|..] == a && (p + b)[|p|..] == b;
  }

  lemma OneLinePrefixed(p: string, a: string)
    requires OneLine(p) && OneLine(a)
    ensures OneLine(p + a)
  {}

  lemma PeelField(p: string, a: string, x: string, b: string, y: string)
    requires OneLine(p) && OneLine(a) && OneLine(b) && (p + a) + "\n" + x == (p + b) + "\n" + y
    ensures a == b && x == y
  {
    OneLinePrefixed(p, a);
    OneLinePrefixed(p, b);
    Peel(p + a, x, p + b, y);
    Unprefix(p, a, b);
  }

  lemma SameGeneration(g: nat, h: nat)
    requires "generation=" + Decimal.Render(g) == "generation=" + Decimal.Render(h)
    ensures g == h
  {
    Unprefix("generation=", Decimal.Render(g), Decimal.Render(h));
    Decimal.RenderIsInjective(g, h);
  }

  /** What the authenticated data says after the binding. */
  function Tail(version: string, scope: string, generation: nat): string {
    var g := "generation=" + Decimal.Render(generation);
    if version == VERSION_SCOPED then ("scope=" + scope) + "\n" + g else g
  }

  lemma AadInLines(version: string, keyId: string, binding: string, scope: string, generation: nat)
    ensures AadFor(version, keyId, binding, scope, generation) ==
            CONTRACT + "\n" + (PURPOSE + "\n" + (("version=" + version) + "\n" + (("keyId=" + keyId) + "\n" +
              (("binding=" + binding) + "\n" + Tail(version, scope, generation)))))
  {}

  lemma {:induction false} TailIsInjective(version: string, s: string, g: nat, t: string, h: nat)
    requires OneLine(s) && OneLine(t) && (version != VERSION_SCOPED ==> s == t)
    requires Tail(version, s, g) == Tail(version, t, h)
    ensures s == t && g == h
  {
    if version == VERSION_SCOPED {
      PeelField("scope=", s, "generation=" + Decimal.Render(g), t, "generation=" + Decimal.Render(h));
    }
    SameGeneration(g, h);
  }

  /** The authenticated data determines everything in it, across both versions. */
  lemma {:induction false} AadIsInjective(
      k: string, b: string, s: string, g: nat, l: string, c: string, t: string, h: nat)
    requires OneLine(k) && OneLine(b) && OneLine(s) && OneLine(l) && OneLine(c) && OneLine(t)
    requires AadFor(VersionFor(s), k, b, s, g) == AadFor(VersionFor(t), l, c, t, h)
    ensures k == l && b == c && s == t && g == h
  {
    var v, w := VersionFor(s), VersionFor(t);
    AadInLines(v, k, b, s, g);
    AadInLines(w, l, c, t, h);
    var x3, y3 := ("binding=" + b) + "\n" + Tail(v, s, g), ("binding=" + c) + "\n" + Tail(w, t, h);
    var x2, y2 := ("keyId=" + k) + "\n" + x3, ("keyId=" + l) + "\n" + y3;
    var x1, y1 := ("version=" + v) + "\n" + x2, ("version=" + w) + "\n" + y2;
    Peel(CONTRACT, PURPOSE + "\n" + x1, CONTRACT, PURPOSE + "\n" + y1);
    Peel(PURPOSE, x1, PURPOSE, y1);
    PeelField("version=", v, x2, w, y2);
    PeelField("keyId=", k, x3, l, y3);
    PeelField("binding=", b, Tail(v, s, g), c, Tail(w, t, h));
    VersionsDiffer();
    TailIsInjective(v, s, g, t, h);
  }

  lemma VersionsDiffer()
    ensures VERSION != VERSION_SCOPED
  {}

  // ----- ideal cryptography ------------------------------------------------------------------------

  /** A key pair, known by its secret, with the identifier derived from its public half. */
  datatype Key = Key(secret: nat, id: string)

  /** Both sides of a key agreement compute the same. */
  function Agree(mine: nat, theirs: nat): (nat, nat) {
    if mine <= theirs then (mine, theirs) else (theirs, mine)
  }

  datatype Derived = Derived(shared: (nat, nat), salt: (nat, nat), info: string)

  /** Opens only under the same key, nonce and authenticated data; length counts the tag. */
  datatype Ciphertext = Ciphertext(key: Derived, nonce: seq<nat>, aad: string, plaintext: Credential, length: nat)

  function Derive(mine: nat, theirs: nat, ephemeral: nat, runner: nat): Derived {
    Derived(Agree(mine, theirs), (ephemeral, runner), INFO)
  }

  // ----- sealing and opening ----------------------------------------------------------------------------

  datatype Credential = Credential(kid: string, hmac: string)

  datatype Sealed = Sealed(version: string, keyId: string, ephemeral: nat, nonce: seq<nat>, ciphertext: Ciphertext)

  predicate KidChar(c: char) {
    '!' <= c <= '~'
  }

  predicate HmacChar(c: char) {
    Alnum(c) || c == '+' || c == '/' || c == '_' || c == '=' || c == '-'
  }

  predicate CredentialOk(e: Credential) {
    && 1 <= |e.kid| <= 256 && (forall i | 0 <= i < |e.kid| :: KidChar(e.kid[i]))
    && 1 <= |e.hmac| <= 1024 && forall i | 0 <= i < |e.hmac| :: HmacChar(e.hmac[i])
  }

  /** JSON escapes quotes, backslashes and angle brackets. */
  function EscapedChar(c: char): nat {
    if c == '"' || c == '\\' then 2 else if c == '<' || c == '>' || c == '&' then 6 else 1
  }

  function EscapedLength(s: string): nat {
    if s == "" then 0 else EscapedLength(s[..|s| - 1]) + EscapedChar(s[|s| - 1])
  }

  /** The document with the two fields. */
  function PlaintextLength(e: Credential): nat {
    20 + EscapedLength(e.kid) + EscapedLength(e.hmac)
  }

  predicate IsKeyId(s: string) {
    |s| == 16 && forall i | 0 <= i < |s| :: '0' <= s[i] <= '9' || 'a' <= s[i] <= 'f'
  }

  predicate SealedOk(p: Sealed) {
    && (p.version == VERSION || p.version == VERSION_SCOPED) && IsKeyId(p.keyId) && |p.nonce| == NONCE_LENGTH
    && TAG_LENGTH < p.ciphertext.length <= MAX_PLAINTEXT + TAG_LENGTH
  }

  /** Seals under a fresh ephemeral key and nonce. */
  function Seal(runner: Key, binding: string, scope: string, generation: int, e: Credential,
                ephemeral: nat, nonce: seq<nat>): Result<Sealed>
  {
    if !CredentialOk(e) then Err(BadCredential)
    else if |nonce| != NONCE_LENGTH then Err(BadNonce)
    else if !IsBindingName(binding) then Err(BadBinding)
    else if !IsGeneration(generation) then Err(BadGeneration)
    else if scope != "" && !IsIdentifier(scope) then Err(BadScope)
    else
      var version := VersionFor(scope);
      var key := Derive(ephemeral, runner.secret, ephemeral, runner.secret);
      var aad := AadFor(version, runner.id, binding, scope, generation);
      Ok(Sealed(version, runner.id, ephemeral, nonce,
                Ciphertext(key, nonce, aad, e, PlaintextLength(e) + TAG_LENGTH)))
  }

  function OpenScoped(p: Sealed, keys: map<string, Key>, binding: string, scope: string, generation: nat): Result<Credential> {
    if !SealedOk(p) then Err(NotOpened)
    else if p.version != VersionFor(scope) then Err(NotOpened)
    else if p.keyId !in keys then Err(UnknownKey)
    else
      var mine := keys[p.keyId].secret;
      var key := Derive(mine, p.ephemeral, p.ephemeral, mine);
      var aad := AadFor(p.version, p.keyId, binding, scope, generation);
      var c := p.ciphertext;
      if c.key != key || c.nonce != p.nonce || c.aad != aad then Err(NotOpened)
      else if !CredentialOk(c.plaintext) then Err(NotOpened)
      else Ok(c.plaintext)
  }

  lemma {:induction false} EscapingIsBounded(s: string)
    ensures |s| <= EscapedLength(s) <= 6 * |s|
    ensures (forall i | 0 <= i < |s| :: HmacChar(s[i])) ==> EscapedLength(s) == |s|
  {
    if s != "" {
      EscapingIsBounded(s[..|s| - 1]);
    }
  }

  /** Whatever may be sealed fits the contract's bounds. */
  lemma SealedIsWellFormed(runner: Key, binding: string, scope: string, generation: int, e: Credential,
                           ephemeral: nat, nonce: seq<nat>)
    requires IsKeyId(runner.id) && Seal(runner, binding, scope, generation, e, ephemeral, nonce).Ok?
    ensures SealedOk(Seal(runner, binding, scope, generation, e, ephemeral, nonce).value)
  {
    EscapingIsBounded(e.kid);
    EscapingIsBounded(e.hmac);
  }

  /** Sealing refuses nothing but a malformed credential, nonce or destination, and the first of
      them decides; what it makes is under the version of its scope. */
  lemma SealsExactly(runner: Key, binding: string, scope: string, generation: int, e: Credential,
                     ephemeral: nat, nonce: seq<nat>)
    ensures var sealed := Seal(runner, binding, scope, generation, e, ephemeral, nonce);
            && (sealed.Ok? <==> && CredentialOk(e) && |nonce| == NONCE_LENGTH && IsBindingName(binding)
                                && IsGeneration(generation) && (scope == "" || IsIdentifier(scope)))
            && (sealed == Err(BadCredential) <==> !CredentialOk(e))
            && (sealed == Err(BadBinding) ==> !IsBindingName(binding))
            && (sealed == Err(BadGeneration) ==> !IsGeneration(generation))
            && (sealed == Err(BadScope) ==> scope != "" && !IsIdentifier(scope))
            && (sealed.Ok? ==> && sealed.value.version == (if scope == "" then VERSION else VERSION_SCOPED)
                               && sealed.value.keyId == runner.id && sealed.value.nonce == nonce)
  {}

  lemma ValidNamesAreOneLine(s: string)
    requires IsIdentifier(s) || IsBindingName(s) || IsKeyId(s) || s == ""
    ensures OneLine(s)
  {}

  /** Opening gives back what was sealed exactly for the same binding, scope and generation,
      and the same key; for anything else it fails, as an unknown key only when the Runner
      has no key of that identifier. */
  lemma {:induction false} OpensExactlyWhereSealed(
      runner: Key, binding: string, scope: string, generation: int, e: Credential, ephemeral: nat, nonce: seq<nat>,
      keys: map<string, Key>, b: string, s: string, g: nat)
    requires IsKeyId(runner.id) && Seal(runner, binding, scope, generation, e, ephemeral, nonce).Ok?
    requires IsBindingName(b) && (s == "" || IsIdentifier(s))
    requires forall id | id in keys :: keys[id].id == id
    ensures var sealed := Seal(runner, binding, scope, generation, e, ephemeral, nonce).value;
            var back := OpenScoped(sealed, keys, b, s, g);
            && (back.Ok? <==> runner in keys.Values && b == binding && s == scope && g == generation)
            && (back.Ok? ==> back == Ok(e))
            && (back == Err(UnknownKey) ==> runner.id !in keys)
  {
    SealedIsWellFormed(runner, binding, scope, generation, e, ephemeral, nonce);
    ValidNamesAreOneLine(runner.id);
    ValidNamesAreOneLine(binding);
    ValidNamesAreOneLine(scope);
    ValidNamesAreOneLine(b);
    ValidNamesAreOneLine(s);
    if runner in keys.Values {
      var id :| id in keys && keys[id] == runner;
      assert id == runner.id;
    }
    var sealed := Seal(runner, binding, scope, generation, e, ephemeral, nonce).value;
    if OpenScoped(sealed, keys, b, s, g).Ok? {
      AadIsInjective(runner.id, binding, scope, generation, runner.id, b, s, g);
      assert keys[runner.id] == runner;
      assert runner in keys.Values;
    }
  }
}
