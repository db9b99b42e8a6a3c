/** Signed job envelopes: what signing produces and verification accepts, with an ideal
    signature and the base64url and JSON encodings as parameters. */
module Envelopes {
  import opened Basics
  import opened ReplayLedger

  type Bytes = seq<nat>

  datatype Header = Header(alg: string, kid: string, issuedAt: int, expiresAt: int, nonce: string)

  /** An ideal signature: it verifies under one key, for one message. */
  type Key = nat
  datatype Signature = Signature(key: Key, message: string)
  datatype Signer = Signer(kid: string, key: Key)

  datatype Envelope = Envelope(protected: string, payload: string, signature: Signature)

  /** The encodings of a header and of a document, and their decoders. */
  datatype Codec = Codec(
    writeHeader: Header -> string,
    readHeader: string -> Option<Header>,
    write: Bytes -> string,
    read: string -> Option<Bytes>)

  const ALGORITHM := "EdDSA"
  const MAX_DOCUMENT := 65536
  const MAX_HEADER := 4096
  const DEFAULT_SKEW := 300 * SECOND
  const KEY_ID_LENGTH := 16

  datatype Problem =
    | BadValidity | BadNonce | TooLarge
    | Malformed | BadAlgorithm | BadKid | NoIssuedAt | NoExpiresAt | NotAfterIssued | TooLong | EmptyPayload
    | UnknownKey | BadSignature | Expired | NotYetValid

  datatype Result<T> = Ok(value: T) | Err(problem: Problem)

  predicate IsBase64Url(c: char) {
    'A' <= c <= 'Z' || 'a' <= c <= 'z' || '0' <= c <= '9' || c == '-' || c == '_'
  }

  predicate AllBase64Url(s: string) {
    forall i | 0 <= i < |s| :: IsBase64Url(s[i])
  }

  function EncodedLength(bytes: nat): nat {
    (bytes * 8 + 5) / 6
  }

  predicate ValidNonce(s: string) {
    16 <= |s| <= 128 && AllBase64Url(s)
  }

  predicate ValidKid(s: string) {
    |s| == KEY_ID_LENGTH && forall i | 0 <= i < |s| :: '0' <= s[i] <= '9' || 'a' <= s[i] <= 'f'
  }

  // ----- the operations --------------------------------------------------------------------------

  /** What the signature covers. */
  function SigningInput(protected: string, payload: string): string {
    protected + "." + payload
  }

  function Truncate(t: int): int {
    Seconds(t) * SECOND
  }

  function Sign(c: Codec, payload: Bytes, signer: Signer, issued: int, validity: int, nonce: string): Result<Envelope> {
    if validity <= 0 || validity > MAX_VALIDITY then Err(BadValidity)
    else if !ValidNonce(nonce) then Err(BadNonce)
    else if |payload| > MAX_DOCUMENT then Err(TooLarge)
    else
      var issuedAt := Truncate(issued);
      var protected := c.writeHeader(Header(ALGORITHM, signer.kid, issuedAt, issuedAt + validity, nonce));
      var text := c.write(payload);
      Ok(Envelope(protected, text, Signature(signer.key, SigningInput(protected, text))))
  }

  function CheckHeader(h: Header): Result<Header> {
    if h.alg != ALGORITHM then Err(BadAlgorithm)
    else if !ValidKid(h.kid) then Err(BadKid)
    else if h.issuedAt == ZERO_TIME * SECOND then Err(NoIssuedAt)
    else if h.expiresAt == ZERO_TIME * SECOND then Err(NoExpiresAt)
    else if h.expiresAt <= h.issuedAt then Err(NotAfterIssued)
    else if h.expiresAt - h.issuedAt > MAX_VALIDITY then Err(TooLong)
    else if !ValidNonce(h.nonce) then Err(BadNonce)
    else Ok(h)
  }

  predicate Decodable(s: string, max: nat) {
    s != "" && |s| <= EncodedLength(max) && AllBase64Url(s)
  }

  function ReadEnvelope(c: Codec, e: Envelope): Result<(Header, Bytes)> {
    if !Decodable(e.protected, MAX_HEADER) || c.readHeader(e.protected).None? then Err(Malformed)
    else match CheckHeader(c.readHeader(e.protected).value)
      case Err(p) => Err(p)
      case Ok(h) =>
        if !Decodable(e.payload, MAX_DOCUMENT) || c.read(e.payload).None? then Err(Malformed)
        else if c.read(e.payload).value == [] then Err(EmptyPayload)
        else Ok((h, c.read(e.payload).value))
  }

  function EffectiveSkew(skew: int): int {
    if skew <= 0 then DEFAULT_SKEW else skew
  }

  function Verify(c: Codec, e: Envelope, keys: map<string, Key>, now: int, skew: int): Result<(Bytes, Header)> {
    match ReadEnvelope(c, e)
    case Err(p) => Err(p)
    case Ok((h, payload)) =>
      if h.kid !in keys then Err(UnknownKey)
      else if e.signature != Signature(keys[h.kid], SigningInput(e.protected, e.payload)) then Err(BadSignature)
      else if now > h.expiresAt then Err(Expired)
      else if now + EffectiveSkew(skew) < h.issuedAt then Err(NotYetValid)
      else Ok((payload, h))
  }

  // ----- what is promised ---------------------------------------------------------------------------

  /** What signing wrote can be read back. */
  ghost predicate Faithful(c: Codec, h: Header, payload: Bytes) {
    && c.readHeader(c.writeHeader(h)) == Some(h) && Decodable(c.writeHeader(h), MAX_HEADER)
    && c.read(c.write(payload)) == Some(payload) && Decodable(c.write(payload), MAX_DOCUMENT)
  }

  /** A signed envelope verifies, with the signed bytes as its payload, exactly while the
      reading is not after the issue time cut to the second plus the validity, and not before
      that time by more than the skew; otherwise it fails for that reason. */
  lemma SignedVerifiesInItsWindow(
      c: Codec, payload: Bytes, signer: Signer, issued: int, validity: int, nonce: string,
      keys: map<string, Key>, now: int, skew: int)
    requires var signed := Sign(c, payload, signer, issued, validity, nonce); signed.Ok?
    requires Faithful(c, Header(ALGORITHM, signer.kid, Truncate(issued), Truncate(issued) + validity, nonce), payload)
    requires payload != [] && ValidKid(signer.kid) && signer.kid in keys && keys[signer.kid] == signer.key
    requires Truncate(issued) != ZERO_TIME * SECOND && Truncate(issued) + validity != ZERO_TIME * SECOND
    ensures var e := Sign(c, payload, signer, issued, validity, nonce).value;
            var start, end := Truncate(issued), Truncate(issued) + validity;
            Verify(c, e, keys, now, skew) ==
              if now > end then Err(Expired)
              else if now + EffectiveSkew(skew) < start then Err(NotYetValid)
              else Ok((payload, Header(ALGORITHM, signer.kid, start, end, nonce)))
    ensures 0 <= issued - Truncate(issued) < SECOND
  {}

  /** A Runner whose clock agrees accepts the envelope when it is issued, unless the validity
      is shorter than what cutting the issue time took off; a second is always enough. */
  lemma FreshUnlessShorterThanTheCut(issued: int, validity: int, skew: int)
    ensures var start, end := Truncate(issued), Truncate(issued) + validity;
            (issued <= end && start <= issued + EffectiveSkew(skew)) <==> issued % SECOND <= validity
    ensures SECOND <= validity ==> issued % SECOND <= validity
  {}

  /** Signing refuses nothing but a validity out of bounds, a nonce of the wrong form and a
      document too large, and signs the two encoded parts together. */
  lemma SignsExactly(c: Codec, payload: Bytes, signer: Signer, issued: int, validity: int, nonce: string)
    ensures var signed := Sign(c, payload, signer, issued, validity, nonce);
            && (signed.Ok? <==> 0 < validity <= MAX_VALIDITY && ValidNonce(nonce) && |payload| <= MAX_DOCUMENT)
            && (signed.Ok? ==> signed.value.signature ==
                                 Signature(signer.key, signed.value.protected + "." + signed.value.payload))
            && (validity <= 0 || validity > MAX_VALIDITY ==> signed == Err(BadValidity))
            && (signed == Err(BadNonce) ==> !ValidNonce(nonce)) && (signed == Err(TooLarge) ==> |payload| > MAX_DOCUMENT)
  {}

  lemma FirstDot(a: string, b: string, x: string, y: string)
    requires AllBase64Url(a) && SigningInput(a, b) == SigningInput(x, y)
    ensures |a| <= |x|
  {
    assert SigningInput(x, y)[|x|] == '.';
    assert forall i | 0 <= i < |a| :: SigningInput(a, b)[i] == a[i] && a[i] != '.';
  }

  /** The signing input falls apart in one way only. */
  lemma {:induction false} SigningInputIsInjective(a: string, b: string, x: string, y: string)
    requires AllBase64Url(a) && AllBase64Url(x) && SigningInput(a, b) == SigningInput(x, y)
    ensures a == x && b == y
  {
    FirstDot(a, b, x, y);
    FirstDot(x, y, a, b);
    var s, t := SigningInput(a, b), SigningInput(x, y);
    assert s[..|a|] == a && t[..|x|] == x;
    assert s[|a| + 1..] == b && t[|x| + 1..] == y;
  }

  /** With an ideal signature, what verifies is what was signed: header and payload together,
      under a trusted key, within the window the replay ledger relies on. */
  lemma {:induction false} VerifiedWasSigned(
      c: Codec, e: Envelope, keys: map<string, Key>, now: nat, skew: int, signed: set<(string, string)>)
    requires Verify(c, e, keys, now, skew).Ok? && SECOND <= skew
    requires forall s | s in signed :: AllBase64Url(s.0)
    // Only the holders of the trusted keys sign, and signed lists what they have signed.
    requires e.signature.key in keys.Values ==> exists s :: s in signed && e.signature.message == SigningInput(s.0, s.1)
    ensures (e.protected, e.payload) in signed
    ensures var (payload, h) := Verify(c, e, keys, now, skew).value;
            && c.readHeader(e.protected) == Some(h) && c.read(e.payload) == Some(payload) && payload != []
            && h.kid in keys && e.signature.key == keys[h.kid] && e.signature.message == SigningInput(e.protected, e.payload)
            && h.alg == ALGORITHM && ValidKid(h.kid) && ValidNonce(h.nonce) && |e.payload| <= EncodedLength(MAX_DOCUMENT)
            && forall run, unread, pruned, outcome ::
                 Verified(Section(run, h.issuedAt, h.expiresAt, now, skew, unread, pruned, outcome))
  {
    var h := Verify(c, e, keys, now, skew).value.1;
    assert keys[h.kid] in keys.Values;
    var s :| s in signed && e.signature.message == SigningInput(s.0, s.1);
    SigningInputIsInjective(s.0, s.1, e.protected, e.payload);
  }
}
