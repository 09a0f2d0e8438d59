/** What a Deny says on the wire, and how the client reads it
    (internal/tunnelclient/client.go). */
module Denials {
  import opened Bytes
  import opened Naming
  import opened Strings
  import opened Protocol

  function Quote(s: string): string { "\"" + s + "\"" }

  function KindText(k: Kind): string {
    match k
    case KRegister => "register"
    case KProof => "proof"
    case KDeregister => "deregister"
    case KOther(word) => word
  }

  function Decimal(n: int): string { if n < 0 then "-" + Itoa(-n) else Itoa(n) }

  /** The reason field the server writes. */
  function Text(r: Reason): string {
    match r
    case ExpectedRegister(got) => "expected register, got " + Quote(KindText(got))
    case BadRegister => "bad register payload"
    case BadVersion(v) => "unsupported protocol version " + Decimal(v)
    case InvalidUnique(name) => "invalid unique " + Quote(name) + ": must match ^[a-z][a-z0-9-]{1,52}[a-z0-9]$"
    case RateLimitedIp => "rate_limited:ip"
    case BadPubkey => "bad pubkey"
    case BadSig => "bad sig"
    case TimestampOutOfRange => "timestamp out of range"
    case SignatureInvalid => "signature invalid"
    case NotAuthorized => "not_authorized"
    case RateLimitedKey => "rate_limited:pubkey"
    case CertIssuanceFailed => "cert issuance failed"
    case CertNotProvisioned => "cert not provisioned"
    case StoreError => "store error"
    case KeyMismatch => "key_mismatch"
    case InternalError => "internal error"
    case ExpectedProof(got) => "expected proof, got " + Quote(KindText(got))
    case BadProof => "bad proof payload"
    case BadProofSig => "bad proof sig"
    case LabelTaken(name) => "label " + Quote(name) + " already connected"
    case UnexpectedFrame(got) => "unexpected post-register frame " + Quote(KindText(got))
    case BadDeregister => "bad deregister payload"
    case UniqueMismatch => "unique mismatch"
  }

  // ---------------------------------------------------------------- the client's reading

  predicate IsRateLimit(reason: string) { "rate_limited:" <= reason }

  predicate IsPermanent(reason: string) {
    || reason in {"bad pubkey", "bad sig", "key_mismatch", "unique mismatch", "bad register payload",
                  "bad deregister payload", "bad proof payload", "bad proof sig", "signature invalid"}
    || "unsupported protocol version" <= reason || "invalid unique" <= reason || "expected " <= reason
    || "cert not provisioned" <= reason
  }

  // ---------------------------------------------------------------- what the texts say

  /** The Deny came from a limiter. */
  predicate FromLimiter(r: Reason) { r.RateLimitedIp? || r.RateLimitedKey? }

  /** The reasons that the client's list does not cover. */
  predicate Retried(r: Reason) {
    || FromLimiter(r) || r.TimestampOutOfRange? || r.NotAuthorized? || r.CertIssuanceFailed?
    || r.StoreError? || r.InternalError? || r.LabelTaken? || r.UnexpectedFrame?
  }

  /** No text that starts with another letter than these is one the client gives up on. */
  lemma OtherInitial(t: string)
    requires t != [] && t[0] !in {'b', 'k', 'u', 's', 'i', 'e', 'c'}
    ensures !IsPermanent(t)
  {
    assert "unsupported protocol version"[0] == 'u' && "invalid unique"[0] == 'i' && "expected "[0] == 'e' &&
      "cert not provisioned"[0] == 'c';
  }

  lemma OtherLimit(t: string)
    requires t != [] && t[0] != 'r'
    ensures !IsRateLimit(t)
  {
    assert "rate_limited:"[0] == 'r';
  }

  /** The texts that share an initial with a permanent one. */
  lemma SameInitial()
    ensures !IsPermanent("cert issuance failed") && !IsPermanent("store error") && !IsPermanent("internal error")
  {
    var c, s, i := "cert issuance failed", "store error", "internal error";
    assert c[0] == 'c' && c[5] == 'i' && s[0] == 's' && i[0] == 'i' && i[2] == 't';
    assert "unsupported protocol version"[0] == 'u' && "invalid unique"[0] == 'i' && "invalid unique"[2] == 'v';
    assert "expected "[0] == 'e' && "cert not provisioned"[0] == 'c' && "cert not provisioned"[5] == 'n';
    assert "bad register payload"[0] == 'b';
  }

  lemma UnexpectedIsNotPermanent(t: string)
    requires |t| > 11 && t[..12] == "unexpected p"
    ensures !IsPermanent(t)
  {
    assert t[0] == "unexpected p"[0] == 'u' && t[2] == "unexpected p"[2] == 'e';
    assert "unsupported protocol version"[2] == 's' && "unique mismatch"[2] == 'i';
    assert "invalid unique"[0] == 'i' && "expected "[0] == 'e' && "cert not provisioned"[0] == 'c';
  }

  /** The denials whose text is one of a few fixed words. */
  predicate Worded(r: Reason) {
    || r.BadPubkey? || r.BadSig? || r.KeyMismatch? || r.UniqueMismatch? || r.BadRegister? || r.BadDeregister?
    || r.BadProof? || r.BadProofSig? || r.SignatureInvalid?
  }

  /** The denials known by how their text begins. */
  predicate Headed(r: Reason) {
    r.BadVersion? || r.InvalidUnique? || r.ExpectedRegister? || r.ExpectedProof? || r.CertNotProvisioned?
  }

  lemma WordedIsPermanent(r: Reason)
    requires Worded(r)
    ensures IsPermanent(Text(r))
  {}

  lemma HeadedIsPermanent(r: Reason)
    requires Headed(r)
    ensures IsPermanent(Text(r))
  {
    var t := Text(r);
    if r.BadVersion? { assert "unsupported protocol version" <= t; }
    else if r.InvalidUnique? { assert "invalid unique" <= t; }
    else if r.CertNotProvisioned? { assert "cert not provisioned" <= t; }
    else { assert "expected " <= t; }
  }

  lemma UnexpectedFrameText(got: Kind)
    ensures !IsPermanent(Text(UnexpectedFrame(got)))
  {
    var t := Text(UnexpectedFrame(got));
    assert t[..12] == "unexpected p";
    UnexpectedIsNotPermanent(t);
  }

  predicate OwnInitial(r: Reason) { FromLimiter(r) || r.TimestampOutOfRange? || r.NotAuthorized? || r.LabelTaken? }

  lemma OwnInitialText(r: Reason)
    requires OwnInitial(r)
    ensures Text(r) != [] && Text(r)[0] !in {'b', 'k', 'u', 's', 'i', 'e', 'c'}
  {}

  lemma RetriedIsNotPermanent(r: Reason)
    requires Retried(r)
    ensures !IsPermanent(Text(r))
  {
    match r
    case CertIssuanceFailed => SameInitial();
    case StoreError => SameInitial();
    case InternalError => SameInitial();
    case UnexpectedFrame(got) => UnexpectedFrameText(got);
    case _ =>
      OwnInitialText(r);
      OtherInitial(Text(r));
  }

  lemma OtherStart(r: Reason)
    requires !FromLimiter(r)
    ensures Text(r) != [] && Text(r)[0] != 'r'
  {}

  lemma LimitIsRead(r: Reason)
    ensures IsRateLimit(Text(r)) <==> FromLimiter(r)
  {
    if FromLimiter(r) {
      assert Text(r)[..13] == "rate_limited:";
    } else {
      OtherStart(r);
      OtherLimit(Text(r));
    }
  }

  /** No two reasons are confused by their texts: the client's rate-limit test finds exactly the
      limiters' denials, and its list of permanent texts exactly the reasons that are not retried,
      whatever names, versions and frame types the texts quote. */
  lemma ClientReadsText(r: Reason)
    ensures IsRateLimit(Text(r)) <==> FromLimiter(r)
    ensures IsPermanent(Text(r)) <==> !Retried(r)
  {
    LimitIsRead(r);
    if Retried(r) { RetriedIsNotPermanent(r); }
    else if Worded(r) { WordedIsPermanent(r); }
    else { HeadedIsPermanent(r); }
  }

  /** The reasons whose text quotes nothing. */
  predicate Fixed(r: Reason) {
    && !r.ExpectedRegister? && !r.BadVersion? && !r.InvalidUnique? && !r.ExpectedProof?
    && !r.LabelTaken? && !r.UnexpectedFrame?
  }

  /** A fingerprint of the fixed texts: their lengths, and the character at index 4 where lengths agree. */
  function Print(r: Reason): (nat, char)
    requires Fixed(r)
  {
    match r
    case RateLimitedIp => (15, '_') case UniqueMismatch => (15, 'u')
    case RateLimitedKey => (19, '_')
    case BadPubkey => (10, 'p')
    case BadSig => (7, 's')
    case TimestampOutOfRange => (22, 's') case BadDeregister => (22, 'd')
    case SignatureInvalid => (17, 'a') case BadProof => (17, 'p')
    case NotAuthorized => (14, 'a') case InternalError => (14, 'r')
    case CertIssuanceFailed => (20, ' ') case CertNotProvisioned => (20, ' ') case BadRegister => (20, 'r')
    case StoreError => (11, 'e')
    case KeyMismatch => (12, 'm')
    case BadProofSig => (13, 'p')
  }

  lemma PrintOfText(r: Reason)
    requires Fixed(r)
    ensures |Text(r)| == Print(r).0 && Text(r)[4] == Print(r).1
  {}

  /** Reasons without parameters have different texts. */
  lemma FixedTextsDiffer(a: Reason, b: Reason)
    requires Fixed(a) && Fixed(b) && Text(a) == Text(b)
    ensures a == b
  {
    PrintOfText(a);
    PrintOfText(b);
    assert Text(CertIssuanceFailed)[5] == 'i' && Text(CertNotProvisioned)[5] == 'n';
  }
}
