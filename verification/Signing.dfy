/** Bytes, Go strings and big-endian integers. */
module Bytes {

  type byte = x: int | 0 <= x < 256

  /** A Go string is a byte string; each character stands for one byte. */
  type Str = s: string | forall i :: 0 <= i < |s| ==> s[i] as int < 256

  type int64 = x: int | -0x8000_0000_0000_0000 <= x < 0x8000_0000_0000_0000

  function BytesOf(s: Str): seq<byte> {
    seq(|s|, i requires 0 <= i < |s| => s[i] as int)
  }

  lemma BytesOfInjective(s: Str, t: Str)
    requires BytesOf(s) == BytesOf(t)
    ensures s == t
  {
    assert |s| == |BytesOf(s)| && |t| == |BytesOf(t)|;
    forall i | 0 <= i < |s| ensures s[i] == t[i] {
      assert BytesOf(s)[i] == s[i] as int && BytesOf(t)[i] == t[i] as int;
    }
  }

  function Pow256(n: nat): nat {
    if n == 0 then 1 else 256 * Pow256(n - 1)
  }

  /** `v` in `n` big-endian bytes, keeping the low ones. */
  function BigEndian(v: nat, n: nat): seq<byte> {
    if n == 0 then [] else BigEndian(v / 256, n - 1) + [v % 256]
  }

  function Value(b: seq<byte>): nat {
    if b == [] then 0 else Value(b[..|b| - 1]) * 256 + b[|b| - 1]
  }

  lemma {:induction false} BigEndianValue(v: nat, n: nat)
    requires v < Pow256(n)
    ensures |BigEndian(v, n)| == n && Value(BigEndian(v, n)) == v
  {
    if n > 0 {
      BigEndianValue(v / 256, n - 1);
      assert BigEndian(v, n)[..n - 1] == BigEndian(v / 256, n - 1);
    }
  }

  lemma {:induction false} ValueBigEndian(b: seq<byte>)
    ensures Value(b) < Pow256(|b|) && BigEndian(Value(b), |b|) == b
  {
    if b != [] {
      var n := |b| - 1;
      ValueBigEndian(b[..n]);
      assert b == b[..n] + [b[n]];
      assert Value(b) / 256 == Value(b[..n]) && Value(b) % 256 == b[n];
    }
  }

  /** Conversion to uint64 as Go does it: two's complement. */
  function Unsigned(x: int64): nat {
    if x < 0 then x + 0x1_0000_0000_0000_0000 else x
  }

  function Timestamp(ts: int64): (b: seq<byte>)
    ensures |b| == 8 && Value(b) == Unsigned(ts)
  {
    assert Pow256(8) == 0x1_0000_0000_0000_0000;
    BigEndianValue(Unsigned(ts), 8);
    BigEndian(Unsigned(ts), 8)
  }
}

/** What clients sign (internal/control/proto.go): the three payloads and why a signature
    over one can never pass for a signature over another. */
module Signing {
  import opened Bytes

  type Key = k: seq<byte> | |k| == 32 witness seq(32, _ => 0)

  /** What a key holder can put its name to. */
  datatype Statement =
    | Register(key: Key, unique: Str, ts: int64)
    | Proof(nonce: seq<byte>)
    | Deregister(unique: Str, ts: int64)

  const DOMAIN_REGISTER: Str := "swe-swe-tunnel/register/v1\n"
  const DOMAIN_PROOF: Str := "swe-swe-tunnel/proof/v1\n"
  const DOMAIN_DEREGISTER: Str := "swe-swe-tunnel/deregister/v1\n"

  function Payload(st: Statement): seq<byte> {
    match st
    case Register(key, unique, ts) => BytesOf(DOMAIN_REGISTER) + key + BytesOf(unique) + Timestamp(ts)
    case Proof(nonce) => BytesOf(DOMAIN_PROOF) + nonce
    case Deregister(unique, ts) => BytesOf(DOMAIN_DEREGISTER) + BytesOf(unique) + Timestamp(ts)
  }

  /** The sixteenth byte tells the three kinds apart. */
  lemma KindByte(st: Statement)
    ensures |Payload(st)| > 15
    ensures Payload(st)[15] as char ==
            match st case Register(_, _, _) => 'r' case Proof(_) => 'p' case Deregister(_, _) => 'd'
  {
    var domain :=
      match st
      case Register(_, _, _) => DOMAIN_REGISTER
      case Proof(_) => DOMAIN_PROOF
      case Deregister(_, _) => DOMAIN_DEREGISTER;
    assert |BytesOf(domain)| == |domain| > 15 && BytesOf(domain)[15] == domain[15] as int;
    assert Payload(st)[15] == BytesOf(domain)[15];
  }

  /** A common prefix of known length and a timestamp of eight bytes leave the name. */
  lemma SplitNameAndTime(prefix: seq<byte>, u: Str, ts: int64, u': Str, ts': int64)
    requires prefix + BytesOf(u) + Timestamp(ts) == prefix + BytesOf(u') + Timestamp(ts')
    ensures u == u' && ts == ts'
  {
    var a, b := prefix + BytesOf(u) + Timestamp(ts), prefix + BytesOf(u') + Timestamp(ts');
    assert |BytesOf(u)| == |BytesOf(u')|;
    assert BytesOf(u) == a[|prefix|..|a| - 8] && BytesOf(u') == b[|prefix|..|b| - 8];
    assert Timestamp(ts) == a[|a| - 8..] && Timestamp(ts') == b[|b| - 8..];
    BytesOfInjective(u, u');
  }

  /** Domain separation: equal signed bytes mean the same statement, of the same kind and
      with the same fields. */
  lemma PayloadInjective(a: Statement, b: Statement)
    requires Payload(a) == Payload(b)
    ensures a == b
  {
    KindByte(a);
    KindByte(b);
    match a
    case Register(key, u, ts) =>
      var n := |BytesOf(DOMAIN_REGISTER)|;
      assert key == Payload(a)[n..n + 32] && b.key == Payload(b)[n..n + 32];
      SplitNameAndTime(BytesOf(DOMAIN_REGISTER) + key, u, ts, b.unique, b.ts);
    case Proof(nonce) =>
      var n := |BytesOf(DOMAIN_PROOF)|;
      assert nonce == Payload(a)[n..] && b.nonce == Payload(b)[n..];
    case Deregister(u, ts) =>
      SplitNameAndTime(BytesOf(DOMAIN_DEREGISTER), u, ts, b.unique, b.ts);
  }

  // ---------------------------------------------------------------- symbolic signatures

  /** An unforgeable signature names its signer and the bytes it covers. */
  datatype Signature = Signature(signer: Key, over: seq<byte>)

  predicate Verify(key: Key, payload: seq<byte>, sig: Signature) {
    sig.signer == key && sig.over == payload
  }

  /** `sig` exists in the world: its signer put its name to a statement with those bytes. */
  ghost predicate Made(signed: set<(Key, Statement)>, sig: Signature) {
    exists st :: (sig.signer, st) in signed && Payload(st) == sig.over
  }

  /** A signature that verifies for a statement means that very statement was signed. */
  lemma VerifiedMeansSigned(signed: set<(Key, Statement)>, sig: Signature, key: Key, st: Statement)
    requires Made(signed, sig) && Verify(key, Payload(st), sig)
    ensures (key, st) in signed
  {
    var made :| (sig.signer, made) in signed && Payload(made) == sig.over;
    PayloadInjective(made, st);
  }
}
