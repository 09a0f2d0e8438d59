/** The registration protocol of cmd/swe-swe-tunneld/tunnel.go as a step machine.

    Any number of connection handlers run interleaved.  Each has a program counter; every
    call on shared state (identity store, the three limiters, allowlist, session registry,
    certificate issuance) is one atomic step.  What the source leaves to the outside world
    (frames, timers, faults, random nonces, which key a full limiter map evicts) is carried
    by the step, so a run is a list of actions and the machine is a function of it. */
module Protocol {
  import opened Bytes
  import opened Signing
  import opened Naming
  import opened CertErrors
  import L = Limiter

  const HOUR := 3600 * L.SECOND
  const DAY := 24 * HOUR
  const MAX_CLOCK_SKEW := 300 * L.SECOND
  const PROTO_VERSION := 1
  const MAX_KEYS := 100_000

  datatype Config = Config(apex: string, ipMax: int, keyMax: int, refundMax: int, allow: Option<set<Key>>, boot: int)

  // ---------------------------------------------------------------- frames

  predicate Expected(word: string) { word == "register" || word == "proof" || word == "deregister" }

  /** A frame type that the server never expects. */
  type OtherWord = word: string | !Expected(word) witness ""

  /** The type field of a frame. */
  datatype Kind = KRegister | KProof | KDeregister | KOther(word: OtherWord)

  /** A frame as the server's reader delivers it; bad base64 or a wrong length is None. */
  datatype Inbound =
    | ReadError
    | Garbled(kind: Kind)        // the payload does not decode
    | Other(word: OtherWord)
    | RegisterMsg(version: int, unique: Str, pubkey: Option<Key>, ts: int64, sig: Option<Signature>)
    | ProofMsg(sig: Option<Signature>)
    | DeregisterMsg(unique: Str, ts: int64, sig: Option<Signature>)

  function KindOf(f: Inbound): Kind {
    match f
    case ReadError => KOther("")
    case Garbled(k) => k
    case Other(word) => KOther(word)
    case RegisterMsg(_, _, _, _, _) => KRegister
    case ProofMsg(_) => KProof
    case DeregisterMsg(_, _, _) => KDeregister
  }

  /** Why the server says no; `Denials.Text` gives the words on the wire. */
  datatype Reason =
    | ExpectedRegister(got: Kind) | BadRegister | BadVersion(version: int) | InvalidUnique(name: Str)
    | RateLimitedIp | BadPubkey | BadSig | TimestampOutOfRange | SignatureInvalid | NotAuthorized
    | RateLimitedKey | CertIssuanceFailed | CertNotProvisioned | StoreError | KeyMismatch
    | InternalError | ExpectedProof(got: Kind) | BadProof | BadProofSig | LabelTaken(name: Str)
    | UnexpectedFrame(got: Kind) | BadDeregister | UniqueMismatch

  datatype Outbound =
    | RegisterOK(hostname: string)
    | Challenge(nonce: seq<byte>)
    | Deny(reason: Reason, retryAfter: int)
    | DeregisterOK

  /** A peer can only send signatures that somebody made. */
  ghost predicate Sendable(signed: set<(Key, Statement)>, f: Inbound) {
    match f
    case RegisterMsg(_, _, _, _, s) => s.Some? ==> Made(signed, s.value)
    case ProofMsg(s) => s.Some? ==> Made(signed, s.value)
    case DeregisterMsg(_, _, s) => s.Some? ==> Made(signed, s.value)
    case _ => true
  }

  // ---------------------------------------------------------------- state

  datatype Pc =
    | AwaitRegister
    | IpGate | IpHint
    | Authenticate | SkewBudget | SkewCancel
    | AllowGate
    | Lookup
    | KeyGate | KeyHint
    | Grace | GraceBudget | GraceCancelIp | GraceCancelKey
    | Ensure | CertBudget(deny: Reason) | CertCancelIp(deny: Reason) | CertCancelKey(deny: Reason)
    | Claim | Reread
    | Touching
    | Drawing(existing: Key) | AwaitProof(existing: Key, nonce: seq<byte>) | Rotating(existing: Key, nonce: seq<byte>)
    | Joining                                    // handleRegister returned ok
    | Greeting | Serving | Deleting(ts: int64, at: int) | Draining | Leaving
    | Ended

  /** One connection: where it is, who it comes from, the Register it read, what it wrote. */
  datatype Handler = Handler(
    pc: Pc, ip: string, peerCert: Option<Key>,
    unique: Str, pubkey: Option<Key>, ts: int64, sig: Option<Signature>,
    isNew: bool, sent: seq<Outbound>)

  /** A live session; `closed` once a revocation has closed its connection. */
  datatype Session = Session(key: Key, owner: nat, closed: bool)

  /** Everything the handlers share, with the clock and the signatures made so far. */
  datatype Shared = Shared(
    now: int, signed: set<(Key, Statement)>, allow: Option<set<Key>>, store: map<Str, Key>,
    ips: L.Window, keys: L.Window, refunds: L.Window, live: map<Str, Session>)

  datatype World = World(sh: Shared, hs: map<nat, Handler>)

  function NoKey(): Key { seq(32, i => 0) }

  function KeyOf(h: Handler): Key { if h.pubkey.Some? then h.pubkey.value else NoKey() }

  /** Limiter keys are strings; a public key is used as its raw bytes. */
  function KeyText(k: Key): string { seq(32, i requires 0 <= i < 32 => k[i] as char) }

  // ---------------------------------------------------------------- steps

  datatype Event =
    | Recv(f: Inbound)
    | Call(victim: string)       // a limiter call; `victim` is evicted if the map is full
    | Do                         // the pending operation completes
    | Fault                      // the pending operation fails
    | PeerGone                   // the connection is lost
    | CertFailed(err: CertError)
    | Draw(nonce: seq<byte>)

  datatype Action =
    | Tick(to: int)
    | Sign(key: Key, st: Statement)
    | Reload(keys: set<Key>)
    | Revoke                     // closes every live session whose key the list in force lacks
    | OperatorDelete(unique: Str)
    | SweepIps | SweepKeys | SweepRefunds
    | Accept(id: nat, ip: string, peerCert: Option<Key>)
    | Step(id: nat, ev: Event)

  predicate SkewOk(now: int, ts: int64) {
    -MAX_CLOCK_SKEW <= now - ts * L.SECOND <= MAX_CLOCK_SKEW
  }

  predicate Allows(allow: Option<set<Key>>, k: Key) {
    allow.None? || k in allow.value
  }

  /** What a handler does in one step: where it goes and the frame it writes, if any. */
  datatype Move = Move(pc: Pc, out: Option<Outbound>)

  function Go(pc: Pc): Move { Move(pc, None) }

  function Refuse(reason: Reason): Move { Move(Ended, Some(Deny(reason, 0))) }

  function RefuseRate(reason: Reason, wait: nat): Move { Move(Ended, Some(Deny(reason, L.HintSeconds(wait)))) }

  /** A fresh random nonce is one that nobody has signed. */
  ghost predicate NeverProved(signed: set<(Key, Statement)>, nonce: seq<byte>) {
    forall k: Key :: (k, Proof(nonce)) !in signed
  }

  /** What may happen next to a handler. */
  ghost predicate Can(sh: Shared, h: Handler, ev: Event) {
    match h.pc
    case AwaitRegister => ev.Recv? && Sendable(sh.signed, ev.f)
    case AwaitProof(_, _) => ev.Recv? && Sendable(sh.signed, ev.f)
    case Serving => ev == PeerGone || (ev.Recv? && Sendable(sh.signed, ev.f))
    case IpGate => ev.Call? && L.VictimPossible(sh.ips, h.ip, sh.now, ev.victim)
    case KeyGate => ev.Call? && L.VictimPossible(sh.keys, KeyText(KeyOf(h)), sh.now, ev.victim)
    case SkewBudget => ev.Call? && L.VictimPossible(sh.refunds, h.ip, sh.now, ev.victim)
    case GraceBudget => ev.Call? && L.VictimPossible(sh.refunds, h.ip, sh.now, ev.victim)
    case CertBudget(_) => ev.Call? && L.VictimPossible(sh.refunds, h.ip, sh.now, ev.victim)
    case Lookup => ev == Do || ev == Fault
    case Claim => ev == Do || ev == Fault
    case Reread => ev == Do || ev == Fault
    case Rotating(_, _) => ev == Do || ev == Fault
    case Deleting(_, _) => ev == Do || ev == Fault
    case Grace => ev == Do || ev == PeerGone
    case Greeting => ev == Do || ev == PeerGone
    case Draining => ev == PeerGone
    case Ensure => ev == Do || ev.CertFailed?
    case Drawing(_) =>
      ev == Fault || ev == PeerGone ||
      (ev.Draw? && |ev.nonce| == 32 && NeverProved(sh.signed, ev.nonce))
    case Ended => false
    case _ => ev == Do
  }

  function CertDeny(e: CertError): Reason {
    if NOT_PROVISIONED <= e.text then CertNotProvisioned else CertIssuanceFailed
  }

  /** Permanent failures are refused at once; only transient ones may be refunded. */
  function OnCertFailed(e: CertError): Move {
    if IsPermanent(e) then Refuse(CertDeny(e)) else Go(CertBudget(CertDeny(e)))
  }

  function Hostname(cfg: Config, unique: Str): string { TunnelLabel(unique) + "." + cfg.apex }

  function OnRegister(f: Inbound): Move {
    if f == ReadError then Go(Ended)
    else if KindOf(f) != KRegister then Refuse(ExpectedRegister(KindOf(f)))
    else if !f.RegisterMsg? then Refuse(BadRegister)
    else if f.version != PROTO_VERSION then Refuse(BadVersion(f.version))
    else if !ValidUnique(f.unique) then Refuse(InvalidUnique(f.unique))
    else Go(IpGate)
  }

  /** Key and signature shape, clock skew, signature, mTLS peer key, in that order. */
  function OnAuthenticate(now: int, h: Handler): Move {
    if h.pubkey.None? then Refuse(BadPubkey)
    else if h.sig.None? then Refuse(BadSig)
    else if !SkewOk(now, h.ts) then Go(SkewBudget)
    else if !Verify(KeyOf(h), Payload(Register(KeyOf(h), h.unique, h.ts)), h.sig.value) then Refuse(SignatureInvalid)
    else if h.peerCert.Some? && h.peerCert.value != KeyOf(h) then Refuse(NotAuthorized)
    else Go(AllowGate)
  }

  /** One more refund from the per-IP budget shared by all refund paths? */
  predicate MayRefund(sh: Shared, ip: string) {
    sh.refunds.max > 0 && L.Admits(sh.refunds, ip, sh.now)
  }

  function OnProof(f: Inbound, existing: Key, nonce: seq<byte>): Move {
    if f == ReadError then Go(Ended)
    else if KindOf(f) != KProof then Refuse(ExpectedProof(KindOf(f)))
    else if !f.ProofMsg? then Refuse(BadProof)
    else if f.sig.None? then Refuse(BadProofSig)
    else if !Verify(existing, Payload(Proof(nonce)), f.sig.value) then Refuse(KeyMismatch)
    else Go(Rotating(existing, nonce))
  }

  /** The verdict on a post-register frame of a session: a reason to deny it, or None when it
      is a Deregister of the session's own name, in time and signed by the session's key. */
  function DeregisterFault(now: int, unique: Str, key: Key, f: Inbound): Option<Reason> {
    if KindOf(f) != KDeregister then Some(UnexpectedFrame(KindOf(f)))
    else if !f.DeregisterMsg? then Some(BadDeregister)
    else if f.unique != unique then Some(UniqueMismatch)
    else if !SkewOk(now, f.ts) then Some(TimestampOutOfRange)
    else if f.sig.None? then Some(BadSig)
    else if !Verify(key, Payload(Deregister(f.unique, f.ts)), f.sig.value) then Some(SignatureInvalid)
    else None
  }

  function OnControl(now: int, h: Handler, f: Inbound): Move {
    if f == ReadError then Go(Draining)
    else match DeregisterFault(now, h.unique, KeyOf(h), f)
         case Some(reason) => Move(Serving, Some(Deny(reason, 0)))
         case None => Go(Deleting(f.ts, now))
  }

  function OnLookup(store: map<Str, Key>, h: Handler): Move {
    if h.unique !in store then Go(KeyGate)
    else if store[h.unique] == KeyOf(h) then Go(Touching)
    else Go(Drawing(store[h.unique]))
  }

  function OnReread(store: map<Str, Key>, h: Handler): Move {
    if h.unique !in store then Refuse(StoreError)
    else if store[h.unique] != KeyOf(h) then Refuse(KeyMismatch)
    else Go(Touching)
  }

  /** The handler's move. */
  function Decide(cfg: Config, sh: Shared, h: Handler, ev: Event): Move {
    match h.pc
    case AwaitRegister => if ev.Recv? then OnRegister(ev.f) else Go(Ended)
    case IpGate => Go(if L.Admits(sh.ips, h.ip, sh.now) then Authenticate else IpHint)
    case IpHint => RefuseRate(RateLimitedIp, L.RetryWait(sh.ips, h.ip, sh.now))
    case Authenticate => OnAuthenticate(sh.now, h)
    case SkewBudget => if MayRefund(sh, h.ip) then Go(SkewCancel) else Refuse(TimestampOutOfRange)
    case SkewCancel => Refuse(TimestampOutOfRange)
    case AllowGate => if Allows(sh.allow, KeyOf(h)) then Go(Lookup) else Refuse(NotAuthorized)
    case Lookup => if ev.Do? then OnLookup(sh.store, h) else Refuse(StoreError)
    case KeyGate => Go(if L.Admits(sh.keys, KeyText(KeyOf(h)), sh.now) then Grace else KeyHint)
    case KeyHint => RefuseRate(RateLimitedKey, L.RetryWait(sh.keys, KeyText(KeyOf(h)), sh.now))
    case Grace => Go(if ev.Do? then Ensure else GraceBudget)
    case GraceBudget => Go(if MayRefund(sh, h.ip) then GraceCancelIp else Ended)
    case GraceCancelIp => Go(GraceCancelKey)
    case GraceCancelKey => Go(Ended)
    case Ensure => if ev.CertFailed? then OnCertFailed(ev.err) else Go(Claim)
    case CertBudget(deny) => if MayRefund(sh, h.ip) then Go(CertCancelIp(deny)) else Refuse(deny)
    case CertCancelIp(deny) => Go(CertCancelKey(deny))
    case CertCancelKey(deny) => Refuse(deny)
    case Claim => if !ev.Do? then Refuse(StoreError) else Go(if h.unique in sh.store then Reread else Joining)
    case Reread => if ev.Do? then OnReread(sh.store, h) else Refuse(StoreError)
    case Touching => Go(Joining)
    case Drawing(existing) =>
      if ev.Draw? then Move(AwaitProof(existing, ev.nonce), Some(Challenge(ev.nonce)))
      else if ev.Fault? then Refuse(InternalError)
      else Go(Ended)
    case AwaitProof(existing, nonce) => if ev.Recv? then OnProof(ev.f, existing, nonce) else Go(Ended)
    case Rotating(_, _) => if ev.Do? then Go(Joining) else Refuse(StoreError)
    case Joining => if TunnelLabel(h.unique) in sh.live then Refuse(LabelTaken(TunnelLabel(h.unique))) else Go(Greeting)
    case Greeting => if ev.Do? then Move(Serving, Some(RegisterOK(Hostname(cfg, h.unique)))) else Go(Leaving)
    case Serving => if ev.Recv? then OnControl(sh.now, h, ev.f) else Go(Leaving)
    case Deleting(_, _) =>
      if ev.Do? then Move(Leaving, Some(DeregisterOK)) else Move(Serving, Some(Deny(StoreError, 0)))
    case Draining => Go(Leaving)
    case Leaving => Go(Ended)
    case Ended => Go(Ended)
  }

  /** The connection remembers the Register frame it opened with. */
  function Noted(h: Handler, ev: Event): Handler {
    if h.pc.AwaitRegister? && ev.Recv? && ev.f.RegisterMsg?
    then h.(unique := ev.f.unique, pubkey := ev.f.pubkey, ts := ev.f.ts, sig := ev.f.sig)
    else h
  }

  /** The handler after its step. */
  function Moved(cfg: Config, sh: Shared, h: Handler, ev: Event): Handler {
    var m := Decide(cfg, sh, h, ev);
    Noted(h, ev).(pc := m.pc,
                  isNew := if m.pc.Joining? then h.pc.Claim? else h.isNew,
                  sent := if m.out.Some? then h.sent + [m.out.value] else h.sent)
  }

  /** The rows after a handler's step: Put, Rotate and Delete, each keyed by name only. */
  function StoreAfter(store: map<Str, Key>, h: Handler, ev: Event): map<Str, Key> {
    match (h.pc, ev)
    case (Claim, Do) => if h.unique in store then store else store[h.unique := KeyOf(h)]
    case (Rotating(_, _), Do) => if h.unique in store then store[h.unique := KeyOf(h)] else store
    case (Deleting(_, _), Do) => store - {h.unique}
    case _ => store
  }

  function IpsAfter(sh: Shared, h: Handler, ev: Event): L.Window {
    match (h.pc, ev)
    case (IpGate, Call(victim)) => L.AllowAt(sh.ips, h.ip, sh.now, victim)
    case (IpHint, _) => L.RetryAfterAt(sh.ips, h.ip, sh.now)
    case (SkewCancel, _) => L.CancelLatest(sh.ips, h.ip)
    case (GraceCancelIp, _) => L.CancelLatest(sh.ips, h.ip)
    case (CertCancelIp(_), _) => L.CancelLatest(sh.ips, h.ip)
    case _ => sh.ips
  }

  function KeysAfter(sh: Shared, h: Handler, ev: Event): L.Window {
    match (h.pc, ev)
    case (KeyGate, Call(victim)) => L.AllowAt(sh.keys, KeyText(KeyOf(h)), sh.now, victim)
    case (KeyHint, _) => L.RetryAfterAt(sh.keys, KeyText(KeyOf(h)), sh.now)
    case (GraceCancelKey, _) => L.CancelLatest(sh.keys, KeyText(KeyOf(h)))
    case (CertCancelKey(_), _) => L.CancelLatest(sh.keys, KeyText(KeyOf(h)))
    case _ => sh.keys
  }

  predicate BudgetPc(pc: Pc) { pc.SkewBudget? || pc.GraceBudget? || pc.CertBudget? }

  function RefundsAfter(sh: Shared, h: Handler, ev: Event): L.Window {
    if BudgetPc(h.pc) && ev.Call? && sh.refunds.max > 0 then L.AllowAt(sh.refunds, h.ip, sh.now, ev.victim)
    else sh.refunds
  }

  /** The registry's live sessions: add refuses a live label, remove ignores a stale owner. */
  function LiveAfter(live: map<Str, Session>, id: nat, h: Handler): map<Str, Session> {
    var name := TunnelLabel(h.unique);
    if h.pc.Joining? && name !in live then live[name := Session(KeyOf(h), id, false)]
    else if h.pc.Leaving? && name in live && live[name].owner == id then live - {name}
    else live
  }

  /** RevokeMissing: the index entries stay until the handlers remove them. */
  function Revoked(live: map<Str, Session>, allow: Option<set<Key>>): map<Str, Session> {
    map name | name in live :: live[name].(closed := live[name].closed || !Allows(allow, live[name].key))
  }

  /** The shared state after a handler's step. */
  function Effect(sh: Shared, id: nat, h: Handler, ev: Event): Shared {
    sh.(store := StoreAfter(sh.store, h, ev), live := LiveAfter(sh.live, id, h),
        ips := IpsAfter(sh, h, ev), keys := KeysAfter(sh, h, ev), refunds := RefundsAfter(sh, h, ev))
  }

  ghost predicate Enabled(w: World, a: Action) {
    match a
    case Tick(to) => w.sh.now <= to
    case Reload(_) => w.sh.allow.Some?
    case Accept(id, _, _) => id !in w.hs
    case Step(id, ev) => id in w.hs && Can(w.sh, w.hs[id], ev)
    case _ => true
  }

  function Connection(ip: string, peerCert: Option<Key>): Handler {
    Handler(AwaitRegister, ip, peerCert, "", None, 0, None, false, [])
  }

  function Next(cfg: Config, w: World, a: Action): World {
    match a
    case Tick(to) => w.(sh := w.sh.(now := to))
    case Sign(k, st) => w.(sh := w.sh.(signed := w.sh.signed + {(k, st)}))
    case Reload(keys) => w.(sh := w.sh.(allow := Some(keys)))
    case Revoke => w.(sh := w.sh.(live := Revoked(w.sh.live, w.sh.allow)))
    case OperatorDelete(u) => w.(sh := w.sh.(store := w.sh.store - {u}))
    case SweepIps => w.(sh := w.sh.(ips := L.PruneAt(w.sh.ips, w.sh.now)))
    case SweepKeys => w.(sh := w.sh.(keys := L.PruneAt(w.sh.keys, w.sh.now)))
    case SweepRefunds => w.(sh := w.sh.(refunds := L.PruneAt(w.sh.refunds, w.sh.now)))
    case Accept(id, ip, peer) => w.(hs := w.hs[id := Connection(ip, peer)])
    case Step(id, ev) =>
      if id !in w.hs then w
      else World(Effect(w.sh, id, w.hs[id], ev), w.hs[id := Moved(cfg, w.sh, w.hs[id], ev)])
  }

  // ---------------------------------------------------------------- runs

  datatype Run = Start | Then(prior: Run, act: Action)

  function Boot(cfg: Config): World {
    World(Shared(cfg.boot, {}, cfg.allow, map[],
                 L.Window(cfg.ipMax, HOUR, MAX_KEYS, map[]),
                 L.Window(cfg.keyMax, DAY, MAX_KEYS, map[]),
                 L.Window(cfg.refundMax, HOUR, MAX_KEYS, map[]), map[]), map[])
  }

  function Exec(cfg: Config, r: Run): World {
    match r
    case Start => Boot(cfg)
    case Then(p, a) => Next(cfg, Exec(cfg, p), a)
  }

  ghost predicate Valid(cfg: Config, r: Run) {
    r.Then? ==> Valid(cfg, r.prior) && Enabled(Exec(cfg, r.prior), r.act)
  }

  // ---------------------------------------------------------------- where judging a frame can lead

  lemma RegisterLeads(f: Inbound)
    ensures OnRegister(f).pc == Ended || OnRegister(f).pc == IpGate
  {}

  lemma AuthenticateLeads(now: int, h: Handler)
    ensures OnAuthenticate(now, h).pc in {Ended, SkewBudget, AllowGate}
  {}

  lemma ProofLeads(f: Inbound, existing: Key, nonce: seq<byte>)
    ensures OnProof(f, existing, nonce).pc in {Ended, Rotating(existing, nonce)}
  {}

  lemma ControlLeads(now: int, h: Handler, f: Inbound)
    ensures var pc := OnControl(now, h, f).pc; pc.Draining? || pc.Serving? || pc.Deleting?
  {}

  /** What an action does to one connection. */
  lemma HandlerNext(cfg: Config, w: World, a: Action, id: nat)
    requires Enabled(w, a) && id in Next(cfg, w, a).hs
    ensures id !in w.hs ==> a.Accept? && a.id == id && Next(cfg, w, a).hs[id] == Connection(a.ip, a.peerCert)
    ensures id in w.hs ==> Next(cfg, w, a).hs[id] ==
                           if a.Step? && a.id == id then Moved(cfg, w.sh, w.hs[id], a.ev) else w.hs[id]
    ensures a.Step? && a.id == id ==> id in w.hs && Can(w.sh, w.hs[id], a.ev)
  {}
}
