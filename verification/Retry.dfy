/** Which refusals another attempt can change.  A Register frame is hopeless if no run of any
    configuration ever returns ok on it; the reasons that the client gives up on are measured
    against that. */
module Retry {
  import opened Bytes
  import opened Signing
  import opened Naming
  import opened CertErrors
  import opened Protocol
  import opened ProtocolSafety
  import opened Runs
  import H = Handshake
  import O = Outcomes
  import K = WrongKey
  import B = RefundBudget
  import L = Limiter

  // ---------------------------------------------------------------- hopeless frames

  ghost predicate OpensHere(w: World, a: Action, id: nat, f: Inbound) {
    At(w, a, id) && w.hs[id].pc.AwaitRegister? && a.ev == Recv(f)
  }

  /** The connection opened with the frame `f`. */
  ghost predicate OpenedWith(cfg: Config, r: Run, id: nat, f: Inbound) {
    r.Then? && (OpenedWith(cfg, r.prior, id, f) || OpensHere(Exec(cfg, r.prior), r.act, id, f))
  }

  predicate Authentic(u: Str, pubkey: Option<Key>, ts: int64, sig: Option<Signature>, peer: Option<Key>) {
    && pubkey.Some? && sig.Some? && Verify(pubkey.value, Payload(Register(pubkey.value, u, ts)), sig.value)
    && (peer.None? || peer == pubkey)
  }

  /** The frame is not a well-formed Register of this protocol version for a valid name, or its
      signature or the connection's certificate does not fit its key. */
  predicate Hopeless(f: Inbound, peer: Option<Key>) {
    !WellOpened(f) || !Authentic(f.unique, f.pubkey, f.ts, f.sig, peer)
  }

  /** A Register of protocol version 1 for a valid name. */
  predicate WellOpened(f: Inbound) { f.RegisterMsg? && f.version == 1 && ValidUnique(f.unique) }

  /** The handler carries the frame it opened with. */
  ghost predicate Carries(h: Handler, f: Inbound) {
    if WellOpened(f)
    then !h.pc.AwaitRegister? && h.unique == f.unique && h.pubkey == f.pubkey && h.ts == f.ts &&
      h.sig == f.sig
    else h.pc.Ended?
  }

  lemma OpeningCarries(cfg: Config, sh: Shared, h: Handler, f: Inbound)
    requires h.pc.AwaitRegister?
    ensures Carries(Moved(cfg, sh, h, Recv(f)), f)
  {}

  lemma CarriesStays(cfg: Config, sh: Shared, h: Handler, ev: Event, f: Inbound)
    requires Can(sh, h, ev) && Carries(h, f)
    ensures Carries(Moved(cfg, sh, h, ev), f)
  {
    FieldsKept(cfg, sh, h, ev);
    NotBack(cfg, sh, h, ev);
  }

  lemma NotBack(cfg: Config, sh: Shared, h: Handler, ev: Event)
    ensures !Decide(cfg, sh, h, ev).pc.AwaitRegister?
  {}

  lemma {:induction false} KeepsFrame(cfg: Config, r: Run, id: nat, f: Inbound)
    requires Valid(cfg, r) && OpenedWith(cfg, r, id, f)
    ensures id in Exec(cfg, r).hs && Carries(Exec(cfg, r).hs[id], f)
  {
    var w := Exec(cfg, r.prior);
    if OpenedWith(cfg, r.prior, id, f) { KeepsFrame(cfg, r.prior, id, f); }
    O.StaysKnown(cfg, w, r.act, id);
    HandlerNext(cfg, w, r.act, id);
    if OpensHere(w, r.act, id, f) { OpeningCarries(cfg, w.sh, w.hs[id], f); }
    else if At(w, r.act, id) { CarriesStays(cfg, w.sh, w.hs[id], r.act.ev, f); }
  }

  /** A handler on a hopeless frame is kept out of everything behind authentication. */
  predicate KeptOut(pc: Pc) { !PastAuth(pc) && !pc.AwaitRegister? }

  lemma KeptOutStep(cfg: Config, sh: Shared, h: Handler, ev: Event, f: Inbound)
    requires Can(sh, h, ev) && Carries(h, f) && Hopeless(f, h.peerCert) && KeptOut(h.pc)
    ensures KeptOut(Decide(cfg, sh, h, ev).pc) && !ReturnsOk(sh, h, ev)
  {}

  lemma {:induction false} HopelessKeptOut(cfg: Config, r: Run, id: nat, f: Inbound)
    requires Valid(cfg, r) && OpenedWith(cfg, r, id, f) && Hopeless(f, Peer(cfg, r, id))
    ensures id in Exec(cfg, r).hs && KeptOut(Exec(cfg, r).hs[id].pc) && !O.HasReturned(cfg, r, id)
  {
    if OpenedWith(cfg, r.prior, id, f) {
      KeepsFrame(cfg, r.prior, id, f);
      PeerStays(cfg, r, id);
      HopelessKeptOut(cfg, r.prior, id, f);
      KeptOutNext(cfg, r.prior, Exec(cfg, r.prior), r.act, id, f);
    } else {
      KeptOutFirst(cfg, r.prior, Exec(cfg, r.prior), r.act, id, f);
    }
  }

  lemma KeptOutNext(cfg: Config, r: Run, w: World, a: Action, id: nat, f: Inbound)
    requires w == Exec(cfg, r) && Enabled(w, a) && id in w.hs && KeptOut(w.hs[id].pc) && !O.HasReturned(cfg, r, id)
    requires Carries(w.hs[id], f) && Hopeless(f, w.hs[id].peerCert)
    ensures id in Next(cfg, w, a).hs && KeptOut(Next(cfg, w, a).hs[id].pc) && !O.HasReturned(cfg, Then(r, a), id)
  {
    O.StaysKnown(cfg, w, a, id);
    HandlerNext(cfg, w, a, id);
    if At(w, a, id) { KeptOutStep(cfg, w.sh, w.hs[id], a.ev, f); }
  }

  lemma KeptOutFirst(cfg: Config, r: Run, w: World, a: Action, id: nat, f: Inbound)
    requires Valid(cfg, r) && w == Exec(cfg, r) && Enabled(w, a) && OpensHere(w, a, id, f)
    ensures id in Next(cfg, w, a).hs && KeptOut(Next(cfg, w, a).hs[id].pc) && !O.HasReturned(cfg, Then(r, a), id)
  {
    O.StaysKnown(cfg, w, a, id);
    HandlerNext(cfg, w, a, id);
    OpeningLeads(cfg, w.sh, w.hs[id], f);
    O.FitsAlways(cfg, r, id);
  }

  lemma OpeningLeads(cfg: Config, sh: Shared, h: Handler, f: Inbound)
    requires h.pc.AwaitRegister?
    ensures KeptOut(Decide(cfg, sh, h, Recv(f)).pc)
  {}

  /** The key of the connection's TLS certificate. */
  ghost function Peer(cfg: Config, r: Run, id: nat): Option<Key> {
    if id in Exec(cfg, r).hs then Exec(cfg, r).hs[id].peerCert else None
  }

  lemma PeerStays(cfg: Config, r: Run, id: nat)
    requires Valid(cfg, r) && r.Then? && id in Exec(cfg, r.prior).hs
    ensures Peer(cfg, r, id) == Peer(cfg, r.prior, id)
  {
    var w := Exec(cfg, r.prior);
    O.StaysKnown(cfg, w, r.act, id);
    HandlerNext(cfg, w, r.act, id);
    if At(w, r.act, id) { FieldsKept(cfg, w.sh, w.hs[id], r.act.ev); }
  }

  /** The frames of the program's own client: its Register is hopeless only for a bad name or a TLS certificate of
      another key, and its Proof convinces exactly a server that stored its key. */
  lemma HonestFrames(c: H.Client, peer: Option<Key>, existing: Key, nonce: seq<byte>)
    ensures Hopeless(H.RegisterOf(c), peer) <==> !ValidUnique(c.unique) || (peer.Some? && peer.value != c.key)
    ensures OnProof(H.ProofOf(c, nonce), existing, nonce) ==
            if existing == c.key then Go(Rotating(existing, nonce)) else Refuse(KeyMismatch)
  {}

  // ---------------------------------------------------------------- hopeless is exact

  /** Some run of some configuration returns ok on the frame. */
  ghost predicate CanSucceed(f: Inbound, peer: Option<Key>) {
    exists cfg, r, id :: Succeeds(cfg, r, id, f, peer)
  }

  ghost predicate Succeeds(cfg: Config, r: Run, id: nat, f: Inbound, peer: Option<Key>) {
    Valid(cfg, r) && OpenedWith(cfg, r, id, f) && Peer(cfg, r, id) == peer && O.HasReturned(cfg, r, id)
  }

  function CallerOf(f: Inbound, peer: Option<Key>): Caller
    requires f.RegisterMsg? && f.pubkey.Some?
  {
    Caller(f.unique, f.pubkey.value, f.ts, peer)
  }

  lemma HopefulIsOpening(f: Inbound, peer: Option<Key>)
    requires !Hopeless(f, peer)
    ensures f.RegisterMsg? && f.pubkey.Some? && Sound(CallerOf(f, peer)) && f == Opening(CallerOf(f, peer))
  {}

  /** A frame is hopeless exactly when no run of any configuration ever returns ok on it. */
  lemma HopelessExactly(f: Inbound, peer: Option<Key>)
    ensures Hopeless(f, peer) <==> !CanSucceed(f, peer)
  {
    if CanSucceed(f, peer) {
      var cfg, r, id :| Succeeds(cfg, r, id, f, peer);
      if Hopeless(f, peer) { HopelessKeptOut(cfg, r, id, f); }
    }
    if !Hopeless(f, peer) {
      HopefulIsOpening(f, peer);
      var c := CallerOf(f, peer);
      var cfg := Open(None, c.ts * L.SECOND);
      assert Reached(cfg, Start, Boot(cfg));
      var r := SucceedsOn(cfg, Start, Boot(cfg), 0, c);
      assert Succeeds(cfg, r, 0, f, peer);
    }
  }

  lemma {:induction false} OpenedStays(cfg: Config, r': Run, r: Run, id: nat, f: Inbound)
    requires Extends(r', r) && OpenedWith(cfg, r, id, f)
    ensures OpenedWith(cfg, r', id, f)
  {
    if r' != r { OpenedStays(cfg, r'.prior, r, id, f); }
  }

  lemma SucceedsOn(cfg: Config, r: Run, w: World, id: nat, c: Caller) returns (r': Run)
    requires Reached(cfg, r, w) && id !in w.hs && Sound(c) && SkewOk(w.sh.now, c.ts) && Allows(w.sh.allow, c.key)
    requires c.unique !in w.sh.store
    ensures Succeeds(cfg, r', id, Opening(c), c.peer)
    ensures Extends(r', r) && Exec(cfg, r') == With(Owned(Signed(w, c.key, Claimed(c)), c.unique, c.key), id, Winner(c))
  {
    var o;
    r', o := TakesFreeName(cfg, r, w, id, c);
    OpenedStays(cfg, r', o, id, Opening(c));
    O.FitsAlways(cfg, r', id);
  }

  // ---------------------------------------------------------------- where a denial comes from

  /** The run `s` ends with the step that denies the waiting client of `id` with `d`. */
  ghost predicate DeniesLast(cfg: Config, s: Run, id: nat, d: Reason, hint: int) {
    s.Then? && Valid(cfg, s) && At(Exec(cfg, s.prior), s.act, id) &&
    var w := Exec(cfg, s.prior);
    H.ClientAfter(w.hs[id].sent).Waiting? && Decide(cfg, w.sh, w.hs[id], s.act.ev).out == Some(Deny(d, hint))
  }

  lemma {:induction false} DenialStep(cfg: Config, r: Run, id: nat, d: Reason, hint: int) returns (s: Run)
    requires Valid(cfg, r) && id in Exec(cfg, r).hs && H.ClientAfter(Exec(cfg, r).hs[id].sent) == H.Denied(d, hint)
    ensures Extends(r, s) && DeniesLast(cfg, s, id, d, hint)
  {
    var w := Exec(cfg, r.prior);
    HandlerNext(cfg, w, r.act, id);
    if H.ClientAfter(w.hs[id].sent) == H.Denied(d, hint) {
      s := DenialStep(cfg, r.prior, id, d, hint);
    } else {
      K.ClientMoves(cfg, w.sh, w.hs[id], r.act.ev, Exec(cfg, r).hs[id]);
      s := r;
    }
  }

  /** A client that still waits is not talking to a session. */
  lemma WaitingStep(cfg: Config, s: Run, id: nat, d: Reason, hint: int, h: Handler)
    requires DeniesLast(cfg, s, id, d, hint) && h == Exec(cfg, s.prior).hs[id]
    ensures !H.Over(h.pc)
  {
    H.ClientFollows(cfg, s.prior, id);
    H.ServerSpeaksInOrder(cfg, s.prior, id);
    SpeakerIsNotOver(cfg, Exec(cfg, s.prior).sh, h, s.act.ev);
  }

  lemma SpeakerIsNotOver(cfg: Config, sh: Shared, h: Handler, ev: Event)
    requires Can(sh, h, ev) && Decide(cfg, sh, h, ev).out.Some?
    requires H.Understood(cfg, h.unique, h.sent) && H.PhaseOk(h.pc, H.PhaseOf(h.sent)) && H.ClientAfter(h.sent).Waiting?
    ensures !H.Over(h.pc)
  {}

  /** No refund carries another denial than a failed issuance. */
  lemma CarriedDeny(cfg: Config, r: Run, id: nat, h: Handler)
    requires Valid(cfg, r) && id in Exec(cfg, r).hs && h == Exec(cfg, r).hs[id]
    ensures O.CarriesDeny(h.pc) ==> h.pc.deny == CertIssuanceFailed
  {
    if O.CarriesDeny(h.pc) { B.OnlyTransientRefunded(cfg, r, id, h.pc.deny); }
  }

  // ---------------------------------------------------------------- reasons that the frame decides

  /** The reasons that judge the opening frame. */
  predicate FrameReason(d: Reason) {
    d.ExpectedRegister? || d.BadRegister? || d.BadVersion? || d.InvalidUnique? || d.BadPubkey? || d.BadSig? ||
      d.SignatureInvalid?
  }

  /** What each of them says of the frame. */
  predicate FrameFault(f: Inbound, d: Reason) {
    match d
    case ExpectedRegister(got) => f != ReadError && KindOf(f) == got && got != KRegister
    case BadRegister => f == Garbled(KRegister)
    case BadVersion(v) => f.RegisterMsg? && f.version == v && v != 1
    case InvalidUnique(name) => f.RegisterMsg? && f.version == 1 && f.unique == name && !ValidUnique(name)
    case BadPubkey => WellOpened(f) && f.pubkey.None?
    case BadSig => WellOpened(f) && f.pubkey.Some? && f.sig.None?
    case SignatureInvalid =>
      && WellOpened(f) && f.pubkey.Some? && f.sig.Some?
      && !Verify(f.pubkey.value, Payload(Register(f.pubkey.value, f.unique, f.ts)), f.sig.value)
    case _ => false
  }

  lemma FrameReasonComesFrom(cfg: Config, sh: Shared, h: Handler, ev: Event, d: Reason, hint: int)
    requires Can(sh, h, ev) && !H.Over(h.pc) && FrameReason(d) && Decide(cfg, sh, h, ev).out == Some(Deny(d, hint))
    requires O.CarriesDeny(h.pc) ==> h.pc.deny == CertIssuanceFailed
    ensures h.pc.AwaitRegister? || h.pc.Authenticate?
  {}

  lemma {:induction false} HasOpened(cfg: Config, r: Run, id: nat) returns (f: Inbound)
    requires Valid(cfg, r) && id in Exec(cfg, r).hs && !Exec(cfg, r).hs[id].pc.AwaitRegister?
    ensures OpenedWith(cfg, r, id, f)
  {
    var w := Exec(cfg, r.prior);
    HandlerNext(cfg, w, r.act, id);
    if w.hs[id].pc.AwaitRegister? { f := r.act.ev.f; } else { f := HasOpened(cfg, r.prior, id); }
  }

  lemma BadOpening(cfg: Config, sh: Shared, h: Handler, f: Inbound, d: Reason, hint: int)
    requires h.pc.AwaitRegister? && Decide(cfg, sh, h, Recv(f)).out == Some(Deny(d, hint))
    ensures Hopeless(f, h.peerCert) && FrameFault(f, d)
  {}

  lemma BadAuthentication(cfg: Config, sh: Shared, h: Handler, ev: Event, f: Inbound, d: Reason, hint: int)
    requires h.pc.Authenticate? && Decide(cfg, sh, h, ev).out == Some(Deny(d, hint)) && FrameReason(d) && Carries(h, f)
    ensures Hopeless(f, h.peerCert) && FrameFault(f, d)
  {}

  lemma {:induction false} PeerSince(cfg: Config, r': Run, r: Run, id: nat)
    requires Valid(cfg, r') && Extends(r', r) && id in Exec(cfg, r).hs
    ensures id in Exec(cfg, r').hs && Peer(cfg, r', id) == Peer(cfg, r, id)
  {
    if r' != r {
      PeerSince(cfg, r'.prior, r, id);
      PeerStays(cfg, r', id);
      O.StaysKnown(cfg, Exec(cfg, r'.prior), r'.act, id);
    }
  }

  lemma DeniedFrameHopeless(cfg: Config, s: Run, id: nat, d: Reason, hint: int, h: Handler) returns (f: Inbound)
    requires DeniesLast(cfg, s, id, d, hint) && FrameReason(d) && h == Exec(cfg, s.prior).hs[id]
    ensures OpenedWith(cfg, s, id, f) && Hopeless(f, h.peerCert) && FrameFault(f, d)
  {
    var sh, ev := Exec(cfg, s.prior).sh, s.act.ev;
    WaitingStep(cfg, s, id, d, hint, h);
    CarriedDeny(cfg, s.prior, id, h);
    FrameReasonComesFrom(cfg, sh, h, ev, d, hint);
    if h.pc.AwaitRegister? {
      f := ev.f;
      BadOpening(cfg, sh, h, f, d, hint);
    } else {
      f := HasOpened(cfg, s.prior, id);
      KeepsFrame(cfg, s.prior, id, f);
      BadAuthentication(cfg, sh, h, ev, f, d, hint);
    }
  }

  /** A client that is told one of these reasons opened with a hopeless frame: no run would ever
      have returned ok on it. */
  lemma FrameReasonIsHopeless(cfg: Config, r: Run, id: nat, d: Reason, hint: int) returns (f: Inbound)
    requires Valid(cfg, r) && id in Exec(cfg, r).hs && FrameReason(d)
    requires H.ClientAfter(Exec(cfg, r).hs[id].sent) == H.Denied(d, hint)
    ensures OpenedWith(cfg, r, id, f) && FrameFault(f, d)
    ensures Hopeless(f, Peer(cfg, r, id)) && !CanSucceed(f, Peer(cfg, r, id))
  {
    var s := DenialStep(cfg, r, id, d, hint);
    f := DeniedFrameHopeless(cfg, s, id, d, hint, Exec(cfg, s.prior).hs[id]);
    OpenedStays(cfg, r, s, id, f);
    PeerStays(cfg, s, id);
    O.StaysKnown(cfg, Exec(cfg, s.prior), s.act, id);
    PeerSince(cfg, r, s, id);
    HopelessExactly(f, Peer(cfg, r, id));
  }

  lemma IllOpening(cfg: Config, sh: Shared, h: Handler, f: Inbound) returns (d: Reason)
    requires h.pc.AwaitRegister? && !WellOpened(f) && f != ReadError
    ensures FrameFault(f, d) && Decide(cfg, sh, h, Recv(f)) == Move(Ended, Some(Deny(d, 0)))
  {
    d := if KindOf(f) != KRegister then ExpectedRegister(KindOf(f))
         else if f.Garbled? then BadRegister
         else if f.version != 1 then BadVersion(f.version)
         else InvalidUnique(f.unique);
  }

  /** Whoever opens with anything but a Register of version 1 for a valid name is told what is wrong with it. */
  lemma {:induction false} IllOpenedIsTold(cfg: Config, r: Run, id: nat, f: Inbound) returns (d: Reason)
    requires Valid(cfg, r) && OpenedWith(cfg, r, id, f) && !WellOpened(f) && f != ReadError
    ensures FrameFault(f, d) && Told(cfg, r, id, d, 0) && Exec(cfg, r).hs[id].pc.Ended?
  {
    var w := Exec(cfg, r.prior);
    if OpenedWith(cfg, r.prior, id, f) {
      d := IllOpenedIsTold(cfg, r.prior, id, f);
      O.StaysKnown(cfg, w, r.act, id);
      HandlerNext(cfg, w, r.act, id);
    } else {
      d := IllOpening(cfg, w.sh, w.hs[id], f);
      K.SilentSoFar(cfg, r.prior, w, id);
      K.FirstWordIsNo(cfg, w, r.act, id, d);
    }
  }

  /** A connection opens once. */
  lemma {:induction false} OpenedOnce(cfg: Config, r: Run, id: nat, f: Inbound, g: Inbound)
    requires Valid(cfg, r) && OpenedWith(cfg, r, id, f) && OpenedWith(cfg, r, id, g)
    ensures f == g
  {
    if OpenedWith(cfg, r.prior, id, f) { KeepsFrame(cfg, r.prior, id, f); }
    if OpenedWith(cfg, r.prior, id, g) { KeepsFrame(cfg, r.prior, id, g); }
    if OpenedWith(cfg, r.prior, id, f) && OpenedWith(cfg, r.prior, id, g) { OpenedOnce(cfg, r.prior, id, f, g); }
  }

  ghost predicate Told(cfg: Config, r: Run, id: nat, d: Reason, hint: int) {
    Valid(cfg, r) && id in Exec(cfg, r).hs && H.ClientAfter(Exec(cfg, r).hs[id].sent) == H.Denied(d, hint)
  }

  /** Whoever is told the reason has opened with a frame that no run would ever have accepted. */
  ghost predicate FrameDetermined(d: Reason) {
    forall cfg, r, id, hint, f :: Told(cfg, r, id, d, hint) && OpenedWith(cfg, r, id, f) ==>
      !CanSucceed(f, Peer(cfg, r, id))
  }

  lemma FrameReasonsDetermined(d: Reason)
    requires FrameReason(d)
    ensures FrameDetermined(d)
  {
    forall cfg, r, id, hint, f | Told(cfg, r, id, d, hint) && OpenedWith(cfg, r, id, f)
      ensures !CanSucceed(f, Peer(cfg, r, id))
    {
      var g := FrameReasonIsHopeless(cfg, r, id, d, hint);
      OpenedOnce(cfg, r, id, f, g);
    }
  }

  /** Reasons of the control loop, and a complaint about a proof that is one: nobody registering is
      told these. */
  predicate NotForRegistering(d: Reason) { d.UniqueMismatch? || d.BadDeregister? || d == ExpectedProof(KProof) }

  lemma NeverSaid(cfg: Config, sh: Shared, h: Handler, ev: Event, d: Reason, hint: int)
    requires Can(sh, h, ev) && !H.Over(h.pc) && NotForRegistering(d)
    requires O.CarriesDeny(h.pc) ==> h.pc.deny == CertIssuanceFailed
    ensures Decide(cfg, sh, h, ev).out != Some(Deny(d, hint))
  {}

  lemma NeverTold(cfg: Config, r: Run, id: nat, d: Reason, hint: int)
    requires NotForRegistering(d)
    ensures !Told(cfg, r, id, d, hint)
  {
    if Told(cfg, r, id, d, hint) {
      var s := DenialStep(cfg, r, id, d, hint);
      var w := Exec(cfg, s.prior);
      WaitingStep(cfg, s, id, d, hint, w.hs[id]);
      CarriedDeny(cfg, s.prior, id, w.hs[id]);
      NeverSaid(cfg, w.sh, w.hs[id], s.act.ev, d, hint);
    }
  }

  // ---------------------------------------------------------------- cert not provisioned

  ghost predicate UnprovisionedHere(w: World, a: Action, id: nat) {
    At(w, a, id) && w.hs[id].pc.Ensure? && a.ev.CertFailed? && NOT_PROVISIONED <= a.ev.err.text
  }

  /** EnsureName answered the connection that the certificate is not provisioned. */
  ghost predicate Unprovisioned(cfg: Config, r: Run, id: nat) {
    r.Then? && (Unprovisioned(cfg, r.prior, id) || UnprovisionedHere(Exec(cfg, r.prior), r.act, id))
  }

  const NOT_YET := Deny(CertNotProvisioned, 0)

  lemma NotYetComesFrom(cfg: Config, sh: Shared, h: Handler, ev: Event, hint: int)
    requires Can(sh, h, ev) && !H.Over(h.pc) && Decide(cfg, sh, h, ev).out == Some(Deny(CertNotProvisioned, hint))
    requires O.CarriesDeny(h.pc) ==> h.pc.deny == CertIssuanceFailed
    ensures h.pc.Ensure? && ev.CertFailed? && NOT_PROVISIONED <= ev.err.text
  {}

  lemma {:induction false} UnprovisionedStays(cfg: Config, r': Run, r: Run, id: nat)
    requires Extends(r', r) && Unprovisioned(cfg, r, id)
    ensures Unprovisioned(cfg, r', id)
  {
    if r' != r { UnprovisionedStays(cfg, r'.prior, r, id); }
  }

  lemma UnprovisionedMoves(cfg: Config, sh: Shared, h: Handler, e: CertError)
    requires h.pc.Ensure? && NOT_PROVISIONED <= e.text
    ensures Decide(cfg, sh, h, CertFailed(e)) == Move(Ended, Some(NOT_YET))
  {}

  lemma {:induction false} UnprovisionedIsTold(cfg: Config, r: Run, id: nat)
    requires Valid(cfg, r) && Unprovisioned(cfg, r, id)
    ensures id in Exec(cfg, r).hs && Exec(cfg, r).hs[id].pc.Ended? &&
            H.ClientAfter(Exec(cfg, r).hs[id].sent) == H.Denied(CertNotProvisioned, 0)
  {
    var w := Exec(cfg, r.prior);
    O.StaysKnown(cfg, w, r.act, id);
    if Unprovisioned(cfg, r.prior, id) {
      UnprovisionedIsTold(cfg, r.prior, id);
      HandlerNext(cfg, w, r.act, id);
    } else {
      UnprovisionedMoves(cfg, w.sh, w.hs[id], r.act.ev.err);
      H.ServerSpeaksInOrder(cfg, r.prior, id);
      O.SilentIsEmpty(w.hs[id].sent);
      HandlerNext(cfg, w, r.act, id);
      K.ClientMoves(cfg, w.sh, w.hs[id], r.act.ev, Exec(cfg, r).hs[id]);
    }
  }

  /** A client is told "cert not provisioned" exactly when EnsureName said so for its label. */
  lemma NotProvisionedExactly(cfg: Config, r: Run, id: nat)
    requires Valid(cfg, r) && id in Exec(cfg, r).hs
    ensures H.ClientAfter(Exec(cfg, r).hs[id].sent) == H.Denied(CertNotProvisioned, 0) <==> Unprovisioned(cfg, r, id)
  {
    if Unprovisioned(cfg, r, id) {
      UnprovisionedIsTold(cfg, r, id);
    } else if H.ClientAfter(Exec(cfg, r).hs[id].sent) == H.Denied(CertNotProvisioned, 0) {
      var s := DenialStep(cfg, r, id, CertNotProvisioned, 0);
      NotYetHasCause(cfg, s, id, Exec(cfg, s.prior));
      UnprovisionedStays(cfg, r, s, id);
    }
  }

  lemma NotYetHasCause(cfg: Config, s: Run, id: nat, w: World)
    requires DeniesLast(cfg, s, id, CertNotProvisioned, 0) && w == Exec(cfg, s.prior)
    ensures Unprovisioned(cfg, s, id)
  {
    WaitingStep(cfg, s, id, CertNotProvisioned, 0, w.hs[id]);
    CarriedDeny(cfg, s.prior, id, w.hs[id]);
    NotYetComesFrom(cfg, w.sh, w.hs[id], s.act.ev, 0);
  }
}
