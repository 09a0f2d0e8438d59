/** The client's list of permanent reasons measured against what another attempt could change. */
module GivingUp {
  import opened Bytes
  import opened Signing
  import opened Naming
  import opened Protocol
  import opened Runs
  import Denials
  import Retry
  import Witnesses
  import S = ProtocolSafety
  import H = Handshake
  import O = Outcomes

  /** Reasons that depend on the row, the certificate or the second frame, and not on the Register. */
  predicate CanChange(d: Reason) {
    d.KeyMismatch? || d.CertNotProvisioned? || d.BadProof? || d.BadProofSig? || (d.ExpectedProof? && !d.got.KProof?)
  }

  lemma HopefulCalls()
    ensures Retry.CanSucceed(Opening(Witnesses.Owner()), None) && Retry.CanSucceed(Opening(Witnesses.Other()), None)
  {
    Witnesses.CallersDiffer();
    Retry.HopelessExactly(Opening(Witnesses.Owner()), None);
    Retry.HopelessExactly(Opening(Witnesses.Other()), None);
  }

  /** A run in which the reason is told to a connection whose frame another run accepts; for
      key_mismatch and "cert not provisioned" its own continuation accepts it. */
  lemma ToldToHopeful(d: Reason) returns (p: Run, id: nat, f: Inbound)
    requires CanChange(d)
    ensures Retry.Told(Witnesses.OPEN, p, id, d, 0) && Retry.OpenedWith(Witnesses.OPEN, p, id, f)
    ensures Retry.Peer(Witnesses.OPEN, p, id) == None && Retry.CanSucceed(f, None)
    ensures d.KeyMismatch? || d.CertNotProvisioned? ==> exists r, again :: Witnesses.Retries(p, r, id, again, f, d)
  {
    HopefulCalls();
    var r;
    match d
    case KeyMismatch =>
      p, r := Witnesses.RetryAfterMismatch();
      id, f := 1, Opening(Witnesses.Other());
      assert Witnesses.Retries(p, r, id, 2, f, d);
    case CertNotProvisioned =>
      p, r := Witnesses.RetryAfterNotProvisioned();
      id, f := 0, Opening(Witnesses.Owner());
      assert Witnesses.Retries(p, r, id, 1, f, d);
    case BadProof =>
      p := Witnesses.AnsweredBadly(Garbled(KProof), d);
      id, f := 1, Opening(Witnesses.Other());
    case BadProofSig =>
      p := Witnesses.AnsweredBadly(ProofMsg(None), d);
      id, f := 1, Opening(Witnesses.Other());
    case ExpectedProof(got) =>
      p := Witnesses.AnsweredBadly(Garbled(got), d);
      id, f := 1, Opening(Witnesses.Other());
  }

  lemma ToldOnlyToHopeless(d: Reason)
    requires !CanChange(d) && Denials.IsPermanent(Denials.Text(d))
    ensures Retry.FrameDetermined(d)
  {
    Denials.ClientReadsText(d);
    if Retry.FrameReason(d) {
      Retry.FrameReasonsDetermined(d);
    } else {
      forall cfg, r, id, hint ensures !Retry.Told(cfg, r, id, d, hint) { Retry.NeverTold(cfg, r, id, d, hint); }
    }
  }

  /** Of the reasons that the client gives up on, those that judge the Register frame are told only
      for frames no run would ever accept; the others, and they alone, are also told for frames that
      another attempt gets through with (`ToldToHopeful`). */
  lemma PermanentReasons(d: Reason)
    requires Denials.IsPermanent(Denials.Text(d))
    ensures Retry.FrameDetermined(d) <==> !CanChange(d)
  {
    if CanChange(d) {
      var r, id, f := ToldToHopeful(d);
    } else {
      ToldOnlyToHopeless(d);
    }
  }

  // ---------------------------------------------------------------- not_authorized

  lemma UnauthorizedComesFrom(cfg: Config, sh: Shared, h: Handler, ev: Event, hint: int)
    requires Can(sh, h, ev) && !H.Over(h.pc) && Decide(cfg, sh, h, ev).out == Some(Deny(NotAuthorized, hint))
    requires O.CarriesDeny(h.pc) ==> h.pc.deny == CertIssuanceFailed
    ensures h.pc.AllowGate? || (h.pc.Authenticate? && OnAuthenticate(sh.now, h) == Refuse(NotAuthorized))
  {}

  lemma WrongPeer(now: int, h: Handler, f: Inbound)
    requires Retry.Carries(h, f) && !h.pc.Ended? && OnAuthenticate(now, h) == Refuse(NotAuthorized)
    ensures f.RegisterMsg? && Retry.Hopeless(f, h.peerCert) && h.peerCert.Some? && h.peerCert != f.pubkey
  {}

  predicate PeerFits(f: Inbound, peer: Option<Key>) { f.RegisterMsg? && (peer.None? || peer == f.pubkey) }

  lemma UnauthorizedHere(cfg: Config, s: Run, id: nat, hint: int, w: World, f: Inbound)
    requires Retry.DeniesLast(cfg, s, id, NotAuthorized, hint) && w == Exec(cfg, s.prior)
    requires Retry.OpenedWith(cfg, s.prior, id, f)
    ensures Retry.Hopeless(f, w.hs[id].peerCert) <==> !PeerFits(f, w.hs[id].peerCert)
  {
    Retry.WaitingStep(cfg, s, id, NotAuthorized, hint, w.hs[id]);
    Retry.CarriedDeny(cfg, s.prior, id, w.hs[id]);
    UnauthorizedComesFrom(cfg, w.sh, w.hs[id], s.act.ev, hint);
    Retry.KeepsFrame(cfg, s.prior, id, f);
    if w.hs[id].pc.Authenticate? {
      WrongPeer(w.sh.now, w.hs[id], f);
    } else if Retry.Hopeless(f, w.hs[id].peerCert) {
      Retry.HopelessKeptOut(cfg, s.prior, id, f);
    }
  }

  lemma OpenedBefore(cfg: Config, r: Run, s: Run, id: nat, hint: int, f: Inbound)
    requires Valid(cfg, r) && S.Extends(r, s) && Retry.DeniesLast(cfg, s, id, NotAuthorized, hint)
    requires Retry.OpenedWith(cfg, r, id, f)
    ensures Retry.OpenedWith(cfg, s.prior, id, f)
  {
    var w := Exec(cfg, s.prior);
    Retry.WaitingStep(cfg, s, id, NotAuthorized, hint, w.hs[id]);
    Retry.CarriedDeny(cfg, s.prior, id, w.hs[id]);
    UnauthorizedComesFrom(cfg, w.sh, w.hs[id], s.act.ev, hint);
    var g := Retry.HasOpened(cfg, s.prior, id);
    S.ExtendsTrans(r, s, s.prior);
    Retry.OpenedStays(cfg, r, s.prior, id, g);
    Retry.OpenedOnce(cfg, r, id, f, g);
  }

  /** The other way round, the client retries not_authorized always, and in vain exactly when the
      connection has a TLS certificate of another key than the frame's: whoever is told not_authorized
      opened with a frame that can succeed iff the certificate is absent or carries the frame's key. */
  lemma RetriedInVain(cfg: Config, r: Run, id: nat, hint: int, f: Inbound)
    requires Retry.Told(cfg, r, id, NotAuthorized, hint) && Retry.OpenedWith(cfg, r, id, f)
    ensures Retry.CanSucceed(f, Retry.Peer(cfg, r, id)) <==> PeerFits(f, Retry.Peer(cfg, r, id))
    ensures !Denials.IsPermanent(Denials.Text(NotAuthorized))
  {
    Denials.ClientReadsText(NotAuthorized);
    var s := Retry.DenialStep(cfg, r, id, NotAuthorized, hint);
    OpenedBefore(cfg, r, s, id, hint, f);
    UnauthorizedHere(cfg, s, id, hint, Exec(cfg, s.prior), f);
    S.ExtendsTrans(r, s, s.prior);
    Retry.PeerSince(cfg, r, s.prior, id);
    Retry.HopelessExactly(f, Retry.Peer(cfg, r, id));
  }
}
