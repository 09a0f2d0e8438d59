/** A client whose key is not the stored one, from the moment it meets the other key to the end of
    its handshake, over every interleaving. */
module WrongKey {
  import opened Bytes
  import opened Signing
  import opened Naming
  import opened Protocol
  import opened ProtocolSafety
  import opened Handshake
  import O = Outcomes
  import B = RefundBudget

  /** The handler reads the row of `u` as `k`: at first, or again after losing a race for the name. */
  ghost predicate MeetsHere(w: World, a: Action, id: nat, u: Str, k: Key) {
    && At(w, a, id) && a.ev == Do && (w.hs[id].pc.Lookup? || w.hs[id].pc.Reread?)
    && w.hs[id].unique == u && u in w.sh.store && w.sh.store[u] == k
  }

  ghost predicate Met(cfg: Config, r: Run, id: nat, u: Str, k: Key) {
    r.Then? && (Met(cfg, r.prior, id, u, k) || MeetsHere(Exec(cfg, r.prior), r.act, id, u, k))
  }

  /** The random source failed when the handler drew its nonce. */
  ghost predicate FaultsHere(w: World, a: Action, id: nat) {
    At(w, a, id) && a.ev == Fault && w.hs[id].pc.Drawing?
  }

  ghost predicate DrawFaulted(cfg: Config, r: Run, id: nat) {
    r.Then? && (DrawFaulted(cfg, r.prior, id) || FaultsHere(Exec(cfg, r.prior), r.act, id))
  }

  lemma {:induction false} FaultEnds(cfg: Config, r: Run, id: nat)
    requires Valid(cfg, r) && DrawFaulted(cfg, r, id)
    ensures id in Exec(cfg, r).hs && Exec(cfg, r).hs[id].pc.Ended?
  {
    var w := Exec(cfg, r.prior);
    if DrawFaulted(cfg, r.prior, id) { FaultEnds(cfg, r.prior, id); }
    O.StaysKnown(cfg, w, r.act, id);
    HandlerNext(cfg, w, r.act, id);
  }

  const MISMATCH := Deny(KeyMismatch, 0)

  /** All a connection can have come to once it has met another's key. */
  ghost predicate Doomed(h: Handler, k: Key, faulted: bool) {
    || (h.pc == Drawing(k) && h.sent == [] && !faulted)
    || (h.pc.AwaitProof? && h.pc == AwaitProof(k, h.pc.nonce) && h.sent == [Challenge(h.pc.nonce)] && !faulted)
    || (h.pc.Ended? && if faulted then h.sent == [Deny(InternalError, 0)]
                       else h.sent == [MISMATCH] || (|h.sent| == 2 && h.sent[0].Challenge? && h.sent[1] == MISMATCH))
  }

  lemma MeetingDooms(cfg: Config, sh: Shared, h: Handler, c: Client, k: Key)
    requires (h.pc.Lookup? || h.pc.Reread?) && DrivenOk(c, h) && h.sent == []
    requires h.unique in sh.store && sh.store[h.unique] == k != c.key
    ensures Doomed(Moved(cfg, sh, h, Do), k, false)
  {}

  lemma DoomStays(cfg: Config, sh: Shared, h: Handler, ev: Event, c: Client, k: Key)
    requires Can(sh, h, ev) && Honest(c, h, ev) && DrivenOk(c, h) && Doomed(h, k, false)
    ensures Doomed(Moved(cfg, sh, h, ev), k, h.pc.Drawing? && ev == Fault)
  {}

  lemma DoomedNext(cfg: Config, r: Run, id: nat, c: Client, k: Key, w: World, a: Action, h': Handler)
    requires Valid(cfg, Then(r, a)) && Drives(cfg, Then(r, a), id, c) && w == Exec(cfg, r) && id in w.hs && k != c.key
    requires h' == Next(cfg, w, a).hs[id]
    requires Met(cfg, r, id, c.unique, k) ==> Doomed(w.hs[id], k, DrawFaulted(cfg, r, id))
    requires Met(cfg, r, id, c.unique, k) || MeetsHere(w, a, id, c.unique, k)
    ensures Doomed(h', k, DrawFaulted(cfg, Then(r, a), id))
  {
    HandlerNext(cfg, w, a, id);
    if At(w, a, id) {
      var h := w.hs[id];
      DrivenAlways(cfg, r, id, c);
      if DrawFaulted(cfg, r, id) { FaultEnds(cfg, r, id); }
      if Met(cfg, r, id, c.unique, k) {
        DoomStays(cfg, w.sh, h, a.ev, c, k);
      } else {
        ServerSpeaksInOrder(cfg, r, id);
        O.SilentIsEmpty(h.sent);
        MeetingDooms(cfg, w.sh, h, c, k);
      }
    }
  }

  lemma {:induction false} MeetingIsDoom(cfg: Config, r: Run, id: nat, c: Client, k: Key)
    requires Valid(cfg, r) && Drives(cfg, r, id, c) && Met(cfg, r, id, c.unique, k) && k != c.key
    ensures id in Exec(cfg, r).hs && Doomed(Exec(cfg, r).hs[id], k, DrawFaulted(cfg, r, id))
  {
    if Met(cfg, r.prior, id, c.unique, k) { MeetingIsDoom(cfg, r.prior, id, c, k); }
    O.StaysKnown(cfg, Exec(cfg, r.prior), r.act, id);
    DoomedNext(cfg, r.prior, id, c, k, Exec(cfg, r.prior), r.act, Exec(cfg, r).hs[id]);
  }

  lemma DoomReads(h: Handler, k: Key, faulted: bool)
    requires Doomed(h, k, faulted)
    ensures !ClientAfter(h.sent).Connected?
    ensures h.pc.Ended? ==> ClientAfter(h.sent) == Denied(if faulted then InternalError else KeyMismatch, 0)
    ensures h.pc.Ended? ==> PhaseOf(h.sent).Refused?
    ensures h.pc.Ended? ==> h.sent != [] && h.sent[|h.sent| - 1] == if faulted then Deny(InternalError, 0) else MISMATCH
  {
    if h.sent != [] {
      var first := h.sent[..1];
      assert first[..0] == [] && PhaseOf([]) == Silent && ClientAfter([]) == Waiting(false);
      assert PhaseOf(first) == Shift(Silent, h.sent[0]) && ClientAfter(first) == ClientStep(Waiting(false), h.sent[0]);
      if |h.sent| == 1 { assert first == h.sent; }
    }
  }

  /** A client that meets a row of another key, at its first read or after a lost race, is never
      connected and changes no row, and when the server is done it holds key_mismatch; or, exactly
      when the server's random source failed, internal error. */
  lemma WrongKeyIsRefused(cfg: Config, r: Run, id: nat, c: Client, k: Key, h: Handler)
    requires Valid(cfg, r) && Drives(cfg, r, id, c) && Met(cfg, r, id, c.unique, k) && k != c.key
    requires id in Exec(cfg, r).hs ==> h == Exec(cfg, r).hs[id]
    ensures id in Exec(cfg, r).hs && !Wrote(cfg, r, id) && !ClientAfter(h.sent).Connected?
    ensures h.pc.Ended? ==>
              ClientAfter(h.sent) == Denied(if DrawFaulted(cfg, r, id) then InternalError else KeyMismatch, 0)
  {
    MeetingIsDoom(cfg, r, id, c, k);
    DoomReads(h, k, DrawFaulted(cfg, r, id));
    DoomedNotReturned(cfg, r, id, h, k, DrawFaulted(cfg, r, id));
    if Wrote(cfg, r, id) { O.WritersReturned(cfg, r, id); }
  }

  lemma DoomedNotReturned(cfg: Config, r: Run, id: nat, h: Handler, k: Key, faulted: bool)
    requires Valid(cfg, r) && id in Exec(cfg, r).hs && h == Exec(cfg, r).hs[id] && Doomed(h, k, faulted)
    ensures !O.HasReturned(cfg, r, id)
  {
    O.FitsAlways(cfg, r, id);
    DoomFits(h, k, faulted, O.HasReturned(cfg, r, id), O.LostAtGreeting(cfg, r, id));
  }

  lemma DoomFits(h: Handler, k: Key, faulted: bool, returned: bool, lost: bool)
    requires Doomed(h, k, faulted) && O.Fits(h.pc, PhaseOf(h.sent), returned, lost, O.LabelRefused(h))
    ensures !returned
  {
    DoomReads(h, k, faulted);
  }

  // ---------------------------------------------------------------- and nobody else

  lemma MismatchComesFrom(cfg: Config, sh: Shared, h: Handler, ev: Event)
    requires Can(sh, h, ev) && Decide(cfg, sh, h, ev).out == Some(MISMATCH)
    requires h.pc.CertBudget? || h.pc.CertCancelKey? ==> h.pc.deny == CertIssuanceFailed
    ensures h.pc.AwaitProof? || (h.pc.Reread? && ev == Do && h.unique in sh.store && sh.store[h.unique] != KeyOf(h))
  {}

  lemma MismatchHere(cfg: Config, r: Run, w: World, id: nat, ev: Event, c: Client) returns (k: Key)
    requires Valid(cfg, Then(r, Step(id, ev))) && Drives(cfg, Then(r, Step(id, ev)), id, c) && w == Exec(cfg, r)
    requires Decide(cfg, w.sh, w.hs[id], ev).out == Some(MISMATCH)
    ensures k != c.key && Met(cfg, Then(r, Step(id, ev)), id, c.unique, k)
  {
    var h := w.hs[id];
    if h.pc.CertBudget? || h.pc.CertCancelKey? { B.OnlyTransientRefunded(cfg, r, id, h.pc.deny); }
    MismatchComesFrom(cfg, w.sh, h, ev);
    DrivenAlways(cfg, r, id, c);
    if h.pc.AwaitProof? {
      k := h.pc.existing;
      HandlersEarned(cfg, r);
      assert HandlerOk(cfg, r, w.sh.signed, id, h);
      ReadIsMet(cfg, r, id, c.unique, k);
    } else {
      k := w.sh.store[h.unique];
    }
  }

  lemma {:induction false} ReadIsMet(cfg: Config, r: Run, id: nat, u: Str, k: Key)
    requires ReadRow(cfg, r, id, u, k)
    ensures Met(cfg, r, id, u, k)
  {
    if ReadRow(cfg, r.prior, id, u, k) { ReadIsMet(cfg, r.prior, id, u, k); }
  }

  lemma ClientMoves(cfg: Config, sh: Shared, h: Handler, ev: Event, h': Handler)
    requires h' == Moved(cfg, sh, h, ev)
    ensures var out := Decide(cfg, sh, h, ev).out;
            ClientAfter(h'.sent) ==
            if out.Some? then ClientStep(ClientAfter(h.sent), out.value) else ClientAfter(h.sent)
  {
    var out := Decide(cfg, sh, h, ev).out;
    if out.Some? { assert (h.sent + [out.value])[..|h.sent|] == h.sent; }
  }

  /** A client is told key_mismatch only if it met a row of another key. */
  lemma {:induction false} MismatchMeansMet(cfg: Config, r: Run, id: nat, c: Client) returns (k: Key)
    requires Valid(cfg, r) && Drives(cfg, r, id, c) && id in Exec(cfg, r).hs
    requires ClientAfter(Exec(cfg, r).hs[id].sent) == Denied(KeyMismatch, 0)
    ensures k != c.key && Met(cfg, r, id, c.unique, k)
  {
    var w := Exec(cfg, r.prior);
    HandlerNext(cfg, w, r.act, id);
    if ClientAfter(w.hs[id].sent) == Denied(KeyMismatch, 0) {
      k := MismatchMeansMet(cfg, r.prior, id, c);
    } else {
      ClientMoves(cfg, w.sh, w.hs[id], r.act.ev, Exec(cfg, r).hs[id]);
      k := MismatchHere(cfg, r.prior, w, id, r.act.ev, c);
    }
  }

  ghost predicate MetAnother(cfg: Config, r: Run, id: nat, c: Client) {
    exists k :: k != c.key && Met(cfg, r, id, c.unique, k)
  }

  /** The exact condition of key_mismatch: the row that the handler read was another key's, and the
      random source worked. */
  lemma MismatchExactly(cfg: Config, r: Run, id: nat, c: Client, h: Handler)
    requires Valid(cfg, r) && Drives(cfg, r, id, c) && id in Exec(cfg, r).hs && h == Exec(cfg, r).hs[id] && h.pc.Ended?
    ensures ClientAfter(h.sent) == Denied(KeyMismatch, 0) <==> MetAnother(cfg, r, id, c) && !DrawFaulted(cfg, r, id)
  {
    if MetAnother(cfg, r, id, c) {
      var k :| k != c.key && Met(cfg, r, id, c.unique, k);
      WrongKeyIsRefused(cfg, r, id, c, k, h);
    } else if ClientAfter(h.sent) == Denied(KeyMismatch, 0) {
      var k := MismatchMeansMet(cfg, r, id, c);
    }
  }

  // ---------------------------------------------------------------- the right key

  lemma OwnKeyDecides(cfg: Config, sh: Shared, h: Handler, k: Key)
    requires (h.pc.Lookup? || h.pc.Reread?) && h.unique in sh.store && sh.store[h.unique] == k && KeyOf(h) == k
    ensures Decide(cfg, sh, h, Do) == Go(Touching)
  {}

  /** A client that reads its own key is let in: its handler only notes the time, and handleRegister returns ok. */
  lemma {:induction false} OwnKeyReturns(cfg: Config, r: Run, id: nat, c: Client)
    requires Valid(cfg, r) && Drives(cfg, r, id, c) && Met(cfg, r, id, c.unique, c.key)
    ensures id in Exec(cfg, r).hs && (Exec(cfg, r).hs[id].pc.Touching? || O.HasReturned(cfg, r, id))
  {
    var w := Exec(cfg, r.prior);
    O.StaysKnown(cfg, w, r.act, id);
    if Met(cfg, r.prior, id, c.unique, c.key) {
      OwnKeyReturns(cfg, r.prior, id, c);
      HandlerNext(cfg, w, r.act, id);
    } else {
      DrivenAlways(cfg, r.prior, id, c);
      OwnKeyDecides(cfg, w.sh, w.hs[id], c.key);
      HandlerNext(cfg, w, r.act, id);
    }
  }

  /** In the end it is connected, or told that its label is taken by a session that is still up. */
  lemma OwnKeyOutcome(cfg: Config, r: Run, id: nat, c: Client, h: Handler)
    requires Valid(cfg, r) && Drives(cfg, r, id, c) && Met(cfg, r, id, c.unique, c.key)
    requires id in Exec(cfg, r).hs && h == Exec(cfg, r).hs[id] && h.pc.Ended?
    ensures ClientAfter(h.sent).Connected? || ClientAfter(h.sent) == Denied(LabelTaken(TunnelLabel(c.unique)), 0)
  {
    OwnKeyReturns(cfg, r, id, c);
    HandshakeOutcome(cfg, r, id, c);
    DrivenAlways(cfg, r, id, c);
    O.FitsAlways(cfg, r, id);
  }

  // ---------------------------------------------------------------- a lost race

  ghost predicate LosesHere(w: World, a: Action, id: nat) {
    At(w, a, id) && a.ev == Do && w.hs[id].pc.Claim? && w.hs[id].unique in w.sh.store
  }

  /** The insert of the connection found the name taken. */
  ghost predicate LostRace(cfg: Config, r: Run, id: nat) {
    r.Then? && (LostRace(cfg, r.prior, id) || LosesHere(Exec(cfg, r.prior), r.act, id))
  }

  /** The connection read the row again; `gone` if there was none or the read failed. */
  ghost predicate RereadsHere(w: World, a: Action, id: nat, gone: bool) {
    At(w, a, id) && w.hs[id].pc.Reread? && gone == (a.ev != Do || w.hs[id].unique !in w.sh.store)
  }

  ghost predicate ReadAgain(cfg: Config, r: Run, id: nat, gone: bool) {
    r.Then? && (ReadAgain(cfg, r.prior, id, gone) || RereadsHere(Exec(cfg, r.prior), r.act, id, gone))
  }

  lemma LoserRereads(cfg: Config, sh: Shared, h: Handler)
    requires h.pc.Claim? && h.unique in sh.store
    ensures Decide(cfg, sh, h, Do) == Go(Reread)
  {}

  /** Whoever loses a race for a name reads the row again; what it finds decides, as `MismatchExactly` and
      `OwnKeyOutcome` say, and if it finds none it is told of a store error. */
  lemma {:induction false} LoserReadsAgain(cfg: Config, r: Run, id: nat)
    requires Valid(cfg, r) && LostRace(cfg, r, id)
    ensures id in Exec(cfg, r).hs
    ensures Exec(cfg, r).hs[id].pc.Reread? || ReadAgain(cfg, r, id, true) || ReadAgain(cfg, r, id, false)
  {
    var w := Exec(cfg, r.prior);
    O.StaysKnown(cfg, w, r.act, id);
    if LostRace(cfg, r.prior, id) {
      LoserReadsAgain(cfg, r.prior, id);
      HandlerNext(cfg, w, r.act, id);
    } else {
      LoserRereads(cfg, w.sh, w.hs[id]);
      HandlerNext(cfg, w, r.act, id);
    }
  }

  lemma GoneIsStoreError(cfg: Config, sh: Shared, h: Handler, ev: Event)
    requires h.pc.Reread? && (ev != Do || h.unique !in sh.store)
    ensures Decide(cfg, sh, h, ev) == Refuse(StoreError)
  {}

  /** A connection to which nothing has been said yet is refused. */
  lemma FirstWordIsNo(cfg: Config, w: World, a: Action, id: nat, d: Reason)
    requires Enabled(w, a) && At(w, a, id) && w.hs[id].sent == [] && Decide(cfg, w.sh, w.hs[id], a.ev) == Refuse(d)
    ensures id in Next(cfg, w, a).hs && Next(cfg, w, a).hs[id].pc.Ended?
    ensures ClientAfter(Next(cfg, w, a).hs[id].sent) == Denied(d, 0)
  {
    O.StaysKnown(cfg, w, a, id);
    HandlerNext(cfg, w, a, id);
    ClientMoves(cfg, w.sh, w.hs[id], a.ev, Next(cfg, w, a).hs[id]);
  }

  lemma SilentSoFar(cfg: Config, r: Run, w: World, id: nat)
    requires Valid(cfg, r) && w == Exec(cfg, r) && id in w.hs && (w.hs[id].pc.Reread? || w.hs[id].pc.AwaitRegister?)
    ensures w.hs[id].sent == []
  {
    ServerSpeaksInOrder(cfg, r, id);
    O.SilentIsEmpty(w.hs[id].sent);
  }

  lemma {:induction false} GoneIsTold(cfg: Config, r: Run, id: nat)
    requires Valid(cfg, r) && ReadAgain(cfg, r, id, true)
    ensures id in Exec(cfg, r).hs && Exec(cfg, r).hs[id].pc.Ended?
    ensures ClientAfter(Exec(cfg, r).hs[id].sent) == Denied(StoreError, 0)
  {
    var w := Exec(cfg, r.prior);
    O.StaysKnown(cfg, w, r.act, id);
    if ReadAgain(cfg, r.prior, id, true) {
      GoneIsTold(cfg, r.prior, id);
      HandlerNext(cfg, w, r.act, id);
    } else {
      GoneIsStoreError(cfg, w.sh, w.hs[id], r.act.ev);
      SilentSoFar(cfg, r.prior, w, id);
      FirstWordIsNo(cfg, w, r.act, id, StoreError);
    }
  }
}
