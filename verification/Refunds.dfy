/** Which failures ask for a refund, and what a granted refund gives back, over every run. */
module Refunds {
  import opened Naming
  import opened CertErrors
  import opened Protocol
  import opened Gates
  import S = ProtocolSafety
  import O = Outcomes

  // ---------------------------------------------------------------- failures that no retry changes soon

  predicate MentionsAt(text: string, word: string, i: int) {
    0 <= i <= |text| - |word| && text[i..i + |word|] == word
  }

  ghost predicate Mentions(text: string, word: string) {
    exists i :: MentionsAt(text, word, i)
  }

  /** The server's own order cap, the authority's rate limit (section 6.7 of RFC 8555), by problem type or
      in the text, or a certificate that only the operator can provide. */
  ghost predicate Unrecoverable(e: CertError) {
    || e.orderLimit
    || e.problem == Some("urn:ietf:params:acme:error:rateLimited")
    || Mentions(e.text, "urn:ietf:params:acme:error:rateLimited")
    || "cert not provisioned" <= e.text
  }

  lemma {:induction false} ContainsMentions(s: string, t: string)
    ensures Contains(s, t) <==> Mentions(s, t)
  {
    if t <= s {
      assert MentionsAt(s, t, 0);
    } else if s != [] {
      ContainsMentions(s[1..], t);
      if Mentions(s[1..], t) {
        var i :| MentionsAt(s[1..], t, i);
        assert MentionsAt(s, t, i + 1);
      }
      if Mentions(s, t) {
        var i :| MentionsAt(s, t, i);
        assert MentionsAt(s[1..], t, i - 1);
      }
    }
  }

  lemma PermanentIsUnrecoverable(e: CertError)
    ensures IsPermanent(e) <==> Unrecoverable(e)
  {
    ContainsMentions(e.text, RATE_LIMITED);
  }

  // ---------------------------------------------------------------- who asks

  /** The Register's timestamp is within five minutes of the server's clock. */
  predicate InTime(now: int, ts: int) {
    -300_000_000_000 <= now - ts * 1_000_000_000 <= 300_000_000_000
  }

  /** What asks the refund budget: a clock that is off, a peer lost in the grace period, and a certificate
      failure that may go away; nothing else does. */
  lemma WhoAsks(cfg: Config, sh: Shared, h: Handler, ev: Event)
    requires Can(sh, h, ev) && !BudgetPc(h.pc)
    ensures BudgetPc(Decide(cfg, sh, h, ev).pc) <==>
            || (h.pc.Authenticate? && h.pubkey.Some? && h.sig.Some? && !InTime(sh.now, h.ts))
            || (h.pc.Grace? && ev == PeerGone)
            || (h.pc.Ensure? && ev.CertFailed? && !Unrecoverable(ev.err))
  {
    if h.pc.Ensure? && ev.CertFailed? { PermanentIsUnrecoverable(ev.err); }
    AuthenticateAsks(sh.now, h);
    FramesDoNotAsk(cfg, sh, h, ev);
  }

  lemma AuthenticateAsks(now: int, h: Handler)
    ensures OnAuthenticate(now, h).pc.SkewBudget? <==> h.pubkey.Some? && h.sig.Some? && !InTime(now, h.ts)
    ensures OnAuthenticate(now, h).pc in {Ended, SkewBudget, AllowGate}
  {}

  lemma FramesDoNotAsk(cfg: Config, sh: Shared, h: Handler, ev: Event)
    requires Can(sh, h, ev)
    ensures h.pc.AwaitRegister? || h.pc.AwaitProof? || h.pc.Serving? ==> !BudgetPc(Decide(cfg, sh, h, ev).pc)
  {
    match h.pc
    case AwaitRegister => RegisterLeads(ev.f);
    case AwaitProof(k, n) => ProofLeads(ev.f, k, n);
    case Serving => if ev.Recv? { ControlLeads(sh.now, h, ev.f); }
    case _ =>
  }

  // ---------------------------------------------------------------- what is given back

  /** The connection gave back its pass at the gate. */
  ghost predicate GaveBack(cfg: Config, r: Run, id: nat, g: Gate) {
    r.Then? &&
    (GaveBack(cfg, r.prior, id, g) ||
     (var w := Exec(cfg, r.prior); S.At(w, r.act, id) && GivesBack(g, w.hs[id].pc)))
  }

  /** The connection was granted a refund; `skew` for a clock that is off. */
  ghost predicate GrantedHere(cfg: Config, w: World, a: Action, id: nat, skew: bool) {
    S.At(w, a, id) && BudgetPc(w.hs[id].pc) && w.hs[id].pc.SkewBudget? == skew
    && Beyond(RefundLimit, Decide(cfg, w.sh, w.hs[id], a.ev).pc)
  }

  ghost predicate Granted(cfg: Config, r: Run, id: nat, skew: bool) {
    r.Then? && (Granted(cfg, r.prior, id, skew) || GrantedHere(cfg, Exec(cfg, r.prior), r.act, id, skew))
  }

  /** How a program counter goes with what was granted and given back. */
  predicate Accounts(pc: Pc, skew: bool, other: bool, ip: bool, key: bool) {
    if pc.SkewCancel? then skew && !other && !ip && !key
    else if pc.GraceCancelIp? || pc.CertCancelIp? then !skew && other && !ip && !key
    else if pc.GraceCancelKey? || pc.CertCancelKey? then !skew && other && ip && !key
    else if pc.Ended? then (ip <==> skew || other) && (key <==> other)
    else !skew && !other && !ip && !key
  }

  ghost predicate AccountsOk(cfg: Config, r: Run, id: nat, pc: Pc) {
    Accounts(pc, Granted(cfg, r, id, true), Granted(cfg, r, id, false),
             GaveBack(cfg, r, id, IpLimit), GaveBack(cfg, r, id, KeyLimit))
  }

  lemma AccountsMove(cfg: Config, sh: Shared, h: Handler, ev: Event, skew: bool, other: bool, ip: bool, key: bool)
    requires Can(sh, h, ev) && Accounts(h.pc, skew, other, ip, key)
    ensures var pc' := Decide(cfg, sh, h, ev).pc;
            var granted := BudgetPc(h.pc) && Beyond(RefundLimit, pc');
            Accounts(pc', skew || (granted && h.pc.SkewBudget?), other || (granted && !h.pc.SkewBudget?),
                     ip || GivesBack(IpLimit, h.pc), key || GivesBack(KeyLimit, h.pc))
  {
    RefundPcs(cfg, sh, h, ev);
  }

  predicate Refunding(pc: Pc) { Beyond(RefundLimit, pc) || GivesBack(KeyLimit, pc) }

  /** Only a budget leads into a refund, and a refund leads through both gates it has to. */
  lemma RefundPcs(cfg: Config, sh: Shared, h: Handler, ev: Event)
    requires Can(sh, h, ev)
    ensures var pc' := Decide(cfg, sh, h, ev).pc;
            && (Refunding(pc') ==> BudgetPc(h.pc) || Refunding(h.pc))
            && (BudgetPc(h.pc) ==> pc'.Ended? || (pc'.SkewCancel? && h.pc.SkewBudget?) ||
                                   ((pc'.GraceCancelIp? || pc'.CertCancelIp?) && !h.pc.SkewBudget?))
            && (h.pc.SkewCancel? || GivesBack(KeyLimit, h.pc) ==> pc'.Ended?)
            && (h.pc.GraceCancelIp? || h.pc.CertCancelIp? ==> GivesBack(KeyLimit, pc'))
  {
    if !BudgetPc(h.pc) && !Refunding(h.pc) { OthersDoNotRefund(cfg, sh, h, ev); }
  }

  lemma OthersDoNotRefund(cfg: Config, sh: Shared, h: Handler, ev: Event)
    requires Can(sh, h, ev) && !BudgetPc(h.pc) && !Refunding(h.pc)
    ensures !Refunding(Decide(cfg, sh, h, ev).pc)
  {
    match h.pc
    case AwaitRegister => RegisterLeads(ev.f);
    case Authenticate => AuthenticateLeads(sh.now, h);
    case AwaitProof(k, n) => ProofLeads(ev.f, k, n);
    case Serving => if ev.Recv? { ControlLeads(sh.now, h, ev.f); }
    case _ =>
  }

  lemma {:induction false} NoPast(cfg: Config, r: Run, id: nat)
    requires Valid(cfg, r) && id !in Exec(cfg, r).hs
    ensures !Granted(cfg, r, id, true) && !Granted(cfg, r, id, false)
    ensures !GaveBack(cfg, r, id, IpLimit) && !GaveBack(cfg, r, id, KeyLimit)
  {
    if r.Then? {
      O.StaysKnown(cfg, Exec(cfg, r.prior), r.act, id);
      NoPast(cfg, r.prior, id);
    }
  }

  lemma {:induction false} AccountsAlways(cfg: Config, r: Run, id: nat)
    requires Valid(cfg, r) && id in Exec(cfg, r).hs
    ensures AccountsOk(cfg, r, id, Exec(cfg, r).hs[id].pc)
  {
    if r.Then? {
      var w := Exec(cfg, r.prior);
      HandlerNext(cfg, w, r.act, id);
      if id in w.hs {
        AccountsAlways(cfg, r.prior, id);
        if S.At(w, r.act, id) { AccountsStep(cfg, r.prior, w, id, r.act.ev); }
      } else {
        NoPast(cfg, r.prior, id);
      }
    }
  }

  lemma AccountsStep(cfg: Config, r: Run, w: World, id: nat, ev: Event)
    requires w == Exec(cfg, r) && Enabled(w, Step(id, ev)) && AccountsOk(cfg, r, id, w.hs[id].pc)
    ensures AccountsOk(cfg, Then(r, Step(id, ev)), id, Decide(cfg, w.sh, w.hs[id], ev).pc)
  {
    AccountsMove(cfg, w.sh, w.hs[id], ev, Granted(cfg, r, id, true), Granted(cfg, r, id, false),
                 GaveBack(cfg, r, id, IpLimit), GaveBack(cfg, r, id, KeyLimit));
  }

  /** A connection that has ended gave its IP pass back iff a refund was granted to it, and its key pass iff
      that refund was not for a clock that is off, which is judged before the key's gate. */
  lemma RefundIsComplete(cfg: Config, r: Run, id: nat)
    requires Valid(cfg, r) && id in Exec(cfg, r).hs && Exec(cfg, r).hs[id].pc.Ended?
    ensures GaveBack(cfg, r, id, IpLimit) <==> Granted(cfg, r, id, true) || Granted(cfg, r, id, false)
    ensures GaveBack(cfg, r, id, KeyLimit) <==> Granted(cfg, r, id, false)
  {
    AccountsAlways(cfg, r, id);
  }

  // ---------------------------------------------------------------- failures that keep the pass

  ghost predicate BurnsHere(w: World, a: Action, id: nat) {
    S.At(w, a, id) && w.hs[id].pc.Ensure? && a.ev.CertFailed? && Unrecoverable(a.ev.err)
  }

  /** The certificate of the connection's label failed for a reason that no retry changes soon. */
  ghost predicate Burnt(cfg: Config, r: Run, id: nat) {
    r.Then? && (Burnt(cfg, r.prior, id) || BurnsHere(Exec(cfg, r.prior), r.act, id))
  }

  lemma BurnEnds(cfg: Config, sh: Shared, h: Handler, e: CertError)
    requires h.pc.Ensure? && Unrecoverable(e)
    ensures Decide(cfg, sh, h, CertFailed(e)).pc.Ended?
  {
    PermanentIsUnrecoverable(e);
  }

  /** After such a failure neither pass is ever given back. */
  lemma {:induction false} BurntKeepsPasses(cfg: Config, r: Run, id: nat)
    requires Valid(cfg, r) && Burnt(cfg, r, id)
    ensures id in Exec(cfg, r).hs && Exec(cfg, r).hs[id].pc.Ended?
    ensures !GaveBack(cfg, r, id, IpLimit) && !GaveBack(cfg, r, id, KeyLimit)
  {
    var w := Exec(cfg, r.prior);
    if Burnt(cfg, r.prior, id) {
      BurntKeepsPasses(cfg, r.prior, id);
      O.StaysKnown(cfg, w, r.act, id);
      HandlerNext(cfg, w, r.act, id);
    } else {
      AccountsAlways(cfg, r.prior, id);
      BurnStep(cfg, w, r.act, id);
    }
  }

  lemma BurnStep(cfg: Config, w: World, a: Action, id: nat)
    requires Enabled(w, a) && BurnsHere(w, a, id)
    ensures id in Next(cfg, w, a).hs && Next(cfg, w, a).hs[id].pc.Ended?
  {
    O.StaysKnown(cfg, w, a, id);
    HandlerNext(cfg, w, a, id);
    BurnEnds(cfg, w.sh, w.hs[id], a.ev.err);
  }
}
