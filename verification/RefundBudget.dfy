/** Refund accounting: how many Register attempts one IP can get through the IP gate.

    Skew denies, grace aborts and transient certificate failures give attempts back, all from
    one per-IP refund budget.  Over every interleaving the attempts that pass the gate within
    a window are bounded by the gate's limit plus that budget. */
module RefundBudget {
  import opened Bytes
  import opened Protocol
  import opened CertErrors
  import L = Limiter
  import G = Gates

  // ---------------------------------------------------------------- limiters that have not expired anything

  /** The samples of `key` all lie at or after `t0`. */
  predicate Since(w: L.Window, key: string, t0: int) {
    L.Samples(w, key) == [] || L.Samples(w, key)[0] >= t0
  }

  /** Within one span of `t0` nothing has left the window. */
  lemma NothingExpired(w: L.Window, key: string, t0: int, now: int)
    requires Since(w, key, t0) && now - w.span < t0
    ensures L.Live(w, key, now) == L.Samples(w, key)
  {}

  lemma AllowUnexpired(w: L.Window, key: string, ip: string, t0: int, now: int, victim: string)
    requires Since(w, ip, t0) && now - w.span < t0 <= now && w.max > 0 && !L.Evicts(w, key, now)
    ensures var w' := L.AllowAt(w, key, now, victim);
            && L.Samples(w', ip) == L.Samples(w, ip) + (if key == ip && L.Admits(w, ip, now) then [now] else [])
            && Since(w', ip, t0) && w'.max == w.max && w'.span == w.span
    ensures L.Admits(w, ip, now) <==> |L.Samples(w, ip)| < w.max
  {
    NothingExpired(w, ip, t0, now);
    L.PrunedKeeps(w, ip, now);
  }

  lemma SweepUnexpired(w: L.Window, ip: string, t0: int, now: int)
    requires Since(w, ip, t0) && now - w.span < t0
    ensures L.Samples(L.PruneAt(w, now), ip) == L.Samples(w, ip)
  {
    NothingExpired(w, ip, t0, now);
    L.PrunedKeeps(w, ip, now);
  }

  lemma RetryUnexpired(w: L.Window, key: string, ip: string, t0: int, now: int)
    requires Since(w, ip, t0) && now - w.span < t0
    ensures L.Samples(L.RetryAfterAt(w, key, now), ip) == L.Samples(w, ip)
  {
    NothingExpired(w, ip, t0, now);
  }

  lemma CancelSamples(w: L.Window, key: string, ip: string, t0: int)
    requires w.max > 0 && Since(w, ip, t0)
    ensures var w' := L.CancelLatest(w, key);
            && Since(w', ip, t0) && w'.max == w.max && w'.span == w.span
            && |L.Samples(w', ip)| <= |L.Samples(w, ip)| <= |L.Samples(w', ip)| + (if key == ip then 1 else 0)
  {}

  // ---------------------------------------------------------------- counting along a run

  predicate CancelPc(pc: Pc) { pc.SkewCancel? || pc.GraceCancelIp? || pc.CertCancelIp? }

  /** Attempts from `ip` that moved on from the IP gate. */
  ghost function Passes(cfg: Config, r: Run, ip: string): nat {
    if r.Start? then 0
    else Passes(cfg, r.prior, ip) + (if G.PassesHere(cfg, Exec(cfg, r.prior), r.act, G.IpLimit, ip) then 1 else 0)
  }

  ghost function Cancels(cfg: Config, r: Run, ip: string): nat {
    if r.Start? then 0
    else Cancels(cfg, r.prior, ip) + (if G.ReturnsHere(Exec(cfg, r.prior), r.act, G.IpLimit, ip) then 1 else 0)
  }

  /** Connections from `ip` that were granted a refund and have yet to take it. */
  function Pending(hs: map<nat, Handler>, ip: string): set<nat> {
    set id | id in hs && hs[id].ip == ip && CancelPc(hs[id].pc)
  }

  lemma PendingElsewhere(hs: map<nat, Handler>, id: nat, h': Handler, ip: string)
    ensures Pending(hs, ip) - {id} == Pending(hs[id := h'], ip) - {id}
    ensures id in Pending(hs[id := h'], ip) <==> h'.ip == ip && CancelPc(h'.pc)
  {
    var hs' := hs[id := h'];
    forall x | x != id ensures x in Pending(hs, ip) <==> x in Pending(hs', ip) {
      assert x in hs <==> x in hs';
      assert x in hs ==> hs'[x] == hs[x];
    }
  }

  lemma PendingAfter(hs: map<nat, Handler>, id: nat, h': Handler, ip: string)
    ensures |Pending(hs[id := h'], ip)| ==
            |Pending(hs, ip)|
            - (if id in Pending(hs, ip) then 1 else 0)
            + (if h'.ip == ip && CancelPc(h'.pc) then 1 else 0)
  {
    PendingElsewhere(hs, id, h', ip);
    L.SetDiffer(Pending(hs, ip), Pending(hs[id := h'], ip), id);
  }

  /** No call on the IP limiter or the refund limiter evicts anybody. */
  predicate NoEviction(cfg: Config, r: Run) {
    r.Then? ==>
      NoEviction(cfg, r.prior) &&
      (r.act.Step? && r.act.id in Exec(cfg, r.prior).hs ==>
        Roomy(Exec(cfg, r.prior).sh, Exec(cfg, r.prior).hs[r.act.id]))
  }

  predicate Roomy(sh: Shared, h: Handler) {
    && (h.pc.IpGate? ==> !L.Evicts(sh.ips, h.ip, sh.now))
    && (BudgetPc(h.pc) ==> !L.Evicts(sh.refunds, h.ip, sh.now))
  }

  function AtLeastZero(x: int): nat { if x < 0 then 0 else x }

  // ---------------------------------------------------------------- the invariant

  predicate Books(cfg: Config, w: World, ip: string, passes: nat, cancels: nat) {
    var taken, refunded := |L.Samples(w.sh.ips, ip)|, |L.Samples(w.sh.refunds, ip)|;
    && w.sh.ips.max == cfg.ipMax && w.sh.ips.span == HOUR
    && w.sh.refunds.max == cfg.refundMax && w.sh.refunds.span == HOUR
    && cfg.boot <= w.sh.now
    && Since(w.sh.ips, ip, cfg.boot) && Since(w.sh.refunds, ip, cfg.boot)
    && passes <= taken + cancels
    && cancels + |Pending(w.hs, ip)| <= refunded
    && taken <= cfg.ipMax && refunded <= AtLeastZero(cfg.refundMax)
  }

  /** A refund is granted before it is taken, and taken once. */
  predicate RefundFacts(sh: Shared, h: Handler, h': Handler) {
    && h'.ip == h.ip
    && (CancelPc(h.pc) ==> !CancelPc(h'.pc))
    && (CancelPc(h'.pc) ==> BudgetPc(h.pc) && MayRefund(sh, h.ip))
  }

  lemma MovedRefundFacts(cfg: Config, sh: Shared, h: Handler, ev: Event)
    requires Can(sh, h, ev)
    ensures RefundFacts(sh, h, Moved(cfg, sh, h, ev))
    ensures BudgetPc(h.pc) || h.pc.IpGate? ==> ev.Call?
  {}

  /** The refund limiter after a step. */
  lemma RefundsStep(cfg: Config, sh: Shared, h: Handler, ev: Event, ip: string)
    requires sh.refunds.max == cfg.refundMax && sh.refunds.span == HOUR && cfg.boot <= sh.now < cfg.boot + HOUR
    requires Since(sh.refunds, ip, cfg.boot) && (BudgetPc(h.pc) ==> ev.Call? && !L.Evicts(sh.refunds, h.ip, sh.now))
    ensures var f := RefundsAfter(sh, h, ev);
            && f.max == cfg.refundMax && f.span == HOUR && Since(f, ip, cfg.boot)
            && |L.Samples(f, ip)| ==
                 |L.Samples(sh.refunds, ip)| + (if BudgetPc(h.pc) && h.ip == ip && MayRefund(sh, ip) then 1 else 0)
    ensures MayRefund(sh, ip) ==> |L.Samples(sh.refunds, ip)| < cfg.refundMax
  {
    NothingExpired(sh.refunds, ip, cfg.boot, sh.now);
    if cfg.refundMax > 0 && BudgetPc(h.pc) { AllowUnexpired(sh.refunds, h.ip, ip, cfg.boot, sh.now, ev.victim); }
  }

  /** An attempt of `ip` is at the gate and gets through. */
  predicate PassesNow(sh: Shared, h: Handler, ip: string) {
    h.pc.IpGate? && h.ip == ip && L.Admits(sh.ips, ip, sh.now)
  }

  /** The IP limiter after a step. */
  lemma IpsStep(cfg: Config, sh: Shared, h: Handler, ev: Event, ip: string)
    requires cfg.ipMax > 0 && sh.ips.max == cfg.ipMax && sh.ips.span == HOUR && cfg.boot <= sh.now < cfg.boot + HOUR
    requires Since(sh.ips, ip, cfg.boot) && (h.pc.IpGate? ==> ev.Call? && !L.Evicts(sh.ips, h.ip, sh.now))
    ensures var s := IpsAfter(sh, h, ev);
            && s.max == cfg.ipMax && s.span == HOUR && Since(s, ip, cfg.boot)
            && |L.Samples(s, ip)| <= |L.Samples(sh.ips, ip)| + (if PassesNow(sh, h, ip) then 1 else 0)
            && |L.Samples(s, ip)| >= |L.Samples(sh.ips, ip)| + (if PassesNow(sh, h, ip) then 1 else 0)
                                     - (if CancelPc(h.pc) && h.ip == ip then 1 else 0)
    ensures L.Admits(sh.ips, ip, sh.now) ==> |L.Samples(sh.ips, ip)| < cfg.ipMax
  {
    NothingExpired(sh.ips, ip, cfg.boot, sh.now);
    if h.pc.IpGate? {
      AllowUnexpired(sh.ips, h.ip, ip, cfg.boot, sh.now, ev.victim);
    } else if h.pc.IpHint? {
      RetryUnexpired(sh.ips, h.ip, ip, cfg.boot, sh.now);
    } else if CancelPc(h.pc) {
      CancelSamples(sh.ips, h.ip, ip, cfg.boot);
    }
  }

  lemma BooksStep(cfg: Config, w: World, id: nat, ev: Event, ip: string, passes: nat, cancels: nat)
    requires cfg.ipMax > 0 && Books(cfg, w, ip, passes, cancels) && w.sh.now < cfg.boot + HOUR
    requires id in w.hs && Can(w.sh, w.hs[id], ev) && Roomy(w.sh, w.hs[id])
    ensures Books(cfg, Next(cfg, w, Step(id, ev)), ip,
                  passes + (if G.PassesHere(cfg, w, Step(id, ev), G.IpLimit, ip) then 1 else 0),
                  cancels + (if G.ReturnsHere(w, Step(id, ev), G.IpLimit, ip) then 1 else 0))
  {
    var h := w.hs[id];
    var h' := Moved(cfg, w.sh, h, ev);
    MovedRefundFacts(cfg, w.sh, h, ev);
    PendingAfter(w.hs, id, h', ip);
    RefundsStep(cfg, w.sh, h, ev, ip);
    IpsStep(cfg, w.sh, h, ev, ip);
    if h.pc.IpGate? { G.GateMoves(cfg, w.sh, h, ev, G.IpLimit); }
  }

  lemma BooksOther(cfg: Config, w: World, a: Action, ip: string, passes: nat, cancels: nat)
    requires cfg.ipMax > 0 && Books(cfg, w, ip, passes, cancels) && !a.Step? && Enabled(w, a)
    requires w.sh.now < cfg.boot + HOUR
    ensures Books(cfg, Next(cfg, w, a), ip, passes, cancels)
  {
    match a
    case SweepIps => SweepUnexpired(w.sh.ips, ip, cfg.boot, w.sh.now);
    case SweepRefunds => SweepUnexpired(w.sh.refunds, ip, cfg.boot, w.sh.now);
    case Accept(id, from, peer) => PendingAfter(w.hs, id, Connection(from, peer), ip);
    case _ =>
  }

  lemma {:induction false} BooksBalance(cfg: Config, r: Run, ip: string)
    requires Valid(cfg, r) && NoEviction(cfg, r) && cfg.ipMax > 0 && Exec(cfg, r).sh.now < cfg.boot + HOUR
    ensures Books(cfg, Exec(cfg, r), ip, Passes(cfg, r, ip), Cancels(cfg, r, ip))
  {
    if r.Then? {
      var w := Exec(cfg, r.prior);
      ClockForward(cfg, w, r.act);
      BooksBalance(cfg, r.prior, ip);
      if r.act.Step? {
        BooksStep(cfg, w, r.act.id, r.act.ev, ip, Passes(cfg, r.prior, ip), Cancels(cfg, r.prior, ip));
      } else {
        BooksOther(cfg, w, r.act, ip, Passes(cfg, r.prior, ip), Cancels(cfg, r.prior, ip));
      }
    } else {
      assert Pending(Exec(cfg, r).hs, ip) == {};
    }
  }

  lemma ClockForward(cfg: Config, w: World, a: Action)
    requires Enabled(w, a)
    ensures w.sh.now <= Next(cfg, w, a).sh.now
  {}

  /** In every run shorter than the window, from fresh limiters, with a positive IP limit and
      no eviction, the attempts of one IP that pass the IP gate number at most the IP limit
      plus the refund budget, whatever mix of denies, aborts, failures and successes. */
  lemma AttemptsBounded(cfg: Config, r: Run, ip: string)
    requires Valid(cfg, r) && NoEviction(cfg, r) && cfg.ipMax > 0 && Exec(cfg, r).sh.now < cfg.boot + HOUR
    ensures Passes(cfg, r, ip) <= cfg.ipMax + AtLeastZero(cfg.refundMax)
  {
    BooksBalance(cfg, r, ip);
  }

  // ---------------------------------------------------------------- which certificate failures are refunded

  /** The connection may still get its attempt back because of this certificate failure. */
  predicate RefundsCert(pc: Pc, deny: Reason) {
    pc == CertBudget(deny) || pc == CertCancelIp(deny) || pc == CertCancelKey(deny)
  }

  lemma FromEnsure(e: CertError, deny: Reason)
    requires OnCertFailed(e).pc == CertBudget(deny)
    ensures deny == CertIssuanceFailed
  {}

  /** Only a certificate failure leads there. */
  lemma TransientStep(cfg: Config, sh: Shared, h: Handler, ev: Event, deny: Reason)
    requires Can(sh, h, ev) && RefundsCert(Decide(cfg, sh, h, ev).pc, deny)
    ensures RefundsCert(h.pc, deny) || (h.pc.Ensure? && ev.CertFailed?)
  {
    if Judges(h.pc) { NoRefundFromFrames(cfg, sh, h, ev, deny); } else { RefundFromCert(cfg, sh, h, ev, deny); }
  }

  /** The steps that judge a frame or what it carried. */
  predicate Judges(pc: Pc) { pc.AwaitRegister? || pc.Authenticate? || pc.AwaitProof? || pc.Serving? }

  lemma NoRefundFromFrames(cfg: Config, sh: Shared, h: Handler, ev: Event, deny: Reason)
    requires Can(sh, h, ev) && Judges(h.pc)
    ensures !RefundsCert(Decide(cfg, sh, h, ev).pc, deny)
  {
    match h.pc
    case AwaitRegister => RegisterLeads(ev.f);
    case Authenticate => AuthenticateLeads(sh.now, h);
    case AwaitProof(k, n) => ProofLeads(ev.f, k, n);
    case Serving => if ev.Recv? { ControlLeads(sh.now, h, ev.f); }
  }

  lemma RefundFromCert(cfg: Config, sh: Shared, h: Handler, ev: Event, deny: Reason)
    requires Can(sh, h, ev) && !Judges(h.pc) && RefundsCert(Decide(cfg, sh, h, ev).pc, deny)
    ensures RefundsCert(h.pc, deny) || (h.pc.Ensure? && ev.CertFailed?)
  {}

  /** "cert not provisioned" is never refunded: whoever reaches the refund of a certificate
      failure is denied with "cert issuance failed". */
  lemma {:induction false} OnlyTransientRefunded(cfg: Config, r: Run, id: nat, deny: Reason)
    requires Valid(cfg, r) && id in Exec(cfg, r).hs && RefundsCert(Exec(cfg, r).hs[id].pc, deny)
    ensures deny == CertIssuanceFailed
  {
    if r.Then? {
      var w := Exec(cfg, r.prior);
      RefundNext(cfg, w, r.act, id, deny, Exec(cfg, r).hs[id].pc);
      if id in w.hs && RefundsCert(w.hs[id].pc, deny) { OnlyTransientRefunded(cfg, r.prior, id, deny); }
    }
  }

  lemma RefundNext(cfg: Config, w: World, a: Action, id: nat, deny: Reason, pc': Pc)
    requires Enabled(w, a) && id in Next(cfg, w, a).hs && pc' == Next(cfg, w, a).hs[id].pc && RefundsCert(pc', deny)
    ensures deny == CertIssuanceFailed || (id in w.hs && RefundsCert(w.hs[id].pc, deny))
  {
    HandlerNext(cfg, w, a, id);
    if a.Step? && a.id == id { RefundMove(cfg, w.sh, w.hs[id], a.ev, deny); }
  }

  lemma RefundMove(cfg: Config, sh: Shared, h: Handler, ev: Event, deny: Reason)
    requires Can(sh, h, ev) && RefundsCert(Decide(cfg, sh, h, ev).pc, deny)
    ensures deny == CertIssuanceFailed || RefundsCert(h.pc, deny)
  {
    TransientStep(cfg, sh, h, ev, deny);
    if !RefundsCert(h.pc, deny) { FromEnsure(ev.err, deny); }
  }
}
