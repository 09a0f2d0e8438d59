/** The three rate limiters of the registration protocol over every run: a handler gets through a gate
    exactly when the recent history of that gate, told by the handlers' own moves, has room. */
module Gates {
  import opened Naming
  import opened Signing
  import opened Protocol
  import S = ProtocolSafety
  import L = Limiter

  datatype Gate = IpLimit | KeyLimit | RefundLimit

  // ---------------------------------------------------------------- the gates in the machine

  function LimiterOf(g: Gate, sh: Shared): L.Window {
    match g case IpLimit => sh.ips case KeyLimit => sh.keys case RefundLimit => sh.refunds
  }

  /** Who a handler is to the gate's limiter. */
  function NameAt(g: Gate, h: Handler): string { if g.KeyLimit? then KeyText(KeyOf(h)) else h.ip }

  predicate AtGate(g: Gate, pc: Pc) {
    match g case IpLimit => pc.IpGate? case KeyLimit => pc.KeyGate? case RefundLimit => BudgetPc(pc)
  }

  /** Where a handler is when it got through. */
  predicate Beyond(g: Gate, pc: Pc) {
    match g
    case IpLimit => pc.Authenticate?
    case KeyLimit => pc.Grace?
    case RefundLimit => pc.SkewCancel? || pc.GraceCancelIp? || pc.CertCancelIp?
  }

  /** A refund gives an admission back. */
  predicate GivesBack(g: Gate, pc: Pc) {
    match g
    case IpLimit => pc.SkewCancel? || pc.GraceCancelIp? || pc.CertCancelIp?
    case KeyLimit => pc.GraceCancelKey? || pc.CertCancelKey?
    case RefundLimit => false
  }

  predicate AsksHint(g: Gate, pc: Pc) {
    match g case IpLimit => pc.IpHint? case KeyLimit => pc.KeyHint? case RefundLimit => false
  }

  predicate Sweeps(g: Gate, a: Action) {
    match g case IpLimit => a.SweepIps? case KeyLimit => a.SweepKeys? case RefundLimit => a.SweepRefunds?
  }

  // ---------------------------------------------------------------- the history that the moves tell

  ghost predicate PassesHere(cfg: Config, w: World, a: Action, g: Gate, name: string) {
    a.Step? && a.id in w.hs && var h := w.hs[a.id];
    NameAt(g, h) == name && AtGate(g, h.pc) && Beyond(g, Decide(cfg, w.sh, h, a.ev).pc)
  }

  ghost predicate ReturnsHere(w: World, a: Action, g: Gate, name: string) {
    a.Step? && a.id in w.hs && NameAt(g, w.hs[a.id]) == name && GivesBack(g, w.hs[a.id].pc)
  }

  /** When handlers of that name got through the gate, without the passes that were given back; a refund
      gives back the newest. */
  ghost function Passes(cfg: Config, r: Run, g: Gate, name: string): seq<int> {
    if r.Start? then []
    else
      var w, before := Exec(cfg, r.prior), Passes(cfg, r.prior, g, name);
      if PassesHere(cfg, w, r.act, g, name) then before + [w.sh.now]
      else if ReturnsHere(w, r.act, g, name) && before != [] then before[..|before| - 1]
      else before
  }

  // ---------------------------------------------------------------- the calls on a limiter

  /** The call that an action makes, if any. */
  function OpOf(w: World, a: Action, g: Gate): seq<L.Op> {
    if Sweeps(g, a) then [L.Prune(w.sh.now)]
    else if !a.Step? || a.id !in w.hs then []
    else
      var h := w.hs[a.id];
      if AtGate(g, h.pc) && a.ev.Call? then [L.Allow(NameAt(g, h), w.sh.now, a.ev.victim)]
      else if AsksHint(g, h.pc) then [L.Retry(NameAt(g, h), w.sh.now)]
      else if GivesBack(g, h.pc) then [L.Cancel(NameAt(g, h))]
      else []
  }

  lemma LimiterNext(cfg: Config, w: World, a: Action, g: Gate)
    ensures |OpOf(w, a, g)| <= 1
    ensures LimiterOf(g, Next(cfg, w, a).sh) ==
            if OpOf(w, a, g) == [] then LimiterOf(g, w.sh) else L.Apply(LimiterOf(g, w.sh), OpOf(w, a, g)[0])
  {}

  /** No call evicts `name`. */
  ghost predicate Kept(cfg: Config, r: Run, g: Gate, name: string) {
    r.Then? ==> Kept(cfg, r.prior, g, name) && KeptHere(Exec(cfg, r.prior), r.act, g, name)
  }

  predicate KeptHere(w: World, a: Action, g: Gate, name: string) {
    var op := OpOf(w, a, g);
    op != [] && op[0].Allow? && L.Evicts(LimiterOf(g, w.sh), op[0].key, op[0].now) ==> op[0].victim != name
  }

  lemma ClockNext(cfg: Config, w: World, a: Action)
    requires Enabled(w, a)
    ensures w.sh.now <= Next(cfg, w, a).sh.now
    ensures Next(cfg, w, a).sh.now == if a.Tick? then a.to else w.sh.now
  {}

  // ---------------------------------------------------------------- limiter and history agree

  function MaxOf(cfg: Config, g: Gate): int {
    match g case IpLimit => cfg.ipMax case KeyLimit => cfg.keyMax case RefundLimit => cfg.refundMax
  }

  /** An hour, a day, an hour, in nanoseconds. */
  function SpanOf(g: Gate): int {
    match g
    case IpLimit => 3_600_000_000_000
    case KeyLimit => 86_400_000_000_000
    case RefundLimit => 3_600_000_000_000
  }

  lemma LimitsStay(cfg: Config, w: World, a: Action, g: Gate)
    ensures var l, l' := LimiterOf(g, w.sh), LimiterOf(g, Next(cfg, w, a).sh); l'.(seen := l.seen) == l
  {
    LimiterNext(cfg, w, a, g);
  }

  lemma {:induction false} LimitsAre(cfg: Config, r: Run, g: Gate)
    ensures LimiterOf(g, Exec(cfg, r).sh).(seen := map[]) == L.Window(MaxOf(cfg, g), SpanOf(g), 100_000, map[])
  {
    if r.Then? {
      LimitsAre(cfg, r.prior, g);
      LimitsStay(cfg, Exec(cfg, r.prior), r.act, g);
    }
  }

  /** The handler at a gate moves as the limiter says. */
  lemma GateMoves(cfg: Config, sh: Shared, h: Handler, ev: Event, g: Gate)
    requires AtGate(g, h.pc) && Can(sh, h, ev)
    ensures ev.Call?
    ensures Beyond(g, Decide(cfg, sh, h, ev).pc) <==>
            L.Admits(LimiterOf(g, sh), NameAt(g, h), sh.now) && (g.RefundLimit? ==> LimiterOf(g, sh).max > 0)
  {}

  lemma GatesApart(g: Gate, pc: Pc)
    ensures AtGate(g, pc) ==> !GivesBack(g, pc) && !AsksHint(g, pc)
    ensures AsksHint(g, pc) ==> !GivesBack(g, pc)
  {}

  /** The history after an action is the reference's step for the call the action makes. */
  lemma PassesStep(cfg: Config, r: Run, a: Action, g: Gate, name: string, w: World)
    requires Valid(cfg, Then(r, a)) && w == Exec(cfg, r) && MaxOf(cfg, g) > 0
    requires L.Agrees(LimiterOf(g, w.sh), name, Passes(cfg, r, g, name), w.sh.now)
    ensures var op, hist := OpOf(w, a, g), Passes(cfg, r, g, name);
            Passes(cfg, Then(r, a), g, name) ==
            if op == [] then hist else L.HistoryStep(MaxOf(cfg, g), SpanOf(g), name, hist, op[0])
  {
    LimitsAre(cfg, r, g);
    L.AgreesLater(LimiterOf(g, w.sh), name, Passes(cfg, r, g, name), w.sh.now, w.sh.now);
    if a.Step? {
      var h := w.hs[a.id];
      GatesApart(g, h.pc);
      if AtGate(g, h.pc) { GateMoves(cfg, w.sh, h, a.ev, g); }
    }
  }

  lemma {:induction false} HistoryAgrees(cfg: Config, r: Run, g: Gate, name: string)
    requires Valid(cfg, r) && Kept(cfg, r, g, name) && MaxOf(cfg, g) > 0
    ensures L.Agrees(LimiterOf(g, Exec(cfg, r).sh), name, Passes(cfg, r, g, name), Exec(cfg, r).sh.now)
  {
    if r.Then? {
      HistoryAgrees(cfg, r.prior, g, name);
      AgreesNext(cfg, r.prior, r.act, g, name, Exec(cfg, r.prior));
    }
  }

  lemma AgreesNext(cfg: Config, r: Run, a: Action, g: Gate, name: string, w: World)
    requires Valid(cfg, Then(r, a)) && w == Exec(cfg, r) && MaxOf(cfg, g) > 0 && KeptHere(w, a, g, name)
    requires L.Agrees(LimiterOf(g, w.sh), name, Passes(cfg, r, g, name), w.sh.now)
    ensures var w' := Next(cfg, w, a);
            L.Agrees(LimiterOf(g, w'.sh), name, Passes(cfg, Then(r, a), g, name), w'.sh.now)
  {
    var hist, l, op := Passes(cfg, r, g, name), LimiterOf(g, w.sh), OpOf(w, a, g);
    PassesStep(cfg, r, a, g, name, w);
    LimiterNext(cfg, w, a, g);
    LimitsAre(cfg, r, g);
    ClockNext(cfg, w, a);
    if op == [] {
      L.AgreesLater(l, name, hist, w.sh.now, Next(cfg, w, a).sh.now);
    } else {
      L.AgreesStep(l, name, hist, w.sh.now, op[0]);
    }
  }

  // ---------------------------------------------------------------- the gates, exactly

  /** Fewer than the limit of the name's passes that were not given back lie in the gate's window. */
  ghost predicate HasRoom(cfg: Config, r: Run, g: Gate, name: string) {
    L.Load(Passes(cfg, r, g, name), SpanOf(g), Exec(cfg, r).sh.now) < MaxOf(cfg, g)
  }

  /** In every run that does not evict the name, a handler gets through a gate iff the gate is switched off or
      its recent history has room; the refund gate is shut when switched off. */
  lemma GateExactly(cfg: Config, r: Run, g: Gate, h: Handler, ev: Event)
    requires Valid(cfg, r) && Kept(cfg, r, g, NameAt(g, h)) && AtGate(g, h.pc) && Can(Exec(cfg, r).sh, h, ev)
    ensures Beyond(g, Decide(cfg, Exec(cfg, r).sh, h, ev).pc) <==>
            if MaxOf(cfg, g) <= 0 then !g.RefundLimit? else HasRoom(cfg, r, g, NameAt(g, h))
  {
    var sh, name := Exec(cfg, r).sh, NameAt(g, h);
    LimitsAre(cfg, r, g);
    GateMoves(cfg, sh, h, ev, g);
    if MaxOf(cfg, g) > 0 {
      HistoryAgrees(cfg, r, g, name);
      L.AgreesLater(LimiterOf(g, sh), name, Passes(cfg, r, g, name), sh.now, sh.now);
    }
  }

  /** Whoever does not get through is turned away with the gate's own reason, or silently if its peer is gone. */
  lemma TurnedAway(cfg: Config, sh: Shared, h: Handler, ev: Event, g: Gate)
    requires AtGate(g, h.pc) && Can(sh, h, ev) && !Beyond(g, Decide(cfg, sh, h, ev).pc)
    ensures Decide(cfg, sh, h, ev) ==
            match h.pc
            case IpGate => Go(IpHint)
            case KeyGate => Go(KeyHint)
            case SkewBudget => Refuse(TimestampOutOfRange)
            case CertBudget(deny) => Refuse(deny)
            case _ => Go(Ended)
  {}

  /** The Deny of a shut gate carries the least wait after which the history has room, in whole seconds
      rounded up, or one more if it is whole. */
  lemma HintExactly(cfg: Config, r: Run, g: Gate, h: Handler, ev: Event) returns (wait: int, hint: int)
    requires Valid(cfg, r) && Kept(cfg, r, g, NameAt(g, h)) && AsksHint(g, h.pc) && MaxOf(cfg, g) > 0
    ensures var reason := if g.IpLimit? then RateLimitedIp else RateLimitedKey;
            Decide(cfg, Exec(cfg, r).sh, h, ev) == Move(Ended, Some(Deny(reason, hint)))
    ensures L.LeastWait(MaxOf(cfg, g), SpanOf(g), Passes(cfg, r, g, NameAt(g, h)), Exec(cfg, r).sh.now, wait)
    ensures wait < hint * 1_000_000_000 <= wait + 1_000_000_000
  {
    var sh, name := Exec(cfg, r).sh, NameAt(g, h);
    LimitsAre(cfg, r, g);
    HistoryAgrees(cfg, r, g, name);
    wait := L.RetryWait(LimiterOf(g, sh), name, sh.now);
    hint := L.HintSeconds(wait);
    L.RetryIsLeast(LimiterOf(g, sh), name, Passes(cfg, r, g, name), sh.now);
  }
}
