/** What a caller of the order gate is told, by what happened to it: over every run each result has
    exactly its own cause. */
module OrderResults {
  import opened OrderGate
  import L = Limiter

  datatype What = SawFresh | SawBroken | GotCert | GotFailure | FoundFull | Ordered

  /** All slots are held, when a slot is wanted, or the last hour is full, when an order is wanted. */
  ghost predicate Full(cfg: Config, s: State, pc: Pc) {
    || (pc.WantSlot? && 0 < cfg.concurrent == |Holders(s.callers)|)
    || (pc.WantOrder? && 0 < cfg.perHour == L.Load(s.starts, 3_600_000_000_000, s.now))
  }

  ghost predicate HappensHere(cfg: Config, s: State, a: Action, id: nat, what: What)
    requires Can(s, a)
  {
    a.Step? && a.id == id && var pc := s.callers[id].pc;
    match what
    case SawFresh => a.reply.Fresh? && (pc.Enter? || pc.Recheck?)
    case SawBroken => a.reply.Broken? && (pc.Enter? || pc.Recheck?)
    case GotCert => a.reply.Obtained? && pc.Obtaining?
    case GotFailure => a.reply.Failed? && pc.Obtaining?
    case FoundFull => Full(cfg, s, pc)
    case Ordered => Next(cfg, s, a).callers[id].pc.Obtaining?
  }

  ghost predicate Happened(cfg: Config, r: Run, id: nat, what: What)
    requires Valid(cfg, r)
  {
    r.Then? && (Happened(cfg, r.prior, id, what) || HappensHere(cfg, Exec(cfg, r.prior), r.act, id, what))
  }

  /** What happened to a caller, all at once. */
  datatype Past = Past(onDisk: bool, broken: bool, cert: bool, failure: bool, full: bool, ordered: bool)

  const NOTHING := Past(false, false, false, false, false, false)

  ghost function PastOf(cfg: Config, r: Run, id: nat): Past
    requires Valid(cfg, r)
  {
    Past(Happened(cfg, r, id, SawFresh), Happened(cfg, r, id, SawBroken), Happened(cfg, r, id, GotCert),
         Happened(cfg, r, id, GotFailure), Happened(cfg, r, id, FoundFull), Happened(cfg, r, id, Ordered))
  }

  /** The one cause of each result. */
  predicate Causes(p: Past, result: Result) {
    match result
    case Loaded => p == NOTHING.(onDisk := true) || p == NOTHING.(cert := true, ordered := true)
    case DiskError => p == NOTHING.(broken := true)
    case OrderLimit => p == NOTHING.(full := true)
    case OrderFailed => p == NOTHING.(failure := true, ordered := true)
  }

  predicate PastFits(pc: Pc, id: nat, p: Past) {
    match pc
    case Obtaining => p == NOTHING.(ordered := true)
    case Adding(_) => p == NOTHING.(cert := true, ordered := true)
    case Releasing(r) => Causes(p, r)
    case Finishing(r) => Causes(p, r)
    case Done(r, from) => if from == id then Causes(p, r) else p == NOTHING
    case _ => p == NOTHING
  }

  ghost function PastHere(cfg: Config, s: State, a: Action, id: nat, p: Past): Past
    requires Can(s, a)
  {
    Past(p.onDisk || HappensHere(cfg, s, a, id, SawFresh), p.broken || HappensHere(cfg, s, a, id, SawBroken),
         p.cert || HappensHere(cfg, s, a, id, GotCert), p.failure || HappensHere(cfg, s, a, id, GotFailure),
         p.full || HappensHere(cfg, s, a, id, FoundFull), p.ordered || HappensHere(cfg, s, a, id, Ordered))
  }

  lemma PastStep(cfg: Config, s: State, id: nat, reply: Reply, p: Past)
    requires Can(s, Step(id, reply)) && PastFits(s.callers[id].pc, id, p)
    requires s.callers[id].pc.WantSlot? ==> (SlotFree(cfg, s) <==> !Full(cfg, s, WantSlot))
    requires s.callers[id].pc.WantOrder? ==> (OrderAdmitted(s) <==> !Full(cfg, s, WantOrder))
    requires s.callers[id].pc.Waiting? ==> s.callers[id].pc.leader != id
    ensures PastFits(After(cfg, s, id, reply), id, PastHere(cfg, s, Step(id, reply), id, p))
  {
    var a := Step(id, reply);
    assert Next(cfg, s, a).callers[id].pc == After(cfg, s, id, reply);
  }

  lemma FullMeansRefused(cfg: Config, r: Run, s: State)
    requires Valid(cfg, r) && s == Exec(cfg, r)
    ensures SlotFree(cfg, s) <==> !Full(cfg, s, WantSlot)
    ensures OrderAdmitted(s) <==> !Full(cfg, s, WantOrder)
  {
    SlotsAlways(cfg, r);
    OrdersAlways(cfg, r);
    if cfg.perHour > 0 { L.AgreesLater(s.orders, KEY, s.starts, s.now, s.now); }
  }

  lemma NoFollowerOfItself(cfg: Config, r: Run, s: State, id: nat)
    requires Valid(cfg, r) && s == Exec(cfg, r) && id in s.callers && s.callers[id].pc.Waiting?
    ensures s.callers[id].pc.leader != id
  {
    ResultsAlways(cfg, r);
    assert CallerRight(s, s.callers[id]);
  }

  lemma {:induction false} NoPast(cfg: Config, r: Run, id: nat)
    requires Valid(cfg, r) && id !in Exec(cfg, r).callers
    ensures PastOf(cfg, r, id) == NOTHING
  {
    if r.Then? { NoPast(cfg, r.prior, id); }
  }

  lemma {:induction false} PastAlways(cfg: Config, r: Run, id: nat)
    requires Valid(cfg, r) && id in Exec(cfg, r).callers
    ensures PastFits(Exec(cfg, r).callers[id].pc, id, PastOf(cfg, r, id))
  {
    if r.Then? {
      var s := Exec(cfg, r.prior);
      if id in s.callers {
        PastAlways(cfg, r.prior, id);
        if r.act.Step? && r.act.id == id {
          FullMeansRefused(cfg, r.prior, s);
          if s.callers[id].pc.Waiting? { NoFollowerOfItself(cfg, r.prior, s, id); }
          PastStep(cfg, s, id, r.act.reply, PastOf(cfg, r.prior, id));
        }
      } else {
        NoPast(cfg, r.prior, id);
      }
    }
  }

  /** A caller that returned holds the result of the caller it waited for, or of its own: success iff that one
      read a fresh certificate or was given one, a disk error iff it read a broken one, a failed order iff the
      authority failed it, and the order limit iff it found the slots or the hour full. */
  lemma ResultExactly(cfg: Config, r: Run, id: nat, result: Result, from: nat)
    requires Valid(cfg, r) && id in Exec(cfg, r).callers && Exec(cfg, r).callers[id].pc == Done(result, from)
    ensures from in Exec(cfg, r).callers && Exec(cfg, r).callers[from].name == Exec(cfg, r).callers[id].name
    ensures result == Loaded <==> Happened(cfg, r, from, SawFresh) || Happened(cfg, r, from, GotCert)
    ensures result == DiskError <==> Happened(cfg, r, from, SawBroken)
    ensures result == OrderFailed <==> Happened(cfg, r, from, GotFailure)
    ensures result == OrderLimit <==> Happened(cfg, r, from, FoundFull)
  {
    ResultsAlways(cfg, r);
    assert CallerRight(Exec(cfg, r), Exec(cfg, r).callers[id]);
    PastAlways(cfg, r, from);
  }

  /** An order is placed only by a caller that read no fresh or broken certificate and found room, and only
      once answered does it know how it went. */
  lemma FreshOrdersNothing(cfg: Config, r: Run, id: nat)
    requires Valid(cfg, r) && id in Exec(cfg, r).callers && Happened(cfg, r, id, Ordered)
    ensures !Happened(cfg, r, id, SawFresh) && !Happened(cfg, r, id, SawBroken) && !Happened(cfg, r, id, FoundFull)
    ensures Happened(cfg, r, id, GotCert) || Happened(cfg, r, id, GotFailure) <==>
            !Exec(cfg, r).callers[id].pc.Obtaining?
  {
    PastAlways(cfg, r, id);
  }
}
