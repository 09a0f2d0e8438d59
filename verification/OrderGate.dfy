/** The ACME order gate, Manager.ensureSANs in internal/cert/manager.go, as a step machine.

    Any number of callers run at once.  A caller reads the disk; failing a fresh certificate
    it joins its base name's flight, as follower or as leader; a leader reads the disk again,
    takes a slot, asks the hourly limiter, orders, publishes the certificate, gives the slot
    back and hands its result to everybody who joined.  Reading the disk and ordering from the
    certificate authority are answered by the environment. */
module OrderGate {
  import L = Limiter
  import C = CertStore

  const HOUR := 3600 * L.SECOND
  const DEFAULT_MAX_KEYS := 100_000
  const KEY := "global"

  /** SetOrderLimit's two caps; zero or less turns a cap off. */
  datatype Config = Config(perHour: int, concurrent: int)

  datatype Result = Loaded | DiskError | OrderLimit | OrderFailed

  datatype Pc =
    | Enter
    | Join
    | Waiting(leader: nat)
    | Recheck
    | WantSlot
    | WantOrder
    | Obtaining
    | Adding(cert: C.Entry)
    | Releasing(left: Result)
    | Finishing(out: Result)
    | Done(result: Result, from: nat)   // `from` is the caller whose work produced the result

  datatype Caller = Caller(name: string, pc: Pc)

  datatype State = State(
    callers: map<nat, Caller>,
    flights: map<string, nat>,      // base name to the leader of its flight
    used: int,                      // slots taken
    orders: L.Window,
    starts: seq<int>,               // the instants at which orders were admitted
    now: int,
    store: C.Store)

  /** What the environment answers a step that asks it something. */
  datatype Reply = Fresh(cert: C.Entry) | Stale | Broken | Obtained(cert: C.Entry) | Failed | Go

  datatype Action =
    | Arrive(id: nat, name: string)
    | Step(id: nat, reply: Reply)
    | Tick(t: int)
    | Publish(cert: C.Entry)        // a renewal or a directory load adds a certificate

  // ---------------------------------------------------------------- the machine

  predicate ReadsDisk(pc: Pc) { pc.Enter? || pc.Recheck? }

  predicate ReplyFits(s: State, c: Caller, reply: Reply) {
    match c.pc
    case Enter => reply == Stale || reply == Broken || (reply.Fresh? && reply.cert.baseName == c.name)
    case Recheck => reply == Stale || reply == Broken || (reply.Fresh? && reply.cert.baseName == c.name)
    case Obtaining => reply == Failed || (reply.Obtained? && reply.cert.baseName == c.name)
    case Waiting(l) => reply == Go && l in s.callers && s.callers[l].pc.Done?
    case Done(_, _) => false
    case _ => reply == Go
  }

  predicate Can(s: State, a: Action) {
    match a
    case Arrive(id, _) => id !in s.callers
    case Step(id, reply) => id in s.callers && ReplyFits(s, s.callers[id], reply)
    case Tick(t) => s.now <= t
    case Publish(_) => true
  }

  predicate SlotFree(cfg: Config, s: State) { cfg.concurrent <= 0 || s.used < cfg.concurrent }

  predicate OrderAdmitted(s: State) { L.Admits(s.orders, KEY, s.now) }

  function After(cfg: Config, s: State, id: nat, reply: Reply): Pc
    requires Can(s, Step(id, reply))
  {
    var c := s.callers[id];
    match c.pc
    case Enter => if reply.Fresh? then Done(Loaded, id) else if reply.Broken? then Done(DiskError, id) else Join
    case Join => if c.name in s.flights then Waiting(s.flights[c.name]) else Recheck
    case Waiting(l) => Done(s.callers[l].pc.result, l)
    case Recheck => if reply.Fresh? then Finishing(Loaded) else if reply.Broken? then Finishing(DiskError) else WantSlot
    case WantSlot => if SlotFree(cfg, s) then WantOrder else Finishing(OrderLimit)
    case WantOrder => if OrderAdmitted(s) then Obtaining else Releasing(OrderLimit)
    case Obtaining => if reply.Obtained? then Adding(reply.cert) else Releasing(OrderFailed)
    case Adding(_) => Releasing(Loaded)
    case Releasing(r) => Finishing(r)
    case Finishing(r) => Done(r, id)
  }

  function FlightsAfter(s: State, id: nat): map<string, nat>
    requires id in s.callers
  {
    var c := s.callers[id];
    if c.pc.Join? && c.name !in s.flights then s.flights[c.name := id]
    else if c.pc.Finishing? then s.flights - {c.name}
    else s.flights
  }

  function UsedAfter(cfg: Config, s: State, pc: Pc): int {
    if cfg.concurrent <= 0 then s.used
    else if pc.WantSlot? && SlotFree(cfg, s) then s.used + 1
    else if pc.Releasing? then s.used - 1
    else s.used
  }

  function StoreAfter(s: State, pc: Pc, reply: Reply): C.Store {
    if ReadsDisk(pc) && reply.Fresh? then C.AddEntry(s.store, reply.cert)
    else if pc.Adding? then C.AddEntry(s.store, pc.cert)
    else s.store
  }

  function OrdersAfter(s: State, pc: Pc): L.Window {
    if pc.WantOrder? then L.AllowAt(s.orders, KEY, s.now, "") else s.orders
  }

  function StartsAfter(s: State, pc: Pc): seq<int> {
    if pc.WantOrder? && OrderAdmitted(s) then s.starts + [s.now] else s.starts
  }

  function Next(cfg: Config, s: State, a: Action): State
    requires Can(s, a)
  {
    match a
    case Arrive(id, name) => s.(callers := s.callers[id := Caller(name, Enter)])
    case Step(id, reply) =>
      var c := s.callers[id];
      State(s.callers[id := c.(pc := After(cfg, s, id, reply))], FlightsAfter(s, id), UsedAfter(cfg, s, c.pc),
            OrdersAfter(s, c.pc), StartsAfter(s, c.pc), s.now, StoreAfter(s, c.pc, reply))
    case Tick(t) => s.(now := t)
    case Publish(e) => s.(store := C.AddEntry(s.store, e))
  }

  datatype Run = Start(t0: int) | Then(prior: Run, act: Action)

  predicate Valid(cfg: Config, r: Run)
    decreases r, 0
  {
    r.Then? ==> Valid(cfg, r.prior) && Can(Exec(cfg, r.prior), r.act)
  }

  function Exec(cfg: Config, r: Run): State
    requires Valid(cfg, r)
    decreases r, 1
  {
    match r
    case Start(t0) =>
      State(map[], map[], 0, L.Window(cfg.perHour, HOUR, DEFAULT_MAX_KEYS, map[]), [], t0, C.EMPTY)
    case Then(p, a) => Next(cfg, Exec(cfg, p), a)
  }

  // ---------------------------------------------------------------- one flight per name

  /** The caller leads its name's flight. */
  predicate Leads(pc: Pc) {
    pc.Recheck? || pc.WantSlot? || pc.WantOrder? || pc.Obtaining? || pc.Adding? || pc.Releasing? || pc.Finishing?
  }

  ghost predicate FlightsRight(s: State) {
    && (forall name :: name in s.flights ==>
          s.flights[name] in s.callers && s.callers[s.flights[name]].name == name &&
            Leads(s.callers[s.flights[name]].pc))
    && (forall id :: id in s.callers && Leads(s.callers[id].pc) ==>
          s.callers[id].name in s.flights && s.flights[s.callers[id].name] == id)
  }

  /** A caller that neither joins nor finishes keeps its standing. */
  lemma FlightsMove(cfg: Config, s: State, id: nat, reply: Reply)
    requires Can(s, Step(id, reply)) && FlightsRight(s) && !s.callers[id].pc.Join? && !s.callers[id].pc.Finishing?
    ensures FlightsRight(Next(cfg, s, Step(id, reply)))
  {
    assert Leads(After(cfg, s, id, reply)) <==> Leads(s.callers[id].pc);
  }

  lemma FlightsJoin(cfg: Config, s: State, id: nat, reply: Reply)
    requires Can(s, Step(id, reply)) && FlightsRight(s) && s.callers[id].pc.Join?
    ensures FlightsRight(Next(cfg, s, Step(id, reply)))
  {}

  lemma FlightsFinish(cfg: Config, s: State, id: nat, reply: Reply)
    requires Can(s, Step(id, reply)) && FlightsRight(s) && s.callers[id].pc.Finishing?
    ensures FlightsRight(Next(cfg, s, Step(id, reply)))
  {}

  lemma FlightsStep(cfg: Config, s: State, a: Action)
    requires Can(s, a) && FlightsRight(s)
    ensures FlightsRight(Next(cfg, s, a))
  {
    if a.Step? {
      if s.callers[a.id].pc.Join? { FlightsJoin(cfg, s, a.id, a.reply); }
      else if s.callers[a.id].pc.Finishing? { FlightsFinish(cfg, s, a.id, a.reply); }
      else { FlightsMove(cfg, s, a.id, a.reply); }
    }
  }

  lemma {:induction false} FlightsAlways(cfg: Config, r: Run)
    requires Valid(cfg, r)
    ensures FlightsRight(Exec(cfg, r))
  {
    if r.Then? {
      FlightsAlways(cfg, r.prior);
      FlightsStep(cfg, Exec(cfg, r.prior), r.act);
    }
  }

  /** At most one order is in flight per base name, in every reachable state. */
  lemma OneOrderPerName(cfg: Config, r: Run, a: nat, b: nat)
    requires Valid(cfg, r) && a in Exec(cfg, r).callers && b in Exec(cfg, r).callers
    requires Exec(cfg, r).callers[a].pc.Obtaining? && Exec(cfg, r).callers[b].pc.Obtaining?
    requires Exec(cfg, r).callers[a].name == Exec(cfg, r).callers[b].name
    ensures a == b
  {
    FlightsAlways(cfg, r);
  }

  // ---------------------------------------------------------------- slots

  /** Past acquisition and not yet released. */
  predicate Holds(pc: Pc) { pc.WantOrder? || pc.Obtaining? || pc.Adding? || pc.Releasing? }

  function Holders(callers: map<nat, Caller>): set<nat> {
    set id | id in callers && Holds(callers[id].pc)
  }

  function Ordering(callers: map<nat, Caller>): set<nat> {
    set id | id in callers && callers[id].pc.Obtaining?
  }

  lemma HoldersAfter(callers: map<nat, Caller>, id: nat, c: Caller)
    ensures |Holders(callers[id := c])| ==
            |Holders(callers)|
            - (if id in callers && Holds(callers[id].pc) then 1 else 0)
            + (if Holds(c.pc) then 1 else 0)
  {
    var before, after := Holders(callers), Holders(callers[id := c]);
    assert before - {id} == after - {id} by {
      forall x | x != id ensures x in before <==> x in after {
        assert x in callers <==> x in callers[id := c];
      }
    }
    assert id in before <==> id in callers && Holds(callers[id].pc);
    assert id in after <==> Holds(c.pc);
    L.SetDiffer(before, after, id);
  }

  predicate SlotsRight(cfg: Config, s: State) {
    if cfg.concurrent <= 0 then s.used == 0 else s.used == |Holders(s.callers)| <= cfg.concurrent
  }

  lemma SlotsStep(cfg: Config, s: State, a: Action)
    requires Can(s, a) && SlotsRight(cfg, s)
    ensures SlotsRight(cfg, Next(cfg, s, a))
  {
    match a
    case Arrive(id, name) => HoldersAfter(s.callers, id, Caller(name, Enter));
    case Step(id, reply) => HoldersAfter(s.callers, id, s.callers[id].(pc := After(cfg, s, id, reply)));
    case _ =>
  }

  lemma {:induction false} SlotsAlways(cfg: Config, r: Run)
    requires Valid(cfg, r)
    ensures SlotsRight(cfg, Exec(cfg, r))
  {
    if r.Then? {
      SlotsAlways(cfg, r.prior);
      SlotsStep(cfg, Exec(cfg, r.prior), r.act);
    } else {
      assert Holders(map[]) == {};
    }
  }

  /** With a positive cap, the slots in use are exactly the leaders past acquisition, on every
      path out, and neither they nor the orders in flight ever exceed the cap. */
  lemma SlotsAreHeldExactly(cfg: Config, r: Run)
    requires Valid(cfg, r) && cfg.concurrent > 0
    ensures Exec(cfg, r).used == |Holders(Exec(cfg, r).callers)| <= cfg.concurrent
    ensures |Ordering(Exec(cfg, r).callers)| <= Exec(cfg, r).used
  {
    SlotsAlways(cfg, r);
    var callers := Exec(cfg, r).callers;
    L.SubsetSize(Ordering(callers), Holders(callers));
  }

  // ---------------------------------------------------------------- the hourly cap

  ghost predicate OrdersRight(cfg: Config, s: State) {
    && s.orders.max == cfg.perHour && s.orders.span == HOUR && s.orders.maxKeys == DEFAULT_MAX_KEYS
    && s.orders.seen.Keys <= {KEY}
    && (cfg.perHour > 0 ==> L.Agrees(s.orders, KEY, s.starts, s.now) && L.Capped(s.starts, cfg.perHour, HOUR))
  }

  /** With one key in use the limiter never has to evict. */
  lemma NeverEvicts(w: L.Window, now: int)
    requires w.seen.Keys <= {KEY} && w.maxKeys == DEFAULT_MAX_KEYS
    ensures !L.AtCap(w, KEY)
  {
    if KEY !in w.seen { assert w.seen == map[]; }
  }

  lemma OrdersStep(cfg: Config, s: State, a: Action)
    requires Can(s, a) && OrdersRight(cfg, s)
    ensures OrdersRight(cfg, Next(cfg, s, a))
  {
    if a.Step? && s.callers[a.id].pc.WantOrder? {
      NeverEvicts(s.orders, s.now);
      if cfg.perHour > 0 {
        var op := L.Allow(KEY, s.now, "");
        L.AgreesLater(s.orders, KEY, s.starts, s.now, s.now);
        L.AgreesStep(s.orders, KEY, s.starts, s.now, op);
        L.CappedStep(cfg.perHour, HOUR, KEY, s.starts, s.now, op);
      }
    } else if a.Tick? && cfg.perHour > 0 {
      L.AgreesLater(s.orders, KEY, s.starts, s.now, a.t);
    }
  }

  lemma {:induction false} OrdersAlways(cfg: Config, r: Run)
    requires Valid(cfg, r)
    ensures OrdersRight(cfg, Exec(cfg, r))
  {
    if r.Then? {
      OrdersAlways(cfg, r.prior);
      OrdersStep(cfg, Exec(cfg, r.prior), r.act);
    }
  }

  /** Orders that were admitted along the run, counted without looking at the limiter. */
  function OrdersStarted(cfg: Config, r: Run): nat
    requires Valid(cfg, r)
  {
    if r.Start? then 0
    else
      OrdersStarted(cfg, r.prior) +
      (if r.act.Step? && Next(cfg, Exec(cfg, r.prior), r.act).callers[r.act.id].pc.Obtaining? then 1 else 0)
  }

  lemma {:induction false} EveryOrderIsRecorded(cfg: Config, r: Run)
    requires Valid(cfg, r)
    ensures |Exec(cfg, r).starts| == OrdersStarted(cfg, r)
  {
    if r.Then? { EveryOrderIsRecorded(cfg, r.prior); }
  }

  /** With a positive cap no hour, wherever it is placed, holds more than `perHour` orders; every
      order that ran is among those counted. */
  lemma HourlyCapHolds(cfg: Config, r: Run, t: int)
    requires Valid(cfg, r) && cfg.perHour > 0
    ensures L.Load(Exec(cfg, r).starts, 3_600_000_000_000, t) <= cfg.perHour
    ensures |Exec(cfg, r).starts| == OrdersStarted(cfg, r)
  {
    OrdersAlways(cfg, r);
    EveryOrderIsRecorded(cfg, r);
  }

  // ---------------------------------------------------------------- results

  /** Followers wait for a leader of their own name; a result is that of the caller it came from;
      a caller that was told a certificate is loaded finds it in the table. */
  ghost predicate ResultsRight(s: State) {
    forall id :: id in s.callers ==> CallerRight(s, s.callers[id])
  }

  predicate CallerRight(s: State, c: Caller) {
    match c.pc
    case Waiting(l) =>
      l in s.callers && s.callers[l].name == c.name && (Leads(s.callers[l].pc) || Owns(s.callers[l].pc, l))
    case Adding(e) => e.baseName == c.name
    case Releasing(r) => r == Loaded ==> c.name in s.store.entries
    case Finishing(r) => r == Loaded ==> c.name in s.store.entries
    case Done(r, l) =>
      && l in s.callers && s.callers[l] == Caller(c.name, Done(r, l))
      && (r == Loaded ==> c.name in s.store.entries)
    case _ => true
  }

  predicate Owns(pc: Pc, l: nat) { pc.Done? && pc.from == l }

  lemma StoreGrows(cfg: Config, s: State, a: Action)
    requires Can(s, a)
    ensures s.store.entries.Keys <= Next(cfg, s, a).store.entries.Keys
    ensures a.Step? && ReadsDisk(s.callers[a.id].pc) && a.reply.Fresh? ==>
            a.reply.cert.baseName in Next(cfg, s, a).store.entries
    ensures a.Step? && s.callers[a.id].pc.Adding? ==> s.callers[a.id].pc.cert.baseName in Next(cfg, s, a).store.entries
  {
    if a.Publish? { C.AddEntryLooks(s.store, a.cert, ""); }
    if a.Step? && ReadsDisk(s.callers[a.id].pc) && a.reply.Fresh? { C.AddEntryLooks(s.store, a.reply.cert, ""); }
    if a.Step? && s.callers[a.id].pc.Adding? { C.AddEntryLooks(s.store, s.callers[a.id].pc.cert, ""); }
  }

  /** Leaders stay leaders until they own a result, and a result never changes. */
  lemma ProgressOf(cfg: Config, s: State, a: Action, l: nat)
    requires Can(s, a) && l in s.callers
    ensures var s' := Next(cfg, s, a);
            && l in s'.callers && s'.callers[l].name == s.callers[l].name
            && (Leads(s.callers[l].pc) ==> Leads(s'.callers[l].pc) || Owns(s'.callers[l].pc, l))
            && (s.callers[l].pc.Done? ==> s'.callers[l] == s.callers[l])
  {}

  lemma OthersResultKept(cfg: Config, s: State, a: Action, c: Caller)
    requires Can(s, a) && CallerRight(s, c)
    ensures CallerRight(Next(cfg, s, a), c)
  {
    StoreGrows(cfg, s, a);
    if c.pc.Waiting? { ProgressOf(cfg, s, a, c.pc.leader); }
    if c.pc.Done? { ProgressOf(cfg, s, a, c.pc.from); }
  }

  lemma MoverResultRight(cfg: Config, s: State, a: Action)
    requires Can(s, a) && a.Step? && FlightsRight(s) && ResultsRight(s)
    ensures CallerRight(Next(cfg, s, a), Next(cfg, s, a).callers[a.id])
  {
    StoreGrows(cfg, s, a);
    assert CallerRight(s, s.callers[a.id]);
    if s.callers[a.id].pc.Waiting? {
      var l := s.callers[a.id].pc.leader;
      assert CallerRight(s, s.callers[l]);
      ProgressOf(cfg, s, a, l);
    }
  }

  lemma ResultsStep(cfg: Config, s: State, a: Action)
    requires Can(s, a) && FlightsRight(s) && ResultsRight(s)
    ensures ResultsRight(Next(cfg, s, a))
  {
    var s' := Next(cfg, s, a);
    forall id | id in s'.callers ensures CallerRight(s', s'.callers[id]) {
      if a.Step? && id == a.id {
        MoverResultRight(cfg, s, a);
      } else if id in s.callers {
        assert s'.callers[id] == s.callers[id];
        OthersResultKept(cfg, s, a, s.callers[id]);
      }
    }
  }

  lemma {:induction false} ResultsAlways(cfg: Config, r: Run)
    requires Valid(cfg, r)
    ensures ResultsRight(Exec(cfg, r))
  {
    if r.Then? {
      ResultsAlways(cfg, r.prior);
      FlightsAlways(cfg, r.prior);
      ResultsStep(cfg, Exec(cfg, r.prior), r.act);
    }
  }

  /** Every caller that joined a flight, once it returns, returns its leader's result. */
  lemma FollowersGetLeadersResult(cfg: Config, r: Run, a: Action, id: nat, l: nat)
    requires Valid(cfg, r) && id in Exec(cfg, r).callers && Exec(cfg, r).callers[id].pc == Waiting(l)
    requires Can(Exec(cfg, r), a) && Next(cfg, Exec(cfg, r), a).callers[id].pc.Done?
    ensures l in Exec(cfg, r).callers &&
            Exec(cfg, r).callers[l] ==
              Caller(Exec(cfg, r).callers[id].name, Done(Next(cfg, Exec(cfg, r), a).callers[id].pc.result, l))
  {
    ResultsAlways(cfg, r);
    var s := Exec(cfg, r);
    assert CallerRight(s, s.callers[id]);
    assert CallerRight(s, s.callers[l]);
  }

  /** Whoever returns success finds a certificate loaded under its base name, in a sound table. */
  lemma SuccessMeansLoaded(cfg: Config, r: Run, id: nat)
    requires Valid(cfg, r) && id in Exec(cfg, r).callers
    requires Exec(cfg, r).callers[id].pc.Done? && Exec(cfg, r).callers[id].pc.result == Loaded
    ensures Exec(cfg, r).callers[id].name in Exec(cfg, r).store.entries && C.Sound(Exec(cfg, r).store)
  {
    ResultsAlways(cfg, r);
    assert CallerRight(Exec(cfg, r), Exec(cfg, r).callers[id]);
    StoreAlwaysSound(cfg, r);
  }

  lemma {:induction false} StoreAlwaysSound(cfg: Config, r: Run)
    requires Valid(cfg, r)
    ensures C.Sound(Exec(cfg, r).store)
  {
    if r.Then? {
      StoreAlwaysSound(cfg, r.prior);
      var s := Exec(cfg, r.prior);
      match r.act
      case Publish(e) => C.SoundStep(s.store, e);
      case Step(id, reply) =>
        if reply.Fresh? { C.SoundStep(s.store, reply.cert); }
        if s.callers[id].pc.Adding? { C.SoundStep(s.store, s.callers[id].pc.cert); }
      case _ =>
    }
  }

  // ---------------------------------------------------------------- nobody waits for ever

  /** Steps a caller still has to take at most. */
  function Left(pc: Pc): nat {
    match pc
    case Enter => 10
    case Join => 9
    case Recheck => 8
    case WantSlot => 7
    case WantOrder => 6
    case Obtaining => 5
    case Adding(_) => 4
    case Releasing(_) => 3
    case Finishing(_) => 2
    case Waiting(_) => 1
    case Done(_, _) => 0
  }

  lemma LeftFalls(cfg: Config, s: State, id: nat, reply: Reply)
    requires Can(s, Step(id, reply))
    ensures Left(After(cfg, s, id, reply)) < Left(s.callers[id].pc)
  {}

  /** Steps that the caller has taken. */
  function StepsOf(cfg: Config, r: Run, id: nat): nat
    requires Valid(cfg, r)
  {
    if r.Start? then 0 else StepsOf(cfg, r.prior, id) + (if r.act.Step? && r.act.id == id then 1 else 0)
  }

  /** Whatever the environment answers, every step takes a caller closer to returning: it returns
      after at most ten steps of its own. */
  lemma {:induction false} CallersReturn(cfg: Config, r: Run, id: nat)
    requires Valid(cfg, r)
    ensures id !in Exec(cfg, r).callers ==> StepsOf(cfg, r, id) == 0
    ensures id in Exec(cfg, r).callers ==> StepsOf(cfg, r, id) + Left(Exec(cfg, r).callers[id].pc) <= 10
  {
    if r.Then? {
      CallersReturn(cfg, r.prior, id);
      if r.act.Step? && r.act.id == id { LeftFalls(cfg, Exec(cfg, r.prior), id, r.act.reply); }
    }
  }

  /** A caller that has not returned can step, or waits for a leader that can.  The gate refuses and
      never blocks: only a follower ever waits. */
  lemma NobodyStuck(cfg: Config, r: Run, id: nat) returns (mover: nat, reply: Reply)
    requires Valid(cfg, r) && id in Exec(cfg, r).callers && !Exec(cfg, r).callers[id].pc.Done?
    ensures Can(Exec(cfg, r), Step(mover, reply))
    ensures mover == id || Exec(cfg, r).callers[id].pc == Waiting(mover)
  {
    ResultsAlways(cfg, r);
    var s := Exec(cfg, r);
    assert CallerRight(s, s.callers[id]);
    mover := id;
    if s.callers[id].pc.Waiting? && !s.callers[s.callers[id].pc.leader].pc.Done? { mover := s.callers[id].pc.leader; }
    var pc := s.callers[mover].pc;
    reply := if ReadsDisk(pc) then Stale else if pc.Obtaining? then Failed else Go;
  }

  /** A leader is refused exactly when every slot is held, or the last hour is full; a disabled cap
      refuses nobody. */
  lemma RefusedExactlyWhenFull(cfg: Config, r: Run, id: nat)
    requires Valid(cfg, r) && Can(Exec(cfg, r), Step(id, Go))
    ensures var s := Exec(cfg, r);
            var pc' := Next(cfg, s, Step(id, Go)).callers[id].pc;
            && (s.callers[id].pc.WantSlot? ==>
                  (pc' == Finishing(OrderLimit) <==> 0 < cfg.concurrent == |Holders(s.callers)|))
            && (s.callers[id].pc.WantOrder? ==>
                  (pc' == Releasing(OrderLimit) <==> 0 < cfg.perHour == L.Load(s.starts, HOUR, s.now)))
  {
    SlotsAlways(cfg, r);
    OrdersAlways(cfg, r);
    var s := Exec(cfg, r);
    if cfg.perHour > 0 { L.AgreesLater(s.orders, KEY, s.starts, s.now, s.now); }
  }
}
