/** What the end of a registration says about the ownership table, over every interleaving: which
    row an ok result stands for, what a connection that was not welcomed can have changed, and
    whose row a release deletes. */
module Outcomes {
  import opened Bytes
  import opened Signing
  import opened Naming
  import opened Protocol
  import opened ProtocolSafety
  import H = Handshake

  // ---------------------------------------------------------------- the deciding step of an ok result

  /** The step after which handleRegister can only return ok: the read that finds the caller's own
      key, the insert, or the rotation. */
  ghost predicate Settles(cfg: Config, w: World, id: nat, ev: Event) {
    id in w.hs && var pc, pc' := w.hs[id].pc, Decide(cfg, w.sh, w.hs[id], ev).pc;
    pc'.Touching? || (pc'.Joining? && !pc.Touching?)
  }

  ghost predicate SettlesAs(cfg: Config, w: World, a: Action, id: nat, u: Str, k: Key) {
    At(w, a, id) && Settles(cfg, w, id, a.ev) && w.hs[id].unique == u && KeyOf(w.hs[id]) == k
  }

  ghost predicate SettledAs(cfg: Config, r: Run, id: nat, u: Str, k: Key) {
    r.Then? && (SettledAs(cfg, r.prior, id, u, k) || SettlesAs(cfg, Exec(cfg, r.prior), r.act, id, u, k))
  }

  /** A rotation of a row that is gone. */
  ghost predicate AbsentRotation(w: World, a: Action, u: Str) {
    a.Step? && a.id in w.hs && w.hs[a.id].pc.Rotating? && u !in w.sh.store
  }

  lemma SettledRow(cfg: Config, w: World, a: Action, id: nat, u: Str, k: Key)
    requires Enabled(w, a) && SettlesAs(cfg, w, a, id, u, k)
    ensures Row(Next(cfg, w, a), u) == Some(k) <==> !AbsentRotation(w, a, u)
  {
    StoreChanges(cfg, w, a);
    SettledStore(cfg, w.sh, w.hs[id], a.ev);
  }

  lemma SettledStore(cfg: Config, sh: Shared, h: Handler, ev: Event)
    requires Can(sh, h, ev)
    requires var pc' := Decide(cfg, sh, h, ev).pc; pc'.Touching? || (pc'.Joining? && !h.pc.Touching?)
    ensures var store' := StoreAfter(sh.store, h, ev);
            if h.pc.Rotating? && h.unique !in sh.store then h.unique !in store'
            else h.unique in store' && store'[h.unique] == KeyOf(h)
  {}

  lemma TouchingStep(cfg: Config, w: World, a: Action, id: nat)
    requires Enabled(w, a) && id in Next(cfg, w, a).hs && Next(cfg, w, a).hs[id].pc.Touching?
    ensures var h' := Next(cfg, w, a).hs[id];
            (id in w.hs && w.hs[id] == h') || SettlesAs(cfg, w, a, id, h'.unique, KeyOf(h'))
  {
    HandlerNext(cfg, w, a, id);
    if At(w, a, id) { FieldsKept(cfg, w.sh, w.hs[id], a.ev); }
  }

  lemma {:induction false} TouchingSettled(cfg: Config, r: Run, id: nat)
    requires Valid(cfg, r) && id in Exec(cfg, r).hs && Exec(cfg, r).hs[id].pc.Touching?
    ensures var h := Exec(cfg, r).hs[id]; SettledAs(cfg, r, id, h.unique, KeyOf(h))
  {
    TouchingStep(cfg, Exec(cfg, r.prior), r.act, id);
    var h, w := Exec(cfg, r).hs[id], Exec(cfg, r.prior);
    if id in w.hs && w.hs[id] == h { TouchingSettled(cfg, r.prior, id); }
  }

  lemma ReturningSettles(cfg: Config, sh: Shared, h: Handler, ev: Event)
    requires Can(sh, h, ev) && ReturnsOk(sh, h, ev)
    ensures h.pc.Touching? || Decide(cfg, sh, h, ev).pc.Joining?
  {}

  /** Every ok result of handleRegister has a deciding step. */
  lemma {:induction false} OkWasSettled(cfg: Config, r: Run, id: nat, u: Str, k: Key)
    requires Valid(cfg, r) && Returned(cfg, r, id, u, k)
    ensures SettledAs(cfg, r, id, u, k)
  {
    if Returned(cfg, r.prior, id, u, k) {
      OkWasSettled(cfg, r.prior, id, u, k);
    } else {
      var w := Exec(cfg, r.prior);
      ReturningSettles(cfg, w.sh, w.hs[id], r.act.ev);
      if w.hs[id].pc.Touching? { TouchingSettled(cfg, r.prior, id); }
    }
  }

  /** `s` ends with the deciding step of `id` for `u` with `k`. */
  ghost predicate DecidedAt(cfg: Config, s: Run, id: nat, u: Str, k: Key) {
    s.Then? && Valid(cfg, s) && SettlesAs(cfg, Exec(cfg, s.prior), s.act, id, u, k)
  }

  lemma {:induction false} FindDecision(cfg: Config, r: Run, id: nat, u: Str, k: Key) returns (s: Run)
    requires Valid(cfg, r) && SettledAs(cfg, r, id, u, k)
    ensures Extends(r, s) && DecidedAt(cfg, s, id, u, k)
  {
    if SettlesAs(cfg, Exec(cfg, r.prior), r.act, id, u, k) {
      s := r;
    } else {
      s := FindDecision(cfg, r.prior, id, u, k);
    }
  }

  /** Every ok result stands for the row: right after its deciding step the row holds its key, in every
      case but one, a rotation of a row that was deleted meanwhile. */
  lemma OkKeyIsRowKey(cfg: Config, r: Run, id: nat, u: Str, k: Key) returns (s: Run)
    requires Valid(cfg, r) && Returned(cfg, r, id, u, k)
    ensures Extends(r, s) && DecidedAt(cfg, s, id, u, k)
    ensures Row(Exec(cfg, s), u) == Some(k) <==> !AbsentRotation(Exec(cfg, s.prior), s.act, u)
  {
    OkWasSettled(cfg, r, id, u, k);
    s := FindDecision(cfg, r, id, u, k);
    SettledRow(cfg, Exec(cfg, s.prior), s.act, id, u, k);
  }

  // ---------------------------------------------------------------- whose row a release deletes

  ghost predicate RotatesHere(w: World, a: Action, u: Str) {
    a.Step? && a.ev == Do && a.id in w.hs && w.hs[a.id].pc.Rotating? && w.hs[a.id].unique == u
  }

  ghost predicate GivesUpHere(w: World, a: Action, u: Str) {
    a == OperatorDelete(u) ||
      (a.Step? && a.ev == Do && a.id in w.hs && w.hs[a.id].pc.Deleting? && w.hs[a.id].unique == u)
  }

  datatype Change = Taken(key: Key) | GivenUp

  /** The step is an effective claim, rotation or give-up of `u`. */
  ghost function ChangeHere(w: World, a: Action, u: Str): Option<Change> {
    if NewHere(w, a, u) || (RotatesHere(w, a, u) && u in w.sh.store) then Some(Taken(KeyOf(w.hs[a.id])))
    else if GivesUpHere(w, a, u) && u in w.sh.store then Some(GivenUp)
    else None
  }

  /** The last of them after the prefix `s`. */
  ghost function LastChange(cfg: Config, r: Run, s: Run, u: Str): Option<Change>
    requires Extends(r, s)
  {
    if r == s then None
    else
      var c := ChangeHere(Exec(cfg, r.prior), r.act, u);
      if c.Some? then c else LastChange(cfg, r.prior, s, u)
  }

  lemma RowStep(w: World, a: Action, u: Str)
    ensures Row(w.(sh := w.sh.(store := NextStore(w, a))), u) ==
            match ChangeHere(w, a, u) case None => Row(w, u) case Some(Taken(k)) => Some(k) case Some(GivenUp) => None
  {}

  lemma {:induction false} RowSince(cfg: Config, r: Run, s: Run, u: Str)
    requires Valid(cfg, r) && Extends(r, s)
    ensures Row(Exec(cfg, r), u) ==
            match LastChange(cfg, r, s, u)
            case None => Row(Exec(cfg, s), u)
            case Some(Taken(k)) => Some(k)
            case Some(GivenUp) => None
  {
    if r != s {
      RowSince(cfg, r.prior, s, u);
      StoreChanges(cfg, Exec(cfg, r.prior), r.act);
      RowStep(Exec(cfg, r.prior), r.act, u);
    }
  }

  /** Nobody rotates or gives up `u` after `s`. */
  ghost predicate Undisturbed(cfg: Config, r: Run, s: Run, u: Str)
    requires Extends(r, s)
  {
    r == s ||
    (Undisturbed(cfg, r.prior, s, u) && !RotatesHere(Exec(cfg, r.prior), r.act, u) &&
      !GivesUpHere(Exec(cfg, r.prior), r.act, u))
  }

  lemma {:induction false} UndisturbedRow(cfg: Config, r: Run, s: Run, u: Str)
    requires Valid(cfg, r) && Extends(r, s) && Undisturbed(cfg, r, s, u) && u in Exec(cfg, s).sh.store
    ensures Row(Exec(cfg, r), u) == Row(Exec(cfg, s), u)
  {
    if r != s {
      UndisturbedRow(cfg, r.prior, s, u);
      StoreChanges(cfg, Exec(cfg, r.prior), r.act);
      RowStep(Exec(cfg, r.prior), r.act, u);
    }
  }

  /** What a change of the row since the deciding step leaves of the decision. */
  ghost predicate StillOwns(cfg: Config, r: Run, s: Run, u: Str, k: Key)
    requires Extends(r, s) && s.Then?
  {
    match LastChange(cfg, r, s, u)
    case None => !AbsentRotation(Exec(cfg, s.prior), s.act, u)
    case Some(c) => c == Taken(k)
  }

  lemma DeletingReturned(cfg: Config, r: Run, w: World, id: nat)
    requires Valid(cfg, r) && w == Exec(cfg, r) && id in w.hs && w.hs[id].pc.Deleting?
    ensures Returned(cfg, r, id, w.hs[id].unique, KeyOf(w.hs[id]))
  {
    HandlersEarned(cfg, r);
    assert HandlerOk(cfg, r, w.sh.signed, id, w.hs[id]);
  }

  /** The release of a session deletes a row of the session's own key iff the last effective claim,
      rotation or give-up of the name since the step that decided its registration, if there is one,
      was a taking by the same key; in particular when nobody rotated or gave up the name since. */
  lemma ReleaseHitsOwnRow(cfg: Config, r: Run, id: nat, u: Str, k: Key) returns (s: Run)
    requires Valid(cfg, r) && id in Exec(cfg, r).hs && Exec(cfg, r).hs[id].pc.Deleting?
    requires Exec(cfg, r).hs[id].unique == u && KeyOf(Exec(cfg, r).hs[id]) == k
    ensures Extends(r, s) && DecidedAt(cfg, s, id, u, k)
    ensures Row(Exec(cfg, r), u) == Some(k) <==> StillOwns(cfg, r, s, u, k)
    ensures !AbsentRotation(Exec(cfg, s.prior), s.act, u) && Undisturbed(cfg, r, s, u) ==>
            Row(Exec(cfg, r), u) == Some(k)
  {
    DeletingReturned(cfg, r, Exec(cfg, r), id);
    s := OkKeyIsRowKey(cfg, r, id, u, k);
    RowSince(cfg, r, s, u);
    if !AbsentRotation(Exec(cfg, s.prior), s.act, u) && Undisturbed(cfg, r, s, u) { UndisturbedRow(cfg, r, s, u); }
  }

  /** The documented rule verifies a Deregister under the stored key, the server under the session's:
      on the frames the server accepts, the documented rule accepts iff the row is the session's. */
  lemma DocumentedRule(store: map<Str, Key>, now: int, u: Str, k: Key, f: Inbound)
    requires DeregisterFault(now, u, k, f).None?
    ensures u in store && DeregisterFault(now, u, store[u], f).None? <==> u in store && store[u] == k
  {}

  // ---------------------------------------------------------------- connections that were not welcomed

  /** handleRegister returned ok to the connection. */
  ghost predicate HasReturned(cfg: Config, r: Run, id: nat) {
    r.Then? &&
    (HasReturned(cfg, r.prior, id) ||
     (var w := Exec(cfg, r.prior); At(w, r.act, id) && ReturnsOk(w.sh, w.hs[id], r.act.ev)))
  }

  /** The peer was lost between the registry and RegisterOK. */
  ghost predicate LostAtGreeting(cfg: Config, r: Run, id: nat) {
    r.Then? &&
    (LostAtGreeting(cfg, r.prior, id) ||
     (var w := Exec(cfg, r.prior); At(w, r.act, id) && w.hs[id].pc.Greeting? && r.act.ev == PeerGone))
  }

  /** The frame that refused the connection says that its label is taken. */
  ghost predicate LabelRefused(h: Handler) {
    h.sent != [] && h.sent[|h.sent| - 1] == Deny(LabelTaken(TunnelLabel(h.unique)), 0) && H.PhaseOf(h.sent).Refused?
  }

  predicate Quiet(p: H.Phase) { p.Silent? || p.Challenged? }

  predicate CarriesDeny(pc: Pc) { pc.CertBudget? || pc.CertCancelIp? || pc.CertCancelKey? }

  /** How a program counter, the phase and the three facts go together. */
  ghost predicate Fits(pc: Pc, p: H.Phase, returned: bool, lost: bool, refused: bool) {
    && H.PhaseOk(pc, p)
    && (returned <==> InSession(pc) || (pc.Ended? && (p.Welcomed? || p.Released? || refused || lost)))
    && (lost ==> (pc.Leaving? || pc.Ended?) && Quiet(p))
    && (pc.Leaving? && Quiet(p) ==> lost)
    && (refused ==> pc.Ended? && p.Refused?)
    && (CarriesDeny(pc) ==> !pc.deny.LabelTaken?)
  }

  predicate SaysTaken(m: Move, h: Handler) { m.out == Some(Deny(LabelTaken(TunnelLabel(h.unique)), 0)) }

  /** One step, in terms of the move alone. */
  ghost predicate FitsNext(sh: Shared, h: Handler, ev: Event, m: Move, p: H.Phase, returned: bool, lost: bool) {
    var p' := if m.out.Some? then H.Shift(p, m.out.value) else p;
    Fits(m.pc, p', returned || ReturnsOk(sh, h, ev), lost || (h.pc.Greeting? && ev == PeerGone),
         SaysTaken(m, h) && p'.Refused?)
  }

  /** Before handleRegister returns. */
  ghost predicate EarlyFacts(sh: Shared, h: Handler, ev: Event, m: Move) {
    && (InSession(m.pc) ==> m.pc.Joining?) && (m.pc.Joining? <==> ReturnsOk(sh, h, ev))
    && (m.out.Some? ==> m.out.value.Challenge? || (m.out.value.Deny? && !m.out.value.reason.LabelTaken?))
    && (CarriesDeny(m.pc) ==> !m.pc.deny.LabelTaken?)
  }

  lemma EarlyRefunds(cfg: Config, sh: Shared, h: Handler, ev: Event)
    requires Can(sh, h, ev) && 0 < H.Rank(h.pc) <= 4 && (CarriesDeny(h.pc) ==> !h.pc.deny.LabelTaken?)
    ensures EarlyFacts(sh, h, ev, Decide(cfg, sh, h, ev))
  {}

  lemma EarlyGates(cfg: Config, sh: Shared, h: Handler, ev: Event)
    requires Can(sh, h, ev) && H.Rank(h.pc) > 12
    ensures EarlyFacts(sh, h, ev, Decide(cfg, sh, h, ev))
  {}

  lemma EarlyDecisions(cfg: Config, sh: Shared, h: Handler, ev: Event)
    requires Can(sh, h, ev) && 6 < H.Rank(h.pc) <= 12
    ensures EarlyFacts(sh, h, ev, Decide(cfg, sh, h, ev))
  {}

  lemma FitsEarly(cfg: Config, sh: Shared, h: Handler, ev: Event, m: Move, p: H.Phase, returned: bool, lost: bool)
    requires Fits(h.pc, p, returned, lost, false) && !InSession(h.pc) && !h.pc.Ended? && EarlyFacts(sh, h, ev, m)
    requires H.PhaseOk(m.pc, if m.out.Some? then H.Shift(p, m.out.value) else p)
    ensures FitsNext(sh, h, ev, m, p, returned, lost)
  {}

  lemma FitsJoining(cfg: Config, sh: Shared, h: Handler, ev: Event, p: H.Phase, returned: bool, lost: bool)
    requires Can(sh, h, ev) && Fits(h.pc, p, returned, lost, false) && 4 < H.Rank(h.pc) <= 6
    ensures FitsNext(sh, h, ev, Decide(cfg, sh, h, ev), p, returned, lost)
  {}

  lemma FitsSession(cfg: Config, sh: Shared, h: Handler, ev: Event, p: H.Phase, returned: bool, lost: bool)
    requires Can(sh, h, ev) && Fits(h.pc, p, returned, lost, false) && H.Over(h.pc)
    ensures FitsNext(sh, h, ev, Decide(cfg, sh, h, ev), p, returned, lost)
  {}

  lemma FitsDecides(cfg: Config, sh: Shared, h: Handler, ev: Event, p: H.Phase, returned: bool, lost: bool)
    requires Can(sh, h, ev) && Fits(h.pc, p, returned, lost, false)
    ensures FitsNext(sh, h, ev, Decide(cfg, sh, h, ev), p, returned, lost)
  {
    H.OverIsRankZero(h.pc);
    if H.Rank(h.pc) > 6 || 0 < H.Rank(h.pc) <= 4 {
      H.PhaseMoves(cfg, sh, h, ev, p);
      if H.Rank(h.pc) > 12 { EarlyGates(cfg, sh, h, ev); }
      else if H.Rank(h.pc) > 6 { EarlyDecisions(cfg, sh, h, ev); }
      else { EarlyRefunds(cfg, sh, h, ev); }
      FitsEarly(cfg, sh, h, ev, Decide(cfg, sh, h, ev), p, returned, lost);
    }
    else if H.Rank(h.pc) > 4 { FitsJoining(cfg, sh, h, ev, p, returned, lost); }
    else { FitsSession(cfg, sh, h, ev, p, returned, lost); }
  }

  ghost predicate HandlerFits(cfg: Config, r: Run, id: nat, h: Handler) {
    Fits(h.pc, H.PhaseOf(h.sent), HasReturned(cfg, r, id), LostAtGreeting(cfg, r, id), LabelRefused(h))
  }

  /** The facts about the handler after its step are the facts about its move. */
  lemma MoveTells(cfg: Config, sh: Shared, h: Handler, ev: Event, h': Handler)
    requires Can(sh, h, ev) && h' == Moved(cfg, sh, h, ev) && !LabelRefused(h) && (h.pc.AwaitRegister? ==> h.sent == [])
    ensures var m := Decide(cfg, sh, h, ev);
            && h'.pc == m.pc
            && H.PhaseOf(h'.sent) ==
                 (if m.out.Some? then H.Shift(H.PhaseOf(h.sent), m.out.value) else H.PhaseOf(h.sent))
            && (LabelRefused(h') <==> SaysTaken(m, h) && H.PhaseOf(h'.sent).Refused?)
  {
    var m := Decide(cfg, sh, h, ev);
    FieldsKept(cfg, sh, h, ev);
    if m.out.Some? { H.PhaseSnoc(h.sent, m.out.value); }
    if h.pc.AwaitRegister? { OpeningSaysNoLabel(cfg, sh, h, ev); }
  }

  lemma OpeningSaysNoLabel(cfg: Config, sh: Shared, h: Handler, ev: Event)
    requires h.pc.AwaitRegister?
    ensures var out := Decide(cfg, sh, h, ev).out; out.Some? ==> out.value.Deny? && !out.value.reason.LabelTaken?
  {}

  lemma {:induction false} SilentIsEmpty(sent: seq<Outbound>)
    requires H.PhaseOf(sent).Silent?
    ensures sent == []
  {}

  /** A connection that appears has neither returned nor been lost before. */
  lemma {:induction false} NewcomersHaveNoPast(cfg: Config, r: Run, id: nat)
    requires Valid(cfg, r) && id !in Exec(cfg, r).hs
    ensures !HasReturned(cfg, r, id) && !LostAtGreeting(cfg, r, id)
  {
    if r.Then? {
      StaysKnown(cfg, Exec(cfg, r.prior), r.act, id);
      NewcomersHaveNoPast(cfg, r.prior, id);
    }
  }

  lemma StaysKnown(cfg: Config, w: World, a: Action, id: nat)
    ensures id in w.hs ==> id in Next(cfg, w, a).hs
  {}

  lemma FitsStep(cfg: Config, r: Run, w: World, id: nat, ev: Event, h': Handler)
    requires w == Exec(cfg, r) && Enabled(w, Step(id, ev)) && h' == Moved(cfg, w.sh, w.hs[id], ev) &&
             HandlerFits(cfg, r, id, w.hs[id])
    ensures HandlerFits(cfg, Then(r, Step(id, ev)), id, h')
  {
    var h := w.hs[id];
    if h.pc.AwaitRegister? { SilentIsEmpty(h.sent); }
    MoveTells(cfg, w.sh, h, ev, h');
    FitsDecides(cfg, w.sh, h, ev, H.PhaseOf(h.sent), HasReturned(cfg, r, id), LostAtGreeting(cfg, r, id));
  }

  lemma {:induction false} FitsAlways(cfg: Config, r: Run, id: nat)
    requires Valid(cfg, r) && id in Exec(cfg, r).hs
    ensures HandlerFits(cfg, r, id, Exec(cfg, r).hs[id])
  {
    if r.Then? {
      var w := Exec(cfg, r.prior);
      HandlerNext(cfg, w, r.act, id);
      if id in w.hs {
        FitsAlways(cfg, r.prior, id);
        if At(w, r.act, id) { FitsStep(cfg, r.prior, w, id, r.act.ev, Exec(cfg, r).hs[id]); }
      } else {
        NewcomersHaveNoPast(cfg, r.prior, id);
      }
    }
  }

  lemma WritersReturned(cfg: Config, r: Run, id: nat)
    requires Valid(cfg, r) && Wrote(cfg, r, id)
    ensures HasReturned(cfg, r, id)
  {
    OnlyOkWrites(cfg, r, id);
    var u, k :| Returned(cfg, r, id, u, k);
    ReturnedHas(cfg, r, id, u, k);
  }

  lemma {:induction false} ReturnedHas(cfg: Config, r: Run, id: nat, u: Str, k: Key)
    requires Returned(cfg, r, id, u, k)
    ensures HasReturned(cfg, r, id)
  {
    if Returned(cfg, r.prior, id, u, k) { ReturnedHas(cfg, r.prior, id, u, k); }
  }

  // ---------------------------------------------------------------- who is told that its name is new

  ghost predicate InsertsHere(w: World, a: Action, id: nat) {
    At(w, a, id) && a.ev == Do && w.hs[id].pc.Claim? && w.hs[id].unique !in w.sh.store
  }

  ghost predicate Inserts(cfg: Config, r: Run, id: nat) {
    r.Then? && (Inserts(cfg, r.prior, id) || InsertsHere(Exec(cfg, r.prior), r.act, id))
  }

  /** What the flag and the program counter tell. */
  ghost predicate NewFits(pc: Pc, isNew: bool, inserted: bool) {
    (isNew <==> inserted) && (isNew ==> InSession(pc) || pc.Ended?)
  }

  lemma NewMoves(cfg: Config, sh: Shared, h: Handler, ev: Event, inserted: bool)
    requires Can(sh, h, ev) && NewFits(h.pc, h.isNew, inserted)
    ensures var h' := Moved(cfg, sh, h, ev);
            NewFits(h'.pc, h'.isNew, inserted || (ev == Do && h.pc.Claim? && h.unique !in sh.store))
  {
    if InSession(h.pc) { SessionStays(cfg, sh, h, ev); }
  }

  lemma SessionStays(cfg: Config, sh: Shared, h: Handler, ev: Event)
    requires Can(sh, h, ev) && InSession(h.pc)
    ensures var pc' := Decide(cfg, sh, h, ev).pc; !pc'.Joining? && (InSession(pc') || pc'.Ended?)
  {
    if h.pc.Serving? && ev.Recv? { ControlLeads(sh.now, h, ev.f); }
  }

  lemma {:induction false} NewcomersInsertedNothing(cfg: Config, r: Run, id: nat)
    requires Valid(cfg, r) && id !in Exec(cfg, r).hs
    ensures !Inserts(cfg, r, id)
  {
    if r.Then? {
      StaysKnown(cfg, Exec(cfg, r.prior), r.act, id);
      NewcomersInsertedNothing(cfg, r.prior, id);
    }
  }

  /** newRegistration is true of a connection iff it inserted the row. */
  lemma {:induction false} NewExactly(cfg: Config, r: Run, id: nat)
    requires Valid(cfg, r) && id in Exec(cfg, r).hs
    ensures NewFits(Exec(cfg, r).hs[id].pc, Exec(cfg, r).hs[id].isNew, Inserts(cfg, r, id))
  {
    if r.Then? {
      var w := Exec(cfg, r.prior);
      HandlerNext(cfg, w, r.act, id);
      if id in w.hs {
        NewExactly(cfg, r.prior, id);
        if At(w, r.act, id) { NewMoves(cfg, w.sh, w.hs[id], r.act.ev, Inserts(cfg, r.prior, id)); }
      } else {
        NewcomersInsertedNothing(cfg, r.prior, id);
      }
    }
  }

  // ---------------------------------------------------------------- what an unwelcomed connection has written

  /** An insert, or a rotation of a present row that holds another key. */
  ghost predicate AltersHere(w: World, a: Action, id: nat) {
    At(w, a, id) && a.ev == Do && var h := w.hs[id];
    || (h.pc.Claim? && h.unique !in w.sh.store)
    || (h.pc.Rotating? && h.unique in w.sh.store && w.sh.store[h.unique] != KeyOf(h))
  }

  ghost predicate Altered(cfg: Config, r: Run, id: nat) {
    r.Then? && (Altered(cfg, r.prior, id) || AltersHere(Exec(cfg, r.prior), r.act, id))
  }

  ghost predicate DeletesOwn(w: World, a: Action, id: nat) {
    At(w, a, id) && a.ev == Do && w.hs[id].pc.Deleting? && w.hs[id].unique in w.sh.store
  }

  ghost predicate Deleted(cfg: Config, r: Run, id: nat) {
    r.Then? && (Deleted(cfg, r.prior, id) || DeletesOwn(Exec(cfg, r.prior), r.act, id))
  }

  lemma WriteKinds(w: World, a: Action, id: nat)
    ensures WroteHere(w, a, id) <==> AltersHere(w, a, id) || DeletesOwn(w, a, id)
  {
    if At(w, a, id) {
      var h := w.hs[id];
      if AltersHere(w, a, id) { assert NextStore(w, a)[h.unique] == KeyOf(h); }
      if DeletesOwn(w, a, id) { assert h.unique !in NextStore(w, a); }
      if h.pc.Rotating? && h.unique in w.sh.store && w.sh.store[h.unique] == KeyOf(h) {
        assert w.sh.store[h.unique := KeyOf(h)] == w.sh.store;
      }
    }
  }

  lemma {:induction false} WroteKinds(cfg: Config, r: Run, id: nat)
    ensures Wrote(cfg, r, id) <==> Altered(cfg, r, id) || Deleted(cfg, r, id)
  {
    if r.Then? {
      WroteKinds(cfg, r.prior, id);
      WriteKinds(Exec(cfg, r.prior), r.act, id);
    }
  }

  /** The alteration is the deciding step of the registration. */
  lemma AlteringSettles(cfg: Config, w: World, a: Action, id: nat)
    requires Enabled(w, a) && AltersHere(w, a, id)
    ensures SettlesAs(cfg, w, a, id, w.hs[id].unique, KeyOf(w.hs[id]))
  {}

  predicate Served(p: H.Phase) { p.Welcomed? || p.Released? }

  lemma ServedStep(cfg: Config, w: World, a: Action, id: nat)
    requires Enabled(w, a) && id in w.hs && Served(H.PhaseOf(w.hs[id].sent))
    requires id in Next(cfg, w, a).hs && !H.PhaseOf(Next(cfg, w, a).hs[id].sent).Broken?
    ensures Served(H.PhaseOf(Next(cfg, w, a).hs[id].sent))
  {
    HandlerNext(cfg, w, a, id);
    if At(w, a, id) {
      var out := Decide(cfg, w.sh, w.hs[id], a.ev).out;
      if out.Some? { H.PhaseSnoc(w.hs[id].sent, out.value); }
    }
  }

  lemma {:induction false} DeletersServed(cfg: Config, r: Run, id: nat)
    requires Valid(cfg, r) && Deleted(cfg, r, id)
    ensures id in Exec(cfg, r).hs && Served(H.PhaseOf(Exec(cfg, r).hs[id].sent))
  {
    var w := Exec(cfg, r.prior);
    StaysKnown(cfg, w, r.act, id);
    if Deleted(cfg, r.prior, id) { DeletersServed(cfg, r.prior, id); } else { H.ServerSpeaksInOrder(cfg, r.prior, id); }
    H.ServerSpeaksInOrder(cfg, r, id);
    ServedStep(cfg, w, r.act, id);
  }

  /** A connection that ended without a RegisterOK: if it was refused, its handleRegister had returned
      ok iff the refusal says that the label is taken; if nothing was said, iff the peer was lost
      between the registry and RegisterOK.  It has changed a row iff its deciding step was an insert,
      or a rotation of a present row of another key; and then it is one of these two cases. */
  lemma UnwelcomedOutcome(cfg: Config, r: Run, id: nat, h: Handler, p: H.Phase)
    requires Valid(cfg, r) && id in Exec(cfg, r).hs && h == Exec(cfg, r).hs[id] && h.pc.Ended?
    requires p == H.PhaseOf(h.sent) && !Served(p)
    ensures p.Refused? ==> (HasReturned(cfg, r, id) <==> LabelRefused(h))
    ensures Quiet(p) ==> (HasReturned(cfg, r, id) <==> LostAtGreeting(cfg, r, id))
    ensures Wrote(cfg, r, id) <==> Altered(cfg, r, id)
    ensures Wrote(cfg, r, id) ==> LabelRefused(h) || (Quiet(p) && LostAtGreeting(cfg, r, id))
  {
    FitsAlways(cfg, r, id);
    WroteKinds(cfg, r, id);
    if Deleted(cfg, r, id) { DeletersServed(cfg, r, id); }
    if Wrote(cfg, r, id) { WritersReturned(cfg, r, id); }
  }
}
