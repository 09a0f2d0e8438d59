/** The client's half of the handshake (internal/tunnelclient/client.go) composed with the
    server's, over every interleaving with other connections. */
module Handshake {
  import opened Bytes
  import opened Signing
  import opened Naming
  import opened Protocol
  import S = ProtocolSafety
  import L = Limiter

  // ---------------------------------------------------------------- what the server writes

  /** How far the frames written so far have got. */
  datatype Phase = Silent | Challenged | Welcomed | Refused | Released | Broken

  function Shift(p: Phase, o: Outbound): Phase {
    match o
    case Challenge(_) => if p.Silent? then Challenged else Broken
    case RegisterOK(_) => if p.Silent? || p.Challenged? then Welcomed else Broken
    case Deny(_, _) => if p.Silent? || p.Challenged? then Refused else if p.Welcomed? then Welcomed else Broken
    case DeregisterOK => if p.Welcomed? then Released else Broken
  }

  function PhaseOf(sent: seq<Outbound>): Phase {
    if sent == [] then Silent else Shift(PhaseOf(sent[..|sent| - 1]), sent[|sent| - 1])
  }

  lemma PhaseSnoc(sent: seq<Outbound>, o: Outbound)
    ensures PhaseOf(sent + [o]) == Shift(PhaseOf(sent), o)
  {
    assert (sent + [o])[..|sent|] == sent;
  }

  predicate Proving(pc: Pc) { pc.AwaitProof? || pc.Rotating? }

  /** Where the handler is fixes what it can have written. */
  predicate PhaseOk(pc: Pc, p: Phase) {
    if Proving(pc) then p.Challenged?
    else if pc.Joining? || pc.Greeting? then p.Silent? || p.Challenged?
    else if pc.Serving? || pc.Deleting? || pc.Draining? then p.Welcomed?
    else if pc.Leaving? then p.Silent? || p.Challenged? || p.Welcomed? || p.Released?
    else if pc.Ended? then !p.Broken?
    else p.Silent?
  }

  /** The program counters before and after a step agree with the frame it writes, if any. */
  lemma PhaseMoves(cfg: Config, sh: Shared, h: Handler, ev: Event, p: Phase)
    requires Can(sh, h, ev) && PhaseOk(h.pc, p)
    ensures var m := Decide(cfg, sh, h, ev); PhaseOk(m.pc, if m.out.Some? then Shift(p, m.out.value) else p)
  {}

  lemma PhaseStep(cfg: Config, sh: Shared, h: Handler, ev: Event, h': Handler)
    requires Can(sh, h, ev) && PhaseOk(h.pc, PhaseOf(h.sent)) && h' == Moved(cfg, sh, h, ev)
    ensures PhaseOk(h'.pc, PhaseOf(h'.sent))
  {
    PhaseMoves(cfg, sh, h, ev, PhaseOf(h.sent));
    var m := Decide(cfg, sh, h, ev);
    if m.out.Some? { PhaseSnoc(h.sent, m.out.value); }
  }

  lemma PhaseNext(cfg: Config, w: World, a: Action, id: nat, h': Handler)
    requires Enabled(w, a) && id in Next(cfg, w, a).hs && h' == Next(cfg, w, a).hs[id]
    requires id in w.hs ==> PhaseOk(w.hs[id].pc, PhaseOf(w.hs[id].sent))
    ensures PhaseOk(h'.pc, PhaseOf(h'.sent))
  {
    HandlerNext(cfg, w, a, id);
    if a.Step? && a.id == id { PhaseStep(cfg, w.sh, w.hs[id], a.ev, h'); }
  }

  /** In every run each connection is sent at most one Challenge, then exactly one RegisterOK
      or Deny, and after a RegisterOK only replies, the last of which may be DeregisterOK. */
  lemma {:induction false} ServerSpeaksInOrder(cfg: Config, r: Run, id: nat)
    requires Valid(cfg, r) && id in Exec(cfg, r).hs
    ensures var h := Exec(cfg, r).hs[id]; PhaseOk(h.pc, PhaseOf(h.sent))
  {
    if r.Then? {
      if id in Exec(cfg, r.prior).hs { ServerSpeaksInOrder(cfg, r.prior, id); }
      PhaseNext(cfg, Exec(cfg, r.prior), r.act, id, Exec(cfg, r).hs[id]);
    }
  }

  // ---------------------------------------------------------------- the client

  datatype Client = Client(key: Key, unique: Str, ts: int64)

  /** registerWithServer as an automaton over the frames it reads. */
  datatype ClientState =
    | Waiting(proved: bool)
    | Connected(hostname: string)
    | Denied(reason: Reason, retryAfter: int)
    | Confused

  function ClientStep(st: ClientState, o: Outbound): ClientState {
    if !st.Waiting? then st
    else match o
         case Challenge(_) => if st.proved then Confused else Waiting(true)
         case RegisterOK(host) => Connected(host)
         case Deny(reason, wait) => Denied(reason, wait)
         case DeregisterOK => Confused
  }

  function ClientAfter(sent: seq<Outbound>): ClientState {
    if sent == [] then Waiting(false) else ClientStep(ClientAfter(sent[..|sent| - 1]), sent[|sent| - 1])
  }

  /** The Register it opens with and the Proof it answers a Challenge with: both signed with
      the one key it holds. */
  function RegisterOf(c: Client): Inbound {
    RegisterMsg(PROTO_VERSION, c.unique, Some(c.key), c.ts,
      Some(Signature(c.key, Payload(Register(c.key, c.unique, c.ts)))))
  }

  function ProofOf(c: Client, nonce: seq<byte>): Inbound {
    ProofMsg(Some(Signature(c.key, Payload(Proof(nonce)))))
  }

  /** The event is one this client can cause on a channel that does not fail. */
  predicate Honest(c: Client, h: Handler, ev: Event) {
    match h.pc
    case AwaitRegister => ev == Recv(RegisterOf(c))
    case AwaitProof(_, nonce) => ev == Recv(ProofOf(c, nonce))
    case _ => ev != PeerGone && ev != Recv(ReadError)
  }

  /** Connection `id` of the run is driven by client `c` over a reliable channel. */
  predicate Drives(cfg: Config, r: Run, id: nat, c: Client) {
    r.Then? ==>
      Drives(cfg, r.prior, id, c) &&
      (r.act.Step? && r.act.id == id && id in Exec(cfg, r.prior).hs ==> Honest(c, Exec(cfg, r.prior).hs[id], r.act.ev))
  }

  // ---------------------------------------------------------------- the two halves agree

  /** The client has understood what the server has said. */
  ghost predicate Understood(cfg: Config, unique: Str, sent: seq<Outbound>) {
    var c := ClientAfter(sent);
    match PhaseOf(sent)
    case Silent => c == Waiting(false)
    case Challenged => c == Waiting(true)
    case Welcomed => c == Connected(Hostname(cfg, unique))
    case Released => c == Connected(Hostname(cfg, unique))
    case Refused => sent != [] && var last := sent[|sent| - 1]; last.Deny? && c == Denied(last.reason, last.retryAfter)
    case Broken => true
  }

  lemma UnderstoodSnoc(cfg: Config, unique: Str, sent: seq<Outbound>, o: Outbound)
    requires Understood(cfg, unique, sent) && (o.RegisterOK? ==> o.hostname == Hostname(cfg, unique))
    ensures Understood(cfg, unique, sent + [o])
  {
    PhaseSnoc(sent, o);
    assert (sent + [o])[..|sent|] == sent;
  }

  lemma WelcomeNamesHost(cfg: Config, sh: Shared, h: Handler, ev: Event)
    ensures var out := Decide(cfg, sh, h, ev).out;
            out.Some? && out.value.RegisterOK? ==> out.value.hostname == Hostname(cfg, h.unique) && h.pc.Greeting?
  {}

  lemma UnderstoodNext(cfg: Config, w: World, a: Action, id: nat, h': Handler)
    requires Enabled(w, a) && id in Next(cfg, w, a).hs && h' == Next(cfg, w, a).hs[id]
    requires id in w.hs ==> Understood(cfg, w.hs[id].unique, w.hs[id].sent)
    requires id in w.hs ==> PhaseOk(w.hs[id].pc, PhaseOf(w.hs[id].sent))
    ensures Understood(cfg, h'.unique, h'.sent)
  {
    HandlerNext(cfg, w, a, id);
    if a.Step? && a.id == id {
      var h := w.hs[id];
      WelcomeNamesHost(cfg, w.sh, h, a.ev);
      var out := Decide(cfg, w.sh, h, a.ev).out;
      assert Understood(cfg, h'.unique, h.sent) by {
        if h.pc.AwaitRegister? { assert PhaseOf(h.sent).Silent?; } else { assert h'.unique == h.unique; }
      }
      if out.Some? { UnderstoodSnoc(cfg, h'.unique, h.sent, out.value); }
    }
  }

  /** In every run the client's state is the one the server's frames call for. */
  lemma {:induction false} ClientFollows(cfg: Config, r: Run, id: nat)
    requires Valid(cfg, r) && id in Exec(cfg, r).hs
    ensures Understood(cfg, Exec(cfg, r).hs[id].unique, Exec(cfg, r).hs[id].sent)
  {
    if r.Then? {
      if id in Exec(cfg, r.prior).hs {
        ClientFollows(cfg, r.prior, id);
        ServerSpeaksInOrder(cfg, r.prior, id);
      }
      UnderstoodNext(cfg, Exec(cfg, r.prior), r.act, id, Exec(cfg, r).hs[id]);
    }
  }

  // ---------------------------------------------------------------- a client on a channel that does not fail

  predicate Aborting(pc: Pc) { pc.GraceBudget? || pc.GraceCancelIp? || pc.GraceCancelKey? || pc.Draining? }

  /** What holds of a connection driven by `c`: it carries the client's name and key, never
      gets past a challenge (the client can only sign with the key it registers), and ends
      only with something said. */
  predicate DrivenOk(c: Client, h: Handler) {
    && (h.pc.AwaitRegister? || (h.unique == c.unique && h.pubkey == Some(c.key)))
    && !Aborting(h.pc) && !h.pc.Rotating?
    && (h.pc.Drawing? || h.pc.AwaitProof? ==> h.pc.existing != c.key)
    && (h.pc.Ended? ==> PhaseOf(h.sent).Refused? || PhaseOf(h.sent).Released?)
    && (h.pc.Leaving? ==> PhaseOf(h.sent).Released?)
  }

  predicate DrivenMove(c: Client, h: Handler, m: Move, p: Phase) {
    && !Aborting(m.pc) && !m.pc.Rotating?
    && (m.pc.Drawing? || m.pc.AwaitProof? ==> m.pc.existing != c.key)
    && (m.pc.Ended? || m.pc.Leaving? ==> var q := if m.out.Some? then Shift(p, m.out.value) else p;
                                         q.Released? || (m.pc.Ended? && q.Refused?))
  }

  lemma DrivenDecides(cfg: Config, c: Client, sh: Shared, h: Handler, ev: Event)
    requires Can(sh, h, ev) && Honest(c, h, ev) && DrivenOk(c, h) && PhaseOk(h.pc, PhaseOf(h.sent))
    ensures DrivenMove(c, h, Decide(cfg, sh, h, ev), PhaseOf(h.sent))
  {
    if h.pc.AwaitRegister? || h.pc.AwaitProof? { DrivenReads(cfg, c, sh, h, ev, PhaseOf(h.sent)); }
    else if h.pc.Authenticate? || h.pc.Serving? { DrivenChecks(cfg, c, sh, h, ev, PhaseOf(h.sent)); }
    else { DrivenWorks(cfg, c, sh, h, ev, PhaseOf(h.sent)); }
  }

  lemma DrivenReads(cfg: Config, c: Client, sh: Shared, h: Handler, ev: Event, p: Phase)
    requires h.pc.AwaitRegister? || h.pc.AwaitProof?
    requires Honest(c, h, ev) && DrivenOk(c, h) && PhaseOk(h.pc, p)
    ensures DrivenMove(c, h, Decide(cfg, sh, h, ev), p)
  {}

  lemma DrivenChecks(cfg: Config, c: Client, sh: Shared, h: Handler, ev: Event, p: Phase)
    requires h.pc.Authenticate? || h.pc.Serving?
    requires Can(sh, h, ev) && Honest(c, h, ev) && PhaseOk(h.pc, p)
    ensures DrivenMove(c, h, Decide(cfg, sh, h, ev), p)
  {}

  lemma DrivenWorks(cfg: Config, c: Client, sh: Shared, h: Handler, ev: Event, p: Phase)
    requires !h.pc.AwaitRegister? && !h.pc.AwaitProof? && !h.pc.Authenticate? && !h.pc.Serving?
    requires Can(sh, h, ev) && Honest(c, h, ev) && DrivenOk(c, h) && PhaseOk(h.pc, p)
    requires h.pc.Leaving? ==> p.Released?
    ensures DrivenMove(c, h, Decide(cfg, sh, h, ev), p)
  {}

  lemma DrivenNext(cfg: Config, c: Client, w: World, a: Action, id: nat, h': Handler)
    requires Enabled(w, a) && id in Next(cfg, w, a).hs && h' == Next(cfg, w, a).hs[id]
    requires id in w.hs ==> DrivenOk(c, w.hs[id]) && PhaseOk(w.hs[id].pc, PhaseOf(w.hs[id].sent))
    requires id in w.hs && a.Step? && a.id == id ==> Honest(c, w.hs[id], a.ev)
    ensures DrivenOk(c, h')
  {
    HandlerNext(cfg, w, a, id);
    if a.Step? && a.id == id {
      var h := w.hs[id];
      DrivenDecides(cfg, c, w.sh, h, a.ev);
      var out := Decide(cfg, w.sh, h, a.ev).out;
      if out.Some? { PhaseSnoc(h.sent, out.value); }
    }
  }

  lemma {:induction false} DrivenAlways(cfg: Config, r: Run, id: nat, c: Client)
    requires Valid(cfg, r) && Drives(cfg, r, id, c) && id in Exec(cfg, r).hs
    ensures DrivenOk(c, Exec(cfg, r).hs[id])
  {
    if r.Then? {
      if id in Exec(cfg, r.prior).hs {
        DrivenAlways(cfg, r.prior, id, c);
        ServerSpeaksInOrder(cfg, r.prior, id);
      }
      DrivenNext(cfg, c, Exec(cfg, r.prior), r.act, id, Exec(cfg, r).hs[id]);
    }
  }

  /** The composed handshake: the client is connected, under TunnelLabel(unique).apex, iff the
      server welcomed it; otherwise it holds the server's reason; and when the server is
      done the client is never left waiting. */
  lemma HandshakeOutcome(cfg: Config, r: Run, id: nat, c: Client)
    requires Valid(cfg, r) && Drives(cfg, r, id, c) && id in Exec(cfg, r).hs
    ensures var h := Exec(cfg, r).hs[id];
            var st, p := ClientAfter(h.sent), PhaseOf(h.sent);
            && !st.Confused?
            && (st.Connected? <==> p.Welcomed? || p.Released?)
            && (st.Connected? ==> st.hostname == c.unique + "-tunnel" + "." + cfg.apex)
            && (st.Denied? <==> p.Refused?)
            && (st.Denied? ==> h.sent != [] && h.sent[|h.sent| - 1] == Deny(st.reason, st.retryAfter))
            && (h.pc.Ended? ==> !st.Waiting?)
  {
    ServerSpeaksInOrder(cfg, r, id);
    ClientFollows(cfg, r, id);
    DrivenAlways(cfg, r, id, c);
  }

  // ---------------------------------------------------------------- no deadlock, and an end

  function Rank(pc: Pc): nat {
    match pc
    case AwaitRegister => 20
    case IpGate => 19
    case Authenticate => 18
    case AllowGate => 17
    case Lookup => 16
    case KeyGate => 15
    case Grace => 14
    case Ensure => 13
    case Claim => 12
    case Reread => 11
    case Touching => 10
    case Drawing(_) => 9
    case AwaitProof(_, _) => 8
    case Rotating(_, _) => 7
    case Joining => 6
    case Greeting => 5
    case GraceBudget => 4
    case CertBudget(_) => 4
    case SkewBudget => 3
    case GraceCancelIp => 3
    case CertCancelIp(_) => 3
    case SkewCancel => 2
    case GraceCancelKey => 2
    case CertCancelKey(_) => 2
    case IpHint => 1
    case KeyHint => 1
    case _ => 0
  }

  /** Every step of a handshake brings it nearer its end. */
  lemma RankFalls(cfg: Config, sh: Shared, h: Handler, ev: Event)
    requires Can(sh, h, ev) && Rank(h.pc) > 0
    ensures Rank(Decide(cfg, sh, h, ev).pc) < Rank(h.pc)
  {
    if Rank(h.pc) > 10 { RankFallsEarly(cfg, sh, h, ev); }
    else if Rank(h.pc) > 7 { RankFallsLate(cfg, sh, h, ev); }
    else if Rank(h.pc) > 4 { RankFallsJoining(cfg, sh, h, ev); }
    else { RankFallsLast(cfg, sh, h, ev); }
  }

  lemma RankFallsEarly(cfg: Config, sh: Shared, h: Handler, ev: Event)
    requires Can(sh, h, ev) && Rank(h.pc) > 10
    ensures Rank(Decide(cfg, sh, h, ev).pc) < Rank(h.pc)
  {}

  lemma RankFallsLate(cfg: Config, sh: Shared, h: Handler, ev: Event)
    requires Can(sh, h, ev) && 7 < Rank(h.pc) <= 10
    ensures Rank(Decide(cfg, sh, h, ev).pc) < Rank(h.pc)
  {
    if h.pc.AwaitProof? { ProofLeads(ev.f, h.pc.existing, h.pc.nonce); }
  }

  lemma RankFallsJoining(cfg: Config, sh: Shared, h: Handler, ev: Event)
    requires Can(sh, h, ev) && 4 < Rank(h.pc) <= 7
    ensures Rank(Decide(cfg, sh, h, ev).pc) < Rank(h.pc)
  {}

  lemma RankFallsLast(cfg: Config, sh: Shared, h: Handler, ev: Event)
    requires Can(sh, h, ev) && 0 < Rank(h.pc) <= 4
    ensures Rank(Decide(cfg, sh, h, ev).pc) < Rank(h.pc)
  {}

  ghost function HandshakeSteps(cfg: Config, r: Run, id: nat): nat {
    if r.Start? then 0
    else
      var w := Exec(cfg, r.prior);
      HandshakeSteps(cfg, r.prior, id) + (if S.At(w, r.act, id) && Rank(w.hs[id].pc) > 0 then 1 else 0)
  }

  /** A handshake takes at most twenty server steps, however the run interleaves. */
  lemma {:induction false} HandshakeEnds(cfg: Config, r: Run, id: nat)
    requires Valid(cfg, r)
    ensures id !in Exec(cfg, r).hs ==> HandshakeSteps(cfg, r, id) == 0
    ensures id in Exec(cfg, r).hs ==> HandshakeSteps(cfg, r, id) + Rank(Exec(cfg, r).hs[id].pc) <= 20
  {
    if r.Then? {
      HandshakeEnds(cfg, r.prior, id);
      RankNext(cfg, Exec(cfg, r.prior), r.act, id, Exec(cfg, r));
    }
  }

  lemma RankNext(cfg: Config, w: World, a: Action, id: nat, w': World)
    requires Enabled(w, a) && w' == Next(cfg, w, a)
    ensures id in w.hs ==> id in w'.hs
    ensures id in w.hs && !(a.Step? && a.id == id) ==> w'.hs[id] == w.hs[id]
    ensures id in w.hs && a.Step? && a.id == id ==>
              if Rank(w.hs[id].pc) > 0 then Rank(w'.hs[id].pc) < Rank(w.hs[id].pc) else Rank(w'.hs[id].pc) == 0
    ensures id !in w.hs && id in w'.hs ==> Rank(w'.hs[id].pc) <= 20
    ensures id !in w.hs ==> !S.At(w, a, id)
  {
    if id in w'.hs {
      HandlerNext(cfg, w, a, id);
      if a.Step? && a.id == id {
        if Rank(w.hs[id].pc) > 0 { RankFalls(cfg, w.sh, w.hs[id], a.ev); }
        else { RankStays(cfg, w.sh, w.hs[id], a.ev); }
      }
    }
  }

  /** The handshake is over. */
  predicate Over(pc: Pc) { pc.Serving? || pc.Deleting? || pc.Draining? || pc.Leaving? || pc.Ended? }

  lemma OverIsRankZero(pc: Pc)
    ensures Over(pc) <==> Rank(pc) == 0
  {}

  lemma OverStays(cfg: Config, sh: Shared, h: Handler, ev: Event)
    requires Over(h.pc)
    ensures Over(Decide(cfg, sh, h, ev).pc)
  {
    if h.pc.Serving? && ev.Recv? { assert Over(OnControl(sh.now, h, ev.f).pc); }
  }

  lemma RankStays(cfg: Config, sh: Shared, h: Handler, ev: Event)
    requires Rank(h.pc) == 0
    ensures Rank(Decide(cfg, sh, h, ev).pc) == 0
  {
    OverIsRankZero(h.pc);
    OverStays(cfg, sh, h, ev);
    OverIsRankZero(Decide(cfg, sh, h, ev).pc);
  }

  /** The client has put its name to the frame the server is waiting for. */
  ghost predicate Ready(sh: Shared, h: Handler, c: Client) {
    && (h.pc.AwaitRegister? ==> (c.key, Register(c.key, c.unique, c.ts)) in sh.signed)
    && (h.pc.AwaitProof? ==> (c.key, Proof(h.pc.nonce)) in sh.signed)
  }

  lemma SomeVictim(w: L.Window, key: string, now: int) returns (victim: string)
    ensures L.VictimPossible(w, key, now, victim)
  {
    victim := "";
    if L.Evicts(w, key, now) {
      var p := L.Pruned(w.seen, now - w.span);
      assert |p.Keys| == |p| > 0;
      victim :| victim in p;
    }
  }

  lemma CallPossible(sh: Shared, h: Handler) returns (ev: Event)
    requires h.pc.IpGate? || h.pc.KeyGate? || BudgetPc(h.pc)
    ensures Can(sh, h, ev) && ev.Call?
  {
    var v1 := SomeVictim(sh.ips, h.ip, sh.now);
    var v2 := SomeVictim(sh.keys, KeyText(KeyOf(h)), sh.now);
    var v3 := SomeVictim(sh.refunds, h.ip, sh.now);
    ev := Call(if h.pc.IpGate? then v1 else if h.pc.KeyGate? then v2 else v3);
  }

  lemma FramePossible(sh: Shared, h: Handler, c: Client)
    requires Ready(sh, h, c) && (h.pc.AwaitRegister? || h.pc.AwaitProof?)
    ensures Can(sh, h, Recv(if h.pc.AwaitRegister? then RegisterOf(c) else ProofOf(c, h.pc.nonce)))
  {
    if h.pc.AwaitRegister? {
      assert Made(sh.signed, Signature(c.key, Payload(Register(c.key, c.unique, c.ts))));
    } else {
      assert Made(sh.signed, Signature(c.key, Payload(Proof(h.pc.nonce))));
    }
  }

  /** A random source that works has a nonce left that nobody has signed. */
  ghost predicate CanDraw(signed: set<(Key, Statement)>) {
    exists n: seq<byte> :: |n| == 32 && NeverProved(signed, n)
  }

  /** The composition never gets stuck: while the client waits, some step of its own handler
      is possible without the channel or the server failing. */
  lemma NeverStuck(cfg: Config, r: Run, id: nat, c: Client) returns (ev: Event)
    requires Valid(cfg, r) && Drives(cfg, r, id, c) && id in Exec(cfg, r).hs && CanDraw(Exec(cfg, r).sh.signed)
    requires ClientAfter(Exec(cfg, r).hs[id].sent).Waiting? && Ready(Exec(cfg, r).sh, Exec(cfg, r).hs[id], c)
    ensures Can(Exec(cfg, r).sh, Exec(cfg, r).hs[id], ev) && Honest(c, Exec(cfg, r).hs[id], ev)
    ensures ev != Fault && !ev.CertFailed? && Rank(Exec(cfg, r).hs[id].pc) > 0
  {
    var sh, h := Exec(cfg, r).sh, Exec(cfg, r).hs[id];
    HandshakeOutcome(cfg, r, id, c);
    ServerSpeaksInOrder(cfg, r, id);
    DrivenAlways(cfg, r, id, c);
    ev := Proceed(sh, h, c);
  }

  lemma Proceed(sh: Shared, h: Handler, c: Client) returns (ev: Event)
    requires Ready(sh, h, c) && DrivenOk(c, h) && PhaseOk(h.pc, PhaseOf(h.sent)) &&
             (PhaseOf(h.sent).Silent? || PhaseOf(h.sent).Challenged?)
    requires CanDraw(sh.signed)
    ensures Can(sh, h, ev) && Honest(c, h, ev) && ev != Fault && !ev.CertFailed? && Rank(h.pc) > 0
  {
    if h.pc.AwaitRegister? || h.pc.AwaitProof? {
      FramePossible(sh, h, c);
      ev := Recv(if h.pc.AwaitRegister? then RegisterOf(c) else ProofOf(c, h.pc.nonce));
    } else if h.pc.IpGate? || h.pc.KeyGate? || BudgetPc(h.pc) {
      ev := CallPossible(sh, h);
    } else if h.pc.Drawing? {
      var n: seq<byte> :| |n| == 32 && NeverProved(sh.signed, n);
      ev := Draw(n);
    } else {
      ev := Do;
    }
  }

  // ---------------------------------------------------------------- nothing is written early

  /** Until handleRegister has returned, its connection has written nothing. */
  lemma {:induction false} RegisteringHasNotWritten(cfg: Config, r: Run, id: nat)
    requires Valid(cfg, r) && (id in Exec(cfg, r).hs ==> Rank(Exec(cfg, r).hs[id].pc) > 6)
    ensures !S.Wrote(cfg, r, id)
  {
    if r.Then? {
      var w := Exec(cfg, r.prior);
      RankNext(cfg, w, r.act, id, Exec(cfg, r));
      RegisteringHasNotWritten(cfg, r.prior, id);
      if S.At(w, r.act, id) { NoEarlyWrite(cfg, w.sh, w.hs[id], r.act.ev); }
    }
  }

  lemma NoEarlyWrite(cfg: Config, sh: Shared, h: Handler, ev: Event)
    requires Can(sh, h, ev) && Rank(Decide(cfg, sh, h, ev).pc) > 6
    ensures StoreAfter(sh.store, h, ev) == sh.store
  {}
}
