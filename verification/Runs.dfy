/** Building blocks for concrete runs of the protocol: one connection is led from its first frame to
    a chosen point while everything else stands still. */
module Runs {
  import opened Bytes
  import opened Signing
  import opened Naming
  import opened Protocol
  import S = ProtocolSafety

  /** Limiters off; the clock starts at `boot`. */
  function Open(allow: Option<set<Key>>, boot: int): Config { Config("example.com", 0, 0, 0, allow, boot) }

  ghost predicate Quiet(w: World) { w.sh.ips.max <= 0 && w.sh.keys.max <= 0 }

  ghost predicate Reached(cfg: Config, r: Run, w: World) {
    Valid(cfg, r) && Exec(cfg, r) == w && Quiet(w)
  }

  lemma Extend(cfg: Config, r: Run, w: World, a: Action, w': World)
    requires Reached(cfg, r, w) && Enabled(w, a) && w' == Next(cfg, w, a)
    ensures Reached(cfg, Then(r, a), w')
  {}

  /** Who calls: the name and key it registers, the time it signs, the key of its TLS certificate. */
  datatype Caller = Caller(unique: Str, key: Key, ts: int64, peer: Option<Key>)

  function Claimed(c: Caller): Statement { Register(c.key, c.unique, c.ts) }

  function Opening(c: Caller): Inbound {
    RegisterMsg(PROTO_VERSION, c.unique, Some(c.key), c.ts, Some(Signature(c.key, Payload(Claimed(c)))))
  }

  /** Nothing in the frame or the connection stands in the caller's way. */
  predicate Sound(c: Caller) { ValidUnique(c.unique) && (c.peer.None? || c.peer == Some(c.key)) }

  /** A connection that has just been let through every gate. */
  function Admitted(c: Caller): Handler {
    Handler(Lookup, "ip", c.peer, c.unique, Some(c.key), c.ts, Some(Signature(c.key, Payload(Claimed(c)))), false, [])
  }

  function With(w: World, id: nat, h: Handler): World { w.(hs := w.hs[id := h]) }

  function Signed(w: World, k: Key, st: Statement): World { w.(sh := w.sh.(signed := w.sh.signed + {(k, st)})) }

  function Owned(w: World, u: Str, k: Key): World { w.(sh := w.sh.(store := w.sh.store[u := k])) }

  function Online(w: World, id: nat, c: Caller): World {
    w.(sh := w.sh.(live := w.sh.live[TunnelLabel(c.unique) := Session(c.key, id, false)]))
  }

  // ---------------------------------------------------------------- up to the gates

  /** Somebody connects and signs a Register. */
  lemma Arrives(cfg: Config, r: Run, w: World, id: nat, c: Caller) returns (r': Run)
    requires Reached(cfg, r, w) && id !in w.hs
    ensures Reached(cfg, r', Signed(With(w, id, Connection("ip", c.peer)), c.key, Claimed(c))) && S.Extends(r', r)
  {
    var w1 := With(w, id, Connection("ip", c.peer));
    Extend(cfg, r, w, Accept(id, "ip", c.peer), w1);
    var r1 := Then(r, Accept(id, "ip", c.peer));
    Extend(cfg, r1, w1, Sign(c.key, Claimed(c)), Signed(w1, c.key, Claimed(c)));
    r' := Then(r1, Sign(c.key, Claimed(c)));
    assert S.Extends(r1, r);
  }

  function Opened(w: World, id: nat, c: Caller): World {
    With(Signed(w, c.key, Claimed(c)), id, Admitted(c).(pc := IpGate))
  }

  lemma Opens(cfg: Config, r: Run, w: World, id: nat, c: Caller) returns (r': Run)
    requires Reached(cfg, r, w) && id !in w.hs && Sound(c)
    ensures Reached(cfg, r', Opened(w, id, c)) && r'.Then? && r'.act == Step(id, Recv(Opening(c))) && S.Extends(r', r)
    ensures id in Exec(cfg, r'.prior).hs && Exec(cfg, r'.prior).hs[id].pc.AwaitRegister?
  {
    var r2 := Arrives(cfg, r, w, id, c);
    var w2 := Signed(With(w, id, Connection("ip", c.peer)), c.key, Claimed(c));
    var a := Step(id, Recv(Opening(c)));
    assert Made(w2.sh.signed, Signature(c.key, Payload(Claimed(c))));
    var w3 := With(w2, id, Admitted(c).(pc := IpGate));
    assert w3 == Next(cfg, w2, a);
    Extend(cfg, r2, w2, a, w3);
    r' := Then(r2, a);
    assert w3.hs == w.hs[id := Admitted(c).(pc := IpGate)];
    assert w3 == Opened(w, id, c);
  }

  /** One step of handler `id` that leaves the shared state alone. */
  lemma StepsTo(cfg: Config, r: Run, w: World, id: nat, ev: Event, pc: Pc) returns (r': Run)
    requires Reached(cfg, r, w) && id in w.hs && Can(w.sh, w.hs[id], ev)
    requires Moved(cfg, w.sh, w.hs[id], ev) == w.hs[id].(pc := pc) && Effect(w.sh, id, w.hs[id], ev) == w.sh
    ensures Reached(cfg, r', With(w, id, w.hs[id].(pc := pc))) && r' == Then(r, Step(id, ev))
  {
    r' := Then(r, Step(id, ev));
    Extend(cfg, r, w, Step(id, ev), With(w, id, w.hs[id].(pc := pc)));
  }

  lemma WithTwice(w: World, id: nat, h: Handler, h': Handler)
    ensures With(With(w, id, h), id, h') == With(w, id, h')
  {
    assert w.hs[id := h][id := h'] == w.hs[id := h'];
  }

  lemma PassesGates(cfg: Config, r: Run, w: World, id: nat, c: Caller) returns (r': Run)
    requires Reached(cfg, r, w) && id in w.hs && w.hs[id] == Admitted(c).(pc := IpGate)
    requires Sound(c) && SkewOk(w.sh.now, c.ts) && Allows(w.sh.allow, c.key)
    ensures Reached(cfg, r', With(w, id, Admitted(c))) && S.Extends(r', r)
  {
    var h := Admitted(c);
    var r1 := StepsTo(cfg, r, w, id, Call(""), Authenticate);
    var w1 := With(w, id, h.(pc := Authenticate));
    var r2 := StepsTo(cfg, r1, w1, id, Do, AllowGate);
    WithTwice(w, id, h.(pc := Authenticate), h.(pc := AllowGate));
    var w2 := With(w, id, h.(pc := AllowGate));
    r' := StepsTo(cfg, r2, w2, id, Do, Lookup);
    WithTwice(w, id, h.(pc := AllowGate), h);
    assert S.Extends(r1, r) && S.Extends(r2, r);
  }

  /** The run `o` ends with the opening of the connection. */
  ghost predicate OpensLast(cfg: Config, o: Run, id: nat, f: Inbound) {
    o.Then? && S.At(Exec(cfg, o.prior), o.act, id) && Exec(cfg, o.prior).hs[id].pc.AwaitRegister? && o.act.ev == Recv(f)
  }

  /** From nowhere to the store. */
  lemma Enters(cfg: Config, r: Run, w: World, id: nat, c: Caller) returns (r': Run, o: Run)
    requires Reached(cfg, r, w) && id !in w.hs && Sound(c) && SkewOk(w.sh.now, c.ts) && Allows(w.sh.allow, c.key)
    ensures Reached(cfg, r', With(Signed(w, c.key, Claimed(c)), id, Admitted(c)))
    ensures S.Extends(r', o) && S.Extends(r', r) && OpensLast(cfg, o, id, Opening(c))
  {
    o := Opens(cfg, r, w, id, c);
    r' := PassesGates(cfg, o, Opened(w, id, c), id, c);
    WithTwice(Signed(w, c.key, Claimed(c)), id, Admitted(c).(pc := IpGate), Admitted(c));
    S.ExtendsTrans(r', o, r);
  }

  // ---------------------------------------------------------------- a free name

  /** To the certificate, for a free name. */
  lemma ReachesEnsure(cfg: Config, r: Run, w: World, id: nat, c: Caller) returns (r': Run)
    requires Reached(cfg, r, w) && id in w.hs && w.hs[id] == Admitted(c) && c.unique !in w.sh.store
    ensures Reached(cfg, r', With(w, id, Admitted(c).(pc := Ensure))) && S.Extends(r', r)
  {
    var h := Admitted(c);
    var r1 := StepsTo(cfg, r, w, id, Do, KeyGate);
    var r2 := StepsTo(cfg, r1, With(w, id, h.(pc := KeyGate)), id, Call(""), Grace);
    WithTwice(w, id, h.(pc := KeyGate), h.(pc := Grace));
    r' := StepsTo(cfg, r2, With(w, id, h.(pc := Grace)), id, Do, Ensure);
    WithTwice(w, id, h.(pc := Grace), h.(pc := Ensure));
    assert S.Extends(r1, r) && S.Extends(r2, r);
  }

  function Winner(c: Caller): Handler { Admitted(c).(pc := Joining, isNew := true) }

  /** The certificate and the insert. */
  lemma Claims(cfg: Config, r: Run, w: World, id: nat, c: Caller) returns (r': Run)
    requires Reached(cfg, r, w) && id in w.hs && w.hs[id] == Admitted(c).(pc := Ensure) && c.unique !in w.sh.store
    ensures Reached(cfg, r', With(Owned(w, c.unique, c.key), id, Winner(c))) && S.Extends(r', r) && S.Wrote(cfg, r', id)
  {
    var h := Admitted(c).(pc := Claim);
    var r1 := StepsTo(cfg, r, w, id, Do, Claim);
    var w1 := With(w, id, h);
    Extend(cfg, r1, w1, Step(id, Do), With(Owned(w1, c.unique, c.key), id, Winner(c)));
    r' := Then(r1, Step(id, Do));
    assert c.unique in S.NextStore(w1, Step(id, Do));
    assert S.WroteHere(w1, Step(id, Do), id);
    WithTwice(Owned(w, c.unique, c.key), id, h, Winner(c));
    assert S.Extends(r1, r);
  }

  /** A sound caller, in time and allowed, takes a free name. */
  lemma TakesFreeName(cfg: Config, r: Run, w: World, id: nat, c: Caller) returns (r': Run, o: Run)
    requires Reached(cfg, r, w) && id !in w.hs && Sound(c) && SkewOk(w.sh.now, c.ts) && Allows(w.sh.allow, c.key)
    requires c.unique !in w.sh.store
    ensures Reached(cfg, r', With(Owned(Signed(w, c.key, Claimed(c)), c.unique, c.key), id, Winner(c)))
    ensures S.Extends(r', o) && S.Extends(r', r) && OpensLast(cfg, o, id, Opening(c)) && S.Wrote(cfg, r', id)
  {
    var v := Signed(w, c.key, Claimed(c));
    var h := Admitted(c);
    var r1;
    r1, o := Enters(cfg, r, w, id, c);
    var r2 := ReachesEnsure(cfg, r1, With(v, id, h), id, c);
    WithTwice(v, id, h, h.(pc := Ensure));
    r' := Claims(cfg, r2, With(v, id, h.(pc := Ensure)), id, c);
    WithTwice(Owned(v, c.unique, c.key), id, h.(pc := Ensure), Winner(c));
    S.ExtendsTrans(r', r2, r1);
    S.ExtendsTrans(r', r1, o);
    S.ExtendsTrans(r', r1, r);
  }

  function Welcome(cfg: Config, c: Caller): Handler {
    Winner(c).(pc := Serving, sent := [RegisterOK(Hostname(cfg, c.unique))])
  }

  /** Into the registry and on to serving. */
  lemma Serves(cfg: Config, r: Run, w: World, id: nat, c: Caller) returns (r': Run)
    requires Reached(cfg, r, w) && id in w.hs && w.hs[id] == Winner(c) && TunnelLabel(c.unique) !in w.sh.live
    ensures Reached(cfg, r', With(Online(w, id, c), id, Welcome(cfg, c))) && S.Extends(r', r)
  {
    var h := Winner(c).(pc := Greeting);
    var w1 := With(Online(w, id, c), id, h);
    Extend(cfg, r, w, Step(id, Do), w1);
    var r1 := Then(r, Step(id, Do));
    var w2 := With(w1, id, Welcome(cfg, c));
    assert h.sent + [RegisterOK(Hostname(cfg, c.unique))] == [RegisterOK(Hostname(cfg, c.unique))];
    Extend(cfg, r1, w1, Step(id, Do), w2);
    r' := Then(r1, Step(id, Do));
    WithTwice(Online(w, id, c), id, h, Welcome(cfg, c));
    assert S.Extends(r1, r);
  }

  // ---------------------------------------------------------------- a name that is taken

  function Contested(c: Caller, owner: Key, n: seq<byte>): Handler {
    Admitted(c).(pc := AwaitProof(owner, n), sent := [Challenge(n)])
  }

  /** A second key is challenged for the name. */
  lemma Contests(cfg: Config, r: Run, w: World, id: nat, c: Caller, owner: Key, n: seq<byte>) returns (r': Run)
    requires Reached(cfg, r, w) && id in w.hs && w.hs[id] == Admitted(c) && c.unique in w.sh.store &&
             w.sh.store[c.unique] == owner != c.key
    requires |n| == 32 && NeverProved(w.sh.signed, n)
    ensures Reached(cfg, r', With(w, id, Contested(c, owner, n))) && S.Extends(r', r)
  {
    var h := Admitted(c).(pc := Drawing(owner));
    var r1 := StepsTo(cfg, r, w, id, Do, Drawing(owner));
    var w1 := With(w, id, h);
    var w2 := With(w1, id, Contested(c, owner, n));
    assert h.sent + [Challenge(n)] == [Challenge(n)];
    Extend(cfg, r1, w1, Step(id, Draw(n)), w2);
    r' := Then(r1, Step(id, Draw(n)));
    WithTwice(w, id, h, Contested(c, owner, n));
    assert S.Extends(r1, r);
  }

  /** The owner of the stored key signs the nonce for the newcomer. */
  lemma Proves(cfg: Config, r: Run, w: World, id: nat, c: Caller, owner: Key, n: seq<byte>) returns (r': Run)
    requires Reached(cfg, r, w) && id in w.hs && w.hs[id] == Contested(c, owner, n)
    ensures Reached(cfg, r', With(Signed(w, owner, Proof(n)), id, Contested(c, owner, n).(pc := Rotating(owner, n))))
  {
    var w1 := Signed(w, owner, Proof(n));
    Extend(cfg, r, w, Sign(owner, Proof(n)), w1);
    var r1 := Then(r, Sign(owner, Proof(n)));
    assert Made(w1.sh.signed, Signature(owner, Payload(Proof(n))));
    r' := StepsTo(cfg, r1, w1, id, Recv(ProofMsg(Some(Signature(owner, Payload(Proof(n)))))), Rotating(owner, n));
  }

  function Mismatched(c: Caller, n: seq<byte>): Handler {
    Admitted(c).(pc := Ended, sent := [Challenge(n), Deny(KeyMismatch, 0)])
  }

  /** The newcomer answers with the only key it has. */
  lemma FailsProof(cfg: Config, r: Run, w: World, id: nat, c: Caller, owner: Key, n: seq<byte>) returns (r': Run)
    requires Reached(cfg, r, w) && id in w.hs && w.hs[id] == Contested(c, owner, n) && owner != c.key
    ensures Reached(cfg, r', With(Signed(w, c.key, Proof(n)), id, Mismatched(c, n))) && S.Extends(r', r)
  {
    var w1 := Signed(w, c.key, Proof(n));
    Extend(cfg, r, w, Sign(c.key, Proof(n)), w1);
    var r1 := Then(r, Sign(c.key, Proof(n)));
    var a := Step(id, Recv(ProofMsg(Some(Signature(c.key, Payload(Proof(n)))))));
    assert Made(w1.sh.signed, Signature(c.key, Payload(Proof(n))));
    assert Contested(c, owner, n).sent + [Deny(KeyMismatch, 0)] == [Challenge(n), Deny(KeyMismatch, 0)];
    Extend(cfg, r1, w1, a, With(w1, id, Mismatched(c, n)));
    r' := Then(r1, a);
    assert S.Extends(r1, r);
  }

  /** A session asks for its name's release with its own key. */
  lemma AsksRelease(cfg: Config, r: Run, w: World, id: nat, c: Caller) returns (r': Run)
    requires Reached(cfg, r, w) && id in w.hs && w.hs[id] == Welcome(cfg, c) && SkewOk(w.sh.now, c.ts)
    ensures var w' := Signed(w, c.key, Deregister(c.unique, c.ts));
            Reached(cfg, r', With(w', id, Welcome(cfg, c).(pc := Deleting(c.ts, w.sh.now))))
  {
    var st := Deregister(c.unique, c.ts);
    var w1 := Signed(w, c.key, st);
    Extend(cfg, r, w, Sign(c.key, st), w1);
    var r1 := Then(r, Sign(c.key, st));
    var sig := Signature(c.key, Payload(st));
    assert Made(w1.sh.signed, sig);
    r' := StepsTo(cfg, r1, w1, id, Recv(DeregisterMsg(c.unique, c.ts, Some(sig))), Deleting(c.ts, w.sh.now));
  }

  /** The release goes through. */
  lemma Releases(cfg: Config, r: Run, w: World, id: nat, c: Caller, ts: int64, at: int) returns (r': Run)
    requires Reached(cfg, r, w) && id in w.hs && w.hs[id] == Welcome(cfg, c).(pc := Deleting(ts, at))
    ensures r' == Then(r, Step(id, Do)) && Valid(cfg, r') && Exec(cfg, r').sh.store == w.sh.store - {c.unique}
  {
    r' := Then(r, Step(id, Do));
    Extend(cfg, r, w, Step(id, Do), Next(cfg, w, Step(id, Do)));
  }

  /** The peer is lost between the registry and RegisterOK. */
  lemma IsLost(cfg: Config, r: Run, w: World, id: nat, c: Caller) returns (r': Run)
    requires Reached(cfg, r, w) && id in w.hs && w.hs[id] == Winner(c) && TunnelLabel(c.unique) !in w.sh.live
    ensures Reached(cfg, r', With(Online(w, id, c), id, Winner(c).(pc := Leaving))) && S.Extends(r', r)
    ensures r'.Then? && r'.act == Step(id, PeerGone) && id in Exec(cfg, r'.prior).hs &&
            Exec(cfg, r'.prior).hs[id].pc.Greeting?
  {
    var h := Winner(c).(pc := Greeting);
    var w1 := With(Online(w, id, c), id, h);
    Extend(cfg, r, w, Step(id, Do), w1);
    var r1 := Then(r, Step(id, Do));
    r' := StepsTo(cfg, r1, w1, id, PeerGone, Leaving);
    WithTwice(Online(w, id, c), id, h, Winner(c).(pc := Leaving));
    assert S.Extends(r1, r);
  }
}
