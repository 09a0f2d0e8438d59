/** The retry hint over runs of the protocol: the IP limiter of the machine is a limiter in the sense of
    `Limiter`, so a client that waits out the hint of a rate_limited:ip Deny passes the IP gate. */
module GateHint {
  import opened Naming
  import opened Protocol
  import S = ProtocolSafety
  import L = Limiter
  import G = Gates

  // ---------------------------------------------------------------- the machine's calls on the IP limiter

  /** The calls made after the prefix `s`. */
  ghost function OpsSince(cfg: Config, r: Run, s: Run): seq<L.Op>
    requires S.Extends(r, s)
  {
    if r == s then [] else OpsSince(cfg, r.prior, s) + G.OpOf(Exec(cfg, r.prior), r.act, G.IpLimit)
  }

  lemma {:induction false} RunSnoc(w: L.Window, ops: seq<L.Op>, op: L.Op)
    ensures L.Run(w, ops + [op]) == L.Apply(L.Run(w, ops), op)
    decreases ops
  {
    if ops == [] {
      assert ops + [op] == [op];
    } else {
      RunSnoc(L.Apply(w, ops[0]), ops[1..], op);
      assert (ops + [op])[1..] == ops[1..] + [op];
    }
  }

  lemma {:induction false} InOrderSnoc(t: int, ops: seq<L.Op>, op: L.Op, last: int)
    requires L.InOrder(t, ops) && LastTime(t, ops) <= last && L.Timed(op, last) == last
    ensures L.InOrder(t, ops + [op]) && LastTime(t, ops + [op]) <= last
    decreases ops
  {
    if ops == [] {
      assert ops + [op] == [op] && [op][1..] == [];
    } else {
      InOrderSnoc(L.Timed(ops[0], t), ops[1..], op, last);
      assert (ops + [op])[1..] == ops[1..] + [op];
    }
  }

  function LastTime(t: int, ops: seq<L.Op>): int
    decreases ops
  {
    if ops == [] then t else LastTime(L.Timed(ops[0], t), ops[1..])
  }

  /** The machine's IP limiter is the limiter after these calls, whose times do not go back. */
  lemma {:induction false} IpsAreRun(cfg: Config, r: Run, s: Run)
    requires Valid(cfg, r) && S.Extends(r, s)
    ensures Exec(cfg, r).sh.ips == L.Run(Exec(cfg, s).sh.ips, OpsSince(cfg, r, s))
    ensures L.InOrder(Exec(cfg, s).sh.now, OpsSince(cfg, r, s))
    ensures LastTime(Exec(cfg, s).sh.now, OpsSince(cfg, r, s)) <= Exec(cfg, r).sh.now
  {
    if r != s {
      IpsAreRun(cfg, r.prior, s);
      IpsStep(cfg, Exec(cfg, r.prior), r.act, Exec(cfg, s).sh.ips, Exec(cfg, s).sh.now, OpsSince(cfg, r.prior, s));
    }
  }

  lemma IpsStep(cfg: Config, w: World, a: Action, ips: L.Window, t: int, ops: seq<L.Op>)
    requires Enabled(w, a) && w.sh.ips == L.Run(ips, ops) && L.InOrder(t, ops) && LastTime(t, ops) <= w.sh.now
    ensures var w', ops' := Next(cfg, w, a), ops + G.OpOf(w, a, G.IpLimit);
            w'.sh.ips == L.Run(ips, ops') && L.InOrder(t, ops') && LastTime(t, ops') <= w'.sh.now
  {
    G.LimiterNext(cfg, w, a, G.IpLimit);
    var op := G.OpOf(w, a, G.IpLimit);
    if op == [] {
      assert ops + op == ops;
    } else {
      assert op == [op[0]];
      RunSnoc(ips, ops, op[0]);
      InOrderSnoc(t, ops, op[0], w.sh.now);
    }
  }

  // ---------------------------------------------------------------- the limiter agrees with itself

  /** The samples of every key are in order and within the limit: the limiter agrees with the history that
      consists of its own samples. */
  ghost predicate SelfAgrees(w: L.Window, t: int) {
    forall key :: L.Agrees(w, key, L.Samples(w, key), t)
  }

  lemma SelfAgreesStep(w: L.Window, t: int, op: L.Op)
    requires SelfAgrees(w, t) && t <= L.Timed(op, t)
    ensures SelfAgrees(L.Apply(w, op), L.Timed(op, t))
  {
    var w', now := L.Apply(w, op), L.Timed(op, t);
    forall key ensures L.Agrees(w', key, L.Samples(w', key), now) {
      assert L.Agrees(w, key, L.Samples(w, key), t);
      if op.Allow? && L.Evicts(w, op.key, op.now) && op.victim == key {
        if op.key != key && L.Admits(w, op.key, op.now) {
          assert L.Samples(w', key) == [];
        } else {
          SelfKept(w, t, op, key);
        }
      } else {
        L.AgreesStep(w, key, L.Samples(w, key), t, op);
      }
    }
  }

  /** An attempt that names its own key as the victim, or is refused, evicts nobody. */
  lemma SelfKept(w: L.Window, t: int, op: L.Op, key: string)
    requires L.Agrees(w, key, L.Samples(w, key), t) && op.Allow? && t <= op.now
    requires op.key == key || !L.Admits(w, op.key, op.now)
    ensures L.Agrees(L.Apply(w, op), key, L.Samples(L.Apply(w, op), key), op.now)
  {
    L.AgreesStep(w, key, L.Samples(w, key), t, op.(victim := key + "x"));
  }

  lemma SelfAgreesLater(w: L.Window, t: int, now: int)
    requires SelfAgrees(w, t) && t <= now
    ensures SelfAgrees(w, now)
  {
    forall key ensures L.Agrees(w, key, L.Samples(w, key), now) { L.AgreesLater(w, key, L.Samples(w, key), t, now); }
  }

  /** In every reachable state. */
  lemma {:induction false} IpsSelfAgree(cfg: Config, r: Run)
    requires Valid(cfg, r)
    ensures SelfAgrees(Exec(cfg, r).sh.ips, Exec(cfg, r).sh.now)
  {
    if r.Then? {
      IpsSelfAgree(cfg, r.prior);
      var w := Exec(cfg, r.prior);
      G.LimiterNext(cfg, w, r.act, G.IpLimit);
      G.ClockNext(cfg, w, r.act);
      if G.OpOf(w, r.act, G.IpLimit) != [] { SelfAgreesStep(w.sh.ips, w.sh.now, G.OpOf(w, r.act, G.IpLimit)[0]); }
      else { SelfAgreesLater(w.sh.ips, w.sh.now, Exec(cfg, r).sh.now); }
    }
  }

  // ---------------------------------------------------------------- waiting out the hint

  lemma {:induction false} LastAnswer(w: L.Window, key: string, ops: seq<L.Op>, last: L.Op)
    requires L.Only(key, ops) == [] && L.Asks(last, key)
    ensures L.Answers(w, key, ops + [last]) == [L.AnswerTo(L.Run(w, ops), last)]
    decreases ops
  {
    if ops == [] {
      assert ops + [last] == [last] && [last][1..] == [];
    } else {
      assert !L.Touches(ops[0], key);
      LastAnswer(L.Apply(w, ops[0]), key, ops[1..], last);
      assert (ops + [last])[1..] == ops[1..] + [last];
      L.AnswersSkip(w, key, ops + [last]);
    }
  }

  lemma {:induction false} SparesSnoc(w: L.Window, key: string, ops: seq<L.Op>, last: L.Op)
    requires L.Spares(w, key, ops) && (last.Allow? ==> last.victim != key)
    ensures L.Spares(w, key, ops + [last])
    decreases ops
  {
    if ops == [] {
      assert ops + [last] == [last] && [last][1..] == [];
    } else {
      SparesSnoc(L.Apply(w, ops[0]), key, ops[1..], last);
      assert (ops + [last])[1..] == ops[1..] + [last];
    }
  }

  /** `s` ends with the step that refuses a connection from `ip` with rate_limited:ip and `hint`. */
  ghost predicate HintsLast(cfg: Config, s: Run, id: nat, ip: string, hint: int) {
    s.Then? && S.At(Exec(cfg, s.prior), s.act, id) &&
    var w := Exec(cfg, s.prior);
    && w.hs[id].pc.IpHint? && w.hs[id].ip == ip
    && Decide(cfg, w.sh, w.hs[id], s.act.ev).out == Some(Deny(RateLimitedIp, hint))
  }

  lemma HintStep(cfg: Config, s: Run, id: nat, ip: string, hint: int)
    requires Valid(cfg, s) && HintsLast(cfg, s, id, ip, hint)
    ensures var w := Exec(cfg, s.prior);
            && hint == L.HintSeconds(L.RetryWait(w.sh.ips, ip, w.sh.now))
            && Exec(cfg, s).sh.ips == L.RetryAfterAt(w.sh.ips, ip, w.sh.now) && Exec(cfg, s).sh.now == w.sh.now
  {}

  /** A client of `ip` that was refused with a hint and waits the delay it derives from it finds the IP
      gate open, whatever happened meanwhile, provided no call on the IP limiter named or evicted `ip`. */
  lemma HintOpensGate(cfg: Config, s: Run, id: nat, ip: string, hint: int, r: Run, backoff: int, floor: int)
    requires Valid(cfg, r) && S.Extends(r, s) && Valid(cfg, s) && HintsLast(cfg, s, id, ip, hint)
    requires L.Only(ip, OpsSince(cfg, r, s)) == [] && L.Spares(Exec(cfg, s).sh.ips, ip, OpsSince(cfg, r, s))
    requires Exec(cfg, r).sh.now >= Exec(cfg, s).sh.now + L.ClientDelay(hint, backoff, floor)
    ensures L.Admits(Exec(cfg, r).sh.ips, ip, Exec(cfg, r).sh.now)
    ensures forall h: Handler, ev :: h.pc.IpGate? && h.ip == ip ==>
            Decide(cfg, Exec(cfg, r).sh, h, ev).pc == Authenticate
  {
    HintStep(cfg, s, id, ip, hint);
    IpsSelfAgree(cfg, s.prior);
    IpsAreRun(cfg, r, s);
    var w, ops := Exec(cfg, s.prior).sh, OpsSince(cfg, r, s);
    Reopens(w.ips, ip, w.now, ops, Exec(cfg, r).sh.now, backoff, floor);
  }

  lemma Reopens(w: L.Window, ip: string, now: int, ops: seq<L.Op>, later: int, backoff: int, floor: int)
    requires SelfAgrees(w, now) && L.Only(ip, ops) == []
    requires var w1 := L.RetryAfterAt(w, ip, now); L.Spares(w1, ip, ops)
    requires L.InOrder(now, ops) && LastTime(now, ops) <= later
    requires later >= now + L.ClientDelay(L.HintSeconds(L.RetryWait(w, ip, now)), backoff, floor)
    ensures L.Admits(L.Run(L.RetryAfterAt(w, ip, now), ops), ip, later)
  {
    var w1 := L.RetryAfterAt(w, ip, now);
    var last := L.Allow(ip, later, ip + "x");
    assert last.victim != ip by { assert |ip + "x"| == |ip| + 1; }
    InOrderSnoc(now, ops, last, later);
    SparesSnoc(w1, ip, ops, last);
    assert L.Agrees(w, ip, L.Samples(w, ip), now);
    L.HintAdmitsRetry(w, ip, L.Samples(w, ip), now, ops, later, last.victim, backoff, floor);
    LastAnswer(w1, ip, ops, last);
  }
}
