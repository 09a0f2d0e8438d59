/** Registration, order gate and certificate table together: the hosts of a registered name are answered
    with that name's own certificate. */
module CertService {
  import opened Bytes
  import opened Naming
  import opened Signing
  import opened Strings
  import P = Protocol
  import S = ProtocolSafety
  import G = OrderGate
  import C = CertStore
  import H = Routing

  // ---------------------------------------------------------------- the certificates that the gate adds

  /** The certificate that an action puts into the table, if any. */
  function AddedHere(s: G.State, a: G.Action): seq<C.Entry>
    requires G.Can(s, a)
  {
    match a
    case Publish(e) => [e]
    case Step(id, reply) =>
      if G.ReadsDisk(s.callers[id].pc) && reply.Fresh? then [reply.cert]
      else if s.callers[id].pc.Adding? then [s.callers[id].pc.cert]
      else []
    case _ => []
  }

  /** The certificates added along a run of the gate, in order. */
  function Added(cfg: G.Config, g: G.Run): seq<C.Entry>
    requires G.Valid(cfg, g)
  {
    if g.Start? then [] else Added(cfg, g.prior) + AddedHere(G.Exec(cfg, g.prior), g.act)
  }

  lemma AddStep(cfg: G.Config, s: G.State, a: G.Action, es: seq<C.Entry>)
    requires G.Can(s, a) && s.store == C.AddAll(es)
    ensures G.Next(cfg, s, a).store == C.AddAll(es + AddedHere(s, a))
  {
    var more := AddedHere(s, a);
    if more == [] { assert es + more == es; } else { assert (es + more)[..|es|] == es; }
  }

  /** The gate's table is what these additions make of an empty one. */
  lemma {:induction false} TableIsAdded(cfg: G.Config, g: G.Run)
    requires G.Valid(cfg, g)
    ensures G.Exec(cfg, g).store == C.AddAll(Added(cfg, g))
  {
    if g.Then? {
      TableIsAdded(cfg, g.prior);
      AddStep(cfg, G.Exec(cfg, g.prior), g.act, Added(cfg, g.prior));
    }
  }

  // ---------------------------------------------------------------- names below the apex

  /** What Ensure and EnsureName ask for: the apex, or one label below it. */
  ghost predicate UnderApex(parent: string, apex: string) {
    parent == apex || exists first: string :: '.' !in first && parent == first + "." + apex
  }

  lemma ParentOf(first: string, rest: string)
    requires '.' !in first
    ensures C.Parent(first + "." + rest) == Some(rest)
  {
    IndexAtFirst(first, '.', rest);
    assert first + "." + rest == first + ['.'] + rest;
    assert (first + ['.'] + rest)[|first| + 1..] == rest;
  }

  /** A host two labels below the apex is none of the names certificates are asked for. */
  lemma HostIsNoParent(port: string, name: string, apex: string, parent: string)
    requires '.' !in port && '.' !in name && UnderApex(parent, apex)
    ensures port + "." + (name + "." + apex) != parent
  {
    var host := port + "." + (name + "." + apex);
    if parent != apex {
      var l: string :| '.' !in l && parent == l + "." + apex;
      ParentOf(l, apex);
      ParentOf(port, name + "." + apex);
      assert |name + "." + apex| > |apex|;
    }
  }

  // ---------------------------------------------------------------- the three together

  function Base(cfg: P.Config, u: Str): string { "_." + (TunnelLabel(u) + "." + cfg.apex) }

  /** Every EnsureName that succeeded in the run of the protocol returned so from the gate. */
  ghost predicate Backed(cfg: P.Config, r: P.Run, gcfg: G.Config, g: G.Run)
    requires G.Valid(gcfg, g)
  {
    forall u :: S.Ensured(cfg, r, u) ==> Loaded(gcfg, g, Base(cfg, u))
  }

  ghost predicate Loaded(gcfg: G.Config, g: G.Run, name: string)
    requires G.Valid(gcfg, g)
  {
    var callers := G.Exec(gcfg, g).callers;
    exists id :: id in callers && callers[id].name == name && callers[id].pc.Done? && callers[id].pc.result == G.Loaded
  }

  /** Every certificate that came into the table is one that was asked for. */
  ghost predicate Asked(gcfg: G.Config, g: G.Run, apex: string, parents: seq<string>)
    requires G.Valid(gcfg, g)
  {
    var es := Added(gcfg, g);
    && |parents| == |es|
    && forall i :: 0 <= i < |es| ==> C.IssuedFor(es[i], parents[i]) && UnderApex(parents[i], apex)
  }

  lemma LoadedEntry(gcfg: G.Config, g: G.Run, name: string)
    requires G.Valid(gcfg, g) && Loaded(gcfg, g, name)
    ensures name in G.Exec(gcfg, g).store.entries
  {
    var callers := G.Exec(gcfg, g).callers;
    var id :| id in callers && callers[id].name == name && callers[id].pc.Done? && callers[id].pc.result == G.Loaded;
    G.SuccessMeansLoaded(gcfg, g, id);
  }

  lemma {:induction false} PassedIsValid(cfg: P.Config, r: P.Run, id: nat, u: Str, k: Key)
    requires S.Passed(cfg, r, id, u, k)
    ensures ValidUnique(u)
  {
    if S.Passed(cfg, r.prior, id, u, k) { PassedIsValid(cfg, r.prior, id, u, k); }
  }

  lemma RowIsEnsured(cfg: P.Config, r: P.Run, u: Str)
    requires P.Valid(cfg, r) && u in P.Exec(cfg, r).sh.store
    ensures ValidUnique(u) && S.Ensured(cfg, r, u)
  {
    S.StoredKeysAdmitted(cfg, r);
    var k := P.Exec(cfg, r).sh.store[u];
    var id :| S.Admitted(cfg, r, id, u, k);
    PassedIsValid(cfg, r, id, u, k);
  }

  /** In every run, for every row of the ownership table: a TLS client that asks for port.label.apex, where
      label belongs to the row, is answered with the certificate of that label. */
  lemma RowsAreServed(cfg: P.Config, r: P.Run, gcfg: G.Config, g: G.Run, parents: seq<string>, u: Str, port: string,
                      sni: string)
    requires P.Valid(cfg, r) && G.Valid(gcfg, g) && Backed(cfg, r, gcfg, g) && Asked(gcfg, g, cfg.apex, parents)
    requires u in P.Exec(cfg, r).sh.store && '.' !in port
    requires H.NormalizeHost(sni) == port + "." + (TunnelLabel(u) + "." + cfg.apex)
    ensures var table := G.Exec(gcfg, g).store;
            && Base(cfg, u) in table.entries
            && C.Lookup(table, cfg.apex, sni) == Some(table.entries[Base(cfg, u)])
  {
    RowIsEnsured(cfg, r, u);
    LoadedEntry(gcfg, g, Base(cfg, u));
    TableIsAdded(gcfg, g);
    LabelsAreDistinct(u, u);
    var parent := TunnelLabel(u) + "." + cfg.apex;
    ParentOf(port, parent);
    forall i | 0 <= i < |parents| ensures parents[i] != port + "." + parent {
      HostIsNoParent(port, TunnelLabel(u), cfg.apex, parents[i]);
    }
    C.IssuedServesItsHosts(Added(gcfg, g), parents, cfg.apex, sni, parent);
  }
}
