/** The registration protocol uses the registry the way the registry needs to be used, so its two
    maps are in step in every reachable state. */
module RegistryUse {
  import opened Bytes
  import opened Naming
  import opened Signing
  import P = Protocol
  import S = ProtocolSafety
  import R = Registry

  /** The live sessions of the protocol, as a registry table of connection numbers. */
  ghost function TableOf(live: map<Str, P.Session>): R.Table<nat> {
    map l | l in live :: (live[l].key, live[l].owner)
  }

  /** In every run, joining is `add` and leaving is `remove`, and a connection always leaves
      under the key it joined with. */
  lemma HandlersUseRegistryProperly(cfg: P.Config, r: P.Run, id: nat, ev: P.Event)
    requires P.Valid(cfg, P.Then(r, P.Step(id, ev)))
    ensures var w, w' := P.Exec(cfg, r), P.Exec(cfg, P.Then(r, P.Step(id, ev)));
            var h := w.hs[id];
            var rows, name, key := TableOf(w.sh.live), TunnelLabel(h.unique), P.KeyOf(h);
            && (h.pc.Joining? ==> TableOf(w'.sh.live) == R.AddRow(rows, name, key, id))
            && (h.pc.Leaving? ==> TableOf(w'.sh.live) == R.RemoveRow(rows, name, id)
                                  && (R.Current(rows, name, id) ==> rows[name].0 == key))
            && (!h.pc.Joining? && !h.pc.Leaving? ==> TableOf(w'.sh.live) == rows)
  {
    S.LiveSessionsOwned(cfg, r);
    TableStep(P.Exec(cfg, r), id, P.Exec(cfg, r).hs[id]);
  }

  lemma TableStep(w: P.World, id: nat, h: P.Handler)
    requires S.LiveOk(w) && id in w.hs && w.hs[id] == h
    ensures var rows, name, key := TableOf(w.sh.live), TunnelLabel(h.unique), P.KeyOf(h);
            var rows' := TableOf(P.LiveAfter(w.sh.live, id, h));
            && (h.pc.Joining? ==> rows' == R.AddRow(rows, name, key, id))
            && (h.pc.Leaving? ==> rows' == R.RemoveRow(rows, name, id))
            && (h.pc.Leaving? && R.Current(rows, name, id) ==> rows[name].0 == key)
            && (!h.pc.Joining? && !h.pc.Leaving? ==> rows' == rows)
  {
    if h.pc.Joining? { TableJoin(w.sh.live, id, TunnelLabel(h.unique), P.KeyOf(h)); }
    if h.pc.Leaving? { TableLeave(w, id, h, TunnelLabel(h.unique)); }
  }

  lemma TableJoin(live: map<Str, P.Session>, id: nat, name: Str, key: Key)
    ensures TableOf(if name in live then live else live[name := P.Session(key, id, false)]) ==
            R.AddRow(TableOf(live), name, key, id)
  {}

  lemma TableLeave(w: P.World, id: nat, h: P.Handler, name: Str)
    requires S.LiveOk(w) && id in w.hs && w.hs[id] == h && name == TunnelLabel(h.unique)
    ensures var live, rows := w.sh.live, TableOf(w.sh.live);
            && TableOf(if name in live && live[name].owner == id then live - {name} else live) ==
                 R.RemoveRow(rows, name, id)
            && (R.Current(rows, name, id) ==> rows[name].0 == P.KeyOf(h))
  {
    if name in w.sh.live { assert S.SessionOk(w, name); }
  }

  // ---------------------------------------------------------------- the registry along a run

  /** The registry call that an action makes, if any. */
  ghost function OpHere(w: P.World, a: P.Action): seq<R.Op<nat>> {
    if !a.Step? || a.id !in w.hs then []
    else
      var h := w.hs[a.id];
      if h.pc.Joining? then [R.Join(TunnelLabel(h.unique), P.KeyOf(h), a.id)]
      else if h.pc.Leaving? then [R.Leave(TunnelLabel(h.unique), P.KeyOf(h), a.id)]
      else []
  }

  /** The registry calls of a run, in order. */
  ghost function OpsOf(cfg: P.Config, r: P.Run): seq<R.Op<nat>> {
    if r.Start? then [] else OpsOf(cfg, r.prior) + OpHere(P.Exec(cfg, r.prior), r.act)
  }

  lemma OneMoreOp(ops: seq<R.Op<nat>>, op: R.Op<nat>)
    ensures R.RunRows(ops + [op]) == R.ApplyRow(R.RunRows(ops), op)
    ensures R.Proper(ops + [op]) <==>
            R.Proper(ops) && (op.Leave? && R.Current(R.RunRows(ops), op.l, op.t) ==> R.RunRows(ops)[op.l].0 == op.k)
  {
    assert (ops + [op])[..|ops|] == ops;
  }

  lemma IdleLive(cfg: P.Config, w: P.World, a: P.Action)
    requires !a.Step? || a.id !in w.hs
    ensures TableOf(P.Next(cfg, w, a).sh.live) == TableOf(w.sh.live)
  {}

  lemma OpStep(cfg: P.Config, r: P.Run, a: P.Action, rows: R.Table<nat>, ops: seq<R.Op<nat>>)
    requires P.Valid(cfg, P.Then(r, a)) && R.Proper(ops) && R.RunRows(ops) == rows == TableOf(P.Exec(cfg, r).sh.live)
    ensures var ops' := ops + OpHere(P.Exec(cfg, r), a);
            R.Proper(ops') && R.RunRows(ops') == TableOf(P.Exec(cfg, P.Then(r, a)).sh.live)
  {
    var w := P.Exec(cfg, r);
    var added := OpHere(w, a);
    if a.Step? {
      HandlersUseRegistryProperly(cfg, r, a.id, a.ev);
    } else {
      IdleLive(cfg, w, a);
    }
    if added == [] { assert ops + added == ops; } else { OneMoreOp(ops, added[0]); }
  }

  lemma {:induction false} OpsAreProper(cfg: P.Config, r: P.Run)
    requires P.Valid(cfg, r)
    ensures R.Proper(OpsOf(cfg, r)) && R.RunRows(OpsOf(cfg, r)) == TableOf(P.Exec(cfg, r).sh.live)
  {
    if r.Then? {
      OpsAreProper(cfg, r.prior);
      OpStep(cfg, r.prior, r.act, TableOf(P.Exec(cfg, r.prior).sh.live), OpsOf(cfg, r.prior));
    }
  }

  /** In every reachable state of the protocol the registry's two maps, as its handlers' calls have
      left them, are in step with the live sessions. */
  lemma RegistryInStep(cfg: P.Config, r: P.Run)
    requires P.Valid(cfg, r)
    ensures R.InStep(R.RunOps(OpsOf(cfg, r)), TableOf(P.Exec(cfg, r).sh.live))
  {
    OpsAreProper(cfg, r);
    R.AlwaysInStep(OpsOf(cfg, r));
  }
}
