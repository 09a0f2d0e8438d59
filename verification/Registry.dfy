/** The session registry of cmd/swe-swe-tunneld/tunnel.go: a label map and a per-key index
    that must stay in step, and revocation by key. */
module Registry {
  import opened Bytes
  import opened Naming
  import opened Signing

  /** `T` stands for a session handle. */
  datatype Maps<T> = Maps(sessions: map<Str, T>, byKey: map<Key, map<Str, T>>)

  /** The plain table the two maps stand for: label, the key it runs under, its session. */
  type Table<T> = map<Str, (Key, T)>

  function Find<T>(m: Maps<T>, k: Key, l: Str): Option<T> {
    if k in m.byKey && l in m.byKey[k] then Some(m.byKey[k][l]) else None
  }

  /** Each live label is in the label map and under exactly one key, with the same session in
      both, and no key has an empty index. */
  ghost predicate InStep<T>(m: Maps<T>, table: Table<T>) {
    && m.sessions.Keys == table.Keys
    && (forall l :: l in table ==> m.sessions[l] == table[l].1)
    && (forall k, l :: Find(m, k, l) == if l in table && table[l].0 == k then Some(table[l].1) else None)
    && (forall k :: k in m.byKey ==> m.byKey[k] != map[])
  }

  function Index<T>(m: Maps<T>, k: Key): map<Str, T> {
    if k in m.byKey then m.byKey[k] else map[]
  }

  // ---------------------------------------------------------------- adding

  function Add<T>(m: Maps<T>, l: Str, k: Key, t: T): Maps<T> {
    if l in m.sessions then m
    else Maps(m.sessions[l := t], m.byKey[k := Index(m, k)[l := t]])
  }

  function AddRow<T>(table: Table<T>, l: Str, k: Key, t: T): Table<T> {
    if l in table then table else table[l := (k, t)]
  }

  lemma FindAdd<T>(m: Maps<T>, l: Str, k: Key, t: T, k': Key, l': Str)
    requires l !in m.sessions
    ensures Find(Add(m, l, k, t), k', l') == if k' == k && l' == l then Some(t) else Find(m, k', l')
  {}

  /** Add refuses a live label and otherwise adds exactly that row. */
  lemma AddInStep<T>(m: Maps<T>, table: Table<T>, l: Str, k: Key, t: T)
    requires InStep(m, table)
    ensures InStep(Add(m, l, k, t), AddRow(table, l, k, t))
  {
    var m', table' := Add(m, l, k, t), AddRow(table, l, k, t);
    if l !in table {
      forall k', l'
        ensures Find(m', k', l') == if l' in table' && table'[l'].0 == k' then Some(table'[l'].1) else None
      {
        FindAdd(m, l, k, t, k', l');
        assert Find(m, k', l') == if l' in table && table[l'].0 == k' then Some(table[l'].1) else None;
      }
      assert m'.byKey[k] != map[] by { assert l in m'.byKey[k]; }
    }
  }

  // ---------------------------------------------------------------- removing

  function Without<T(==)>(s: map<Str, T>, l: Str, t: T): map<Str, T> {
    if l in s && s[l] == t then s - {l} else s
  }

  function Reindexed<T(==)>(byKey: map<Key, map<Str, T>>, k: Key, rest: map<Str, T>): map<Key, map<Str, T>> {
    if k !in byKey then byKey else if rest == map[] then byKey - {k} else byKey[k := rest]
  }

  function Remove<T(==)>(m: Maps<T>, l: Str, k: Key, t: T): Maps<T> {
    Maps(Without(m.sessions, l, t), Reindexed(m.byKey, k, Without(Index(m, k), l, t)))
  }

  /** `t` is the session that is live under `l`. */
  ghost predicate Current<T>(table: Table<T>, l: Str, t: T) { l in table && table[l].1 == t }

  ghost function RemoveRow<T>(table: Table<T>, l: Str, t: T): Table<T> {
    if Current(table, l, t) then table - {l} else table
  }

  lemma FindRemove<T>(m: Maps<T>, l: Str, k: Key, t: T, k': Key, l': Str)
    requires Find(m, k, l) == Some(t)
    ensures Find(Remove(m, l, k, t), k', l') == if k' == k && l' == l then None else Find(m, k', l')
  {
    if k' == k && l' != l && l' in m.byKey[k] { assert l' in Without(m.byKey[k], l, t); }
  }

  /** A remove by a session that is no longer the live one changes nothing, whatever key it
      names. */
  lemma StaleRemove<T>(m: Maps<T>, table: Table<T>, l: Str, k: Key, t: T)
    requires InStep(m, table) && !Current(table, l, t)
    ensures Remove(m, l, k, t) == m
  {
    assert Find(m, k, l) == if l in table && table[l].0 == k then Some(table[l].1) else None;
    if k in m.byKey { assert m.byKey[k := m.byKey[k]] == m.byKey; }
  }

  /** Remove takes exactly the session's own row away, when it is called under the key the
      session was added with, as the handler does. */
  lemma RemoveInStep<T>(m: Maps<T>, table: Table<T>, l: Str, k: Key, t: T)
    requires InStep(m, table) && (Current(table, l, t) ==> table[l].0 == k)
    ensures InStep(Remove(m, l, k, t), RemoveRow(table, l, t))
  {
    if Current(table, l, t) {
      var m', table' := Remove(m, l, k, t), RemoveRow(table, l, t);
      assert Find(m, k, l) == Some(t);
      forall k', l'
        ensures Find(m', k', l') == if l' in table' && table'[l'].0 == k' then Some(table'[l'].1) else None
      {
        FindRemove(m, l, k, t, k', l');
        assert Find(m, k', l') == if l' in table && table[l'].0 == k' then Some(table[l'].1) else None;
      }
    } else {
      StaleRemove(m, table, l, k, t);
    }
  }

  // ---------------------------------------------------------------- every reachable registry

  datatype Op<T> = Join(l: Str, k: Key, t: T) | Leave(l: Str, k: Key, t: T)

  function Apply<T(==)>(m: Maps<T>, op: Op<T>): Maps<T> {
    match op case Join(l, k, t) => Add(m, l, k, t) case Leave(l, k, t) => Remove(m, l, k, t)
  }

  ghost function ApplyRow<T>(table: Table<T>, op: Op<T>): Table<T> {
    match op case Join(l, k, t) => AddRow(table, l, k, t) case Leave(l, k, t) => RemoveRow(table, l, t)
  }

  function RunOps<T(==)>(ops: seq<Op<T>>): Maps<T> {
    if ops == [] then Maps(map[], map[]) else Apply(RunOps(ops[..|ops| - 1]), ops[|ops| - 1])
  }

  ghost function RunRows<T>(ops: seq<Op<T>>): Table<T> {
    if ops == [] then map[] else ApplyRow(RunRows(ops[..|ops| - 1]), ops[|ops| - 1])
  }

  /** Every session leaves under the key it joined with. */
  ghost predicate Proper<T>(ops: seq<Op<T>>) {
    ops == [] ||
    (Proper(ops[..|ops| - 1]) && var op, rows := ops[|ops| - 1], RunRows(ops[..|ops| - 1]);
     op.Leave? && Current(rows, op.l, op.t) ==> rows[op.l].0 == op.k)
  }

  /** In every reachable registry the two maps are in step with one plain table. */
  lemma {:induction false} AlwaysInStep<T>(ops: seq<Op<T>>)
    requires Proper(ops)
    ensures InStep(RunOps(ops), RunRows(ops))
  {
    if ops != [] {
      AlwaysInStep(ops[..|ops| - 1]);
      var m, rows := RunOps(ops[..|ops| - 1]), RunRows(ops[..|ops| - 1]);
      match ops[|ops| - 1]
      case Join(l, k, t) => AddInStep(m, rows, l, k, t);
      case Leave(l, k, t) => RemoveInStep(m, rows, l, k, t);
    }
  }

  // ---------------------------------------------------------------- revoking

  /** What revocation collects by walking the per-key index. */
  function Victims<T(==)>(m: Maps<T>, allow: set<Key>): set<(Str, T)> {
    set k, l | k in m.byKey && k !in allow && l in m.byKey[k] :: (l, m.byKey[k][l])
  }

  /** The index walk finds exactly what a scan of all live sessions against the allowlist
      would find. */
  lemma VictimsAreTheScan<T>(m: Maps<T>, table: Table<T>, allow: set<Key>, l: Str, t: T)
    requires InStep(m, table)
    ensures (l, t) in Victims(m, allow) <==> l in table && table[l].1 == t && table[l].0 !in allow
  {
    if (l, t) in Victims(m, allow) {
      var k :| k in m.byKey && k !in allow && l in m.byKey[k] && m.byKey[k][l] == t;
      assert Find(m, k, l) == Some(t);
    }
    if l in table && table[l].1 == t && table[l].0 !in allow {
      var k := table[l].0;
      assert Find(m, k, l) == Some(t);
      assert k in m.byKey && k !in allow && l in m.byKey[k] && m.byKey[k][l] == t;
    }
  }
}
