/** The ownership table of internal/identity/store.go: one row per name.  Each method is one
    atomic statement; `fails` says that the database refuses it, and then nothing changes. */
module IdentityStore {
  import opened Bytes
  import opened Signing
  import opened Naming
  import P = Protocol

  datatype Row = Row(key: Key, created: int, seen: int)

  datatype Status = Ok | AlreadyExists | Failed

  /** The event by which the step machine learns how a statement went. */
  function Outcome(fails: bool): P.Event { if fails then P.Fault else P.Do }

  /** Put, Rotate and Delete change the owners as the machine's claim, rotation and deletion steps
      do, for every handler that could be taking that step. */
  class Store {
    var rows: map<Str, Row>

    /** The part of the table that decides ownership: the protocol's view of it. */
    ghost function Owners(): map<Str, Key>
      reads this
    {
      map u | u in rows :: rows[u].key
    }

    constructor ()
      ensures rows == map[] && Owners() == map[]
    {
      rows := map[];
    }

    method Get(unique: Str, fails: bool) returns (st: Status, row: Option<Row>)
      ensures st == if fails then Failed else Ok
      ensures !fails ==> (row.Some? <==> unique in Owners()) && (row.Some? ==> row.value.key == Owners()[unique])
    {
      if fails { return Failed, None; }
      return Ok, if unique in rows then Some(rows[unique]) else None;
    }

    /** Takes the name iff nobody has it, exactly as the claim step of the protocol does. */
    method Put(unique: Str, key: Key, now: int, fails: bool) returns (st: Status)
      modifies this
      ensures st == if fails then Failed else if unique in old(Owners()) then AlreadyExists else Ok
      ensures Owners() == if st == Ok then old(Owners())[unique := key] else old(Owners())
      ensures rows == if st == Ok then old(rows)[unique := Row(key, now, now)] else old(rows)
      ensures forall h: P.Handler :: h.pc.Claim? && h.unique == unique && P.KeyOf(h) == key ==>
                Owners() == P.StoreAfter(old(Owners()), h, Outcome(fails))
    {
      if fails { return Failed; }
      if unique in rows { return AlreadyExists; }
      rows := rows[unique := Row(key, now, now)];
      return Ok;
    }

    /** Moves last_seen_at of that row alone; no owner changes. */
    method Touch(unique: Str, now: int, fails: bool) returns (st: Status)
      modifies this
      ensures st == if fails then Failed else Ok
      ensures Owners() == old(Owners())
      ensures forall u :: u in old(rows) ==>
                u in rows && rows[u] == if u == unique && !fails then old(rows)[u].(seen := now) else old(rows)[u]
    {
      if fails { return Failed; }
      if unique in rows { rows := rows[unique := rows[unique].(seen := now)]; }
      return Ok;
    }

    /** Updates by name alone: Ok even when no such row is left, and then no row is made. */
    method Rotate(unique: Str, key: Key, now: int, fails: bool) returns (st: Status)
      modifies this
      ensures st == if fails then Failed else Ok
      ensures Owners() == if st == Ok && unique in old(Owners()) then old(Owners())[unique := key] else old(Owners())
      ensures forall u :: u in old(rows) ==>
                && u in rows
                && rows[u] == if u == unique && !fails then Row(key, old(rows)[u].created, now) else old(rows)[u]
      ensures forall h: P.Handler :: h.pc.Rotating? && h.unique == unique && P.KeyOf(h) == key ==>
                Owners() == P.StoreAfter(old(Owners()), h, Outcome(fails))
    {
      if fails { return Failed; }
      if unique in rows { rows := rows[unique := rows[unique].(key := key, seen := now)]; }
      return Ok;
    }

    method Delete(unique: Str, fails: bool) returns (st: Status)
      modifies this
      ensures st == if fails then Failed else Ok
      ensures Owners() == if st == Ok then old(Owners()) - {unique} else old(Owners())
      ensures forall h: P.Handler :: h.pc.Deleting? && h.unique == unique ==>
                Owners() == P.StoreAfter(old(Owners()), h, Outcome(fails))
    {
      if fails { return Failed; }
      rows := rows - {unique};
      return Ok;
    }
  }
}
