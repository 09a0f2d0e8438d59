/** The registry and the allowlist as the program runs them: maps and sets changed in place,
    and the reload that drops the sessions of keys no longer listed. */
module Revocation {
  import opened Bytes
  import opened Naming
  import opened Signing
  import opened Strings
  import R = Registry
  import L = Limiter

  class TunnelSession {
    var closed: bool

    constructor ()
      ensures !closed
    {
      closed := false;
    }
  }

  class SessionRegistry {
    var sessions: map<Str, TunnelSession>
    var byPubkey: map<Key, map<Str, TunnelSession>>
    ghost var table: R.Table<TunnelSession>

    ghost function View(): R.Maps<TunnelSession>
      reads this
    {
      R.Maps(sessions, byPubkey)
    }

    ghost predicate Valid()
      reads this
    {
      R.InStep(View(), table)
    }

    constructor ()
      ensures Valid() && table == map[]
    {
      sessions, byPubkey, table := map[], map[], map[];
    }

    method Add(name: Str, key: Key, t: TunnelSession) returns (ok: bool)
      requires Valid()
      modifies this
      ensures Valid() && ok == (name !in old(table))
      ensures table == R.AddRow(old(table), name, key, t)
    {
      R.AddInStep(View(), table, name, key, t);
      if name in sessions { return false; }
      sessions := sessions[name := t];
      var m: map<Str, TunnelSession> := if key in byPubkey then byPubkey[key] else map[];
      m := m[name := t];
      byPubkey := byPubkey[key := m];
      table := R.AddRow(table, name, key, t);
      assert View() == R.Add(old(View()), name, key, t);
      return true;
    }

    method Remove(name: Str, key: Key, t: TunnelSession)
      requires Valid() && (R.Current(table, name, t) ==> table[name].0 == key)
      modifies this
      ensures Valid() && table == R.RemoveRow(old(table), name, t)
    {
      R.RemoveInStep(View(), table, name, key, t);
      sessions := Dropped(sessions, name, t);
      if key in byPubkey {
        var m := Dropped(byPubkey[key], name, t);
        byPubkey := if m == map[] then byPubkey - {key} else byPubkey[key := m];
      }
      table := R.RemoveRow(table, name, t);
      assert View() == R.Remove(old(View()), name, key, t);
    }

    /** Deletes an entry only if it is this very session's. */
    static function Dropped(s: map<Str, TunnelSession>, name: Str, t: TunnelSession): map<Str, TunnelSession> {
      if name in s && s[name] == t then s - {name} else s
    }

    method Get(name: Str) returns (t: TunnelSession?)
      requires Valid()
      ensures t == if name in table then table[name].1 else null
    {
      t := if name in sessions then sessions[name] else null;
    }

    /** The walk under the lock: every session under a key that is not allowed. */
    method CollectVictims(allow: set<Key>) returns (victims: seq<(Str, TunnelSession)>)
      ensures forall v :: v in victims <==> v in R.Victims(View(), allow)
    {
      victims := [];
      var keys := byPubkey.Keys;
      while keys != {}
        invariant keys <= byPubkey.Keys
        invariant forall v :: v in victims <==>
                    exists k :: k in byPubkey && k !in keys && k !in allow && v.0 in byPubkey[k] &&
                      byPubkey[k][v.0] == v.1
        decreases |keys|
      {
        var k :| k in keys;
        ghost var before := victims;
        if k !in allow {
          var names := byPubkey[k].Keys;
          while names != {}
            invariant names <= byPubkey[k].Keys
            invariant forall v :: v in victims <==>
              v in before || (v.0 in byPubkey[k] && v.0 !in names && byPubkey[k][v.0] == v.1)
            decreases |names|
          {
            var name :| name in names;
            victims, names := victims + [(name, byPubkey[k][name])], names - {name};
          }
        }
        keys := keys - {k};
      }
    }

    /** RevokeMissing: closes exactly the sessions whose key is not in `allow`; None means the
        gate is off.  The maps are left to the connections' own clean-up. */
    method RevokeMissing(allow: Option<set<Key>>)
      requires Valid()
      modifies set l | l in table :: table[l].1
      ensures forall l :: l in table ==>
                (table[l].1.closed <==> (old(table[l].1.closed) ||
                  (allow.Some? && Revoked(table, table[l].1, allow.value))))
    {
      if allow.None? { return; }
      var victims := CollectVictims(allow.value);
      VictimsRevoked(View(), table, allow.value, victims);
      CloseAll(victims);
    }
  }

  /** Close, outside the lock, one victim after the other. */
  method CloseAll(victims: seq<(Str, TunnelSession)>)
    modifies set v | v in victims :: v.1
    ensures forall v :: v in victims ==> v.1.closed
  {
    var i := 0;
    while i < |victims|
      invariant 0 <= i <= |victims|
      invariant forall j :: 0 <= j < i ==> victims[j].1.closed
    {
      victims[i].1.closed := true;
      i := i + 1;
    }
  }

  /** The victims are the rows of the table whose key is not allowed. */
  lemma VictimsRevoked(m: R.Maps<TunnelSession>, table: R.Table<TunnelSession>, allow: set<Key>,
                       victims: seq<(Str, TunnelSession)>)
    requires R.InStep(m, table) && forall v :: v in victims <==> v in R.Victims(m, allow)
    ensures forall v :: v in victims ==> v.0 in table && table[v.0].1 == v.1 && table[v.0].0 !in allow
    ensures forall l :: l in table && table[l].0 !in allow ==> (l, table[l].1) in victims
  {
    forall v | v in victims ensures v.0 in table && table[v.0].1 == v.1 && table[v.0].0 !in allow {
      R.VictimsAreTheScan(m, table, allow, v.0, v.1);
    }
    forall l | l in table && table[l].0 !in allow ensures (l, table[l].1) in victims {
      R.VictimsAreTheScan(m, table, allow, l, table[l].1);
    }
  }

  /** The session is live under some key that is not allowed. */
  ghost predicate Revoked(table: R.Table<TunnelSession>, t: TunnelSession, allow: set<Key>) {
    exists l :: l in table && table[l].1 == t && table[l].0 !in allow
  }

  // ---------------------------------------------------------------- the allowlist

  datatype Line = Skip | Listed(key: Key) | Malformed

  /** One line of an allowlist file; `decode` is base64 decoding. */
  function ReadLine(decode: string -> Option<seq<byte>>, raw: string): Line {
    var line := TrimSpace(raw);
    if line == "" || line[0] == '#' then Skip
    else
      var i := IndexOf(line, '#');
      var text := if i >= 0 then TrimSpace(line[..i]) else line;
      match decode(text)
      case None => Malformed
      case Some(b) => if |b| == 32 then Listed(b) else Malformed
  }

  lemma {:induction false} TrimLeftNoMark(body: string)
    requires '#' !in body
    ensures '#' !in TrimLeft(body)
  {
    if body != "" && IsSpace(body[0]) { TrimLeftNoMark(body[1..]); }
  }

  /** What a line of the file says: nothing, if it is blank before its comment; otherwise the key that the
      trimmed text before the comment decodes to, and it is malformed unless that is 32 bytes. */
  lemma ReadLineMeans(decode: string -> Option<seq<byte>>, raw: string, body: string)
    requires SaysLine(raw, body)
    ensures TrimSpace(body) == "" ==> ReadLine(decode, raw) == Skip
    ensures TrimSpace(body) != "" ==>
              forall k: Key :: ReadLine(decode, raw) == Listed(k) <==> decode(TrimSpace(body)) == Some(k)
    ensures TrimSpace(body) != "" ==>
              (ReadLine(decode, raw) == Malformed <==>
                 decode(TrimSpace(body)).None? || |decode(TrimSpace(body)).value| != 32)
  {
    TrimTwice(body);
    if raw != body {
      var note: string :| raw == body + ['#'] + note;
      var tail := TrimCommented(body, note);
      TrimLeftNoMark(body);
      IndexAtFirst(TrimLeft(body), '#', tail);
      var line := TrimSpace(raw);
      assert line[..|TrimLeft(body)|] == TrimLeft(body);
      if TrimLeft(body) == "" { assert line[0] == '#'; } else { StartsTight(body); }
    } else {
      TrimNoMark(body);
      if TrimSpace(body) != "" { StartsTight(body); }
    }
  }

  lemma StartsTight(body: string)
    requires TrimLeft(body) != ""
    ensures TrimLeft(body)[0] in body && TrimSpace(body) != "" && TrimSpace(body)[0] == TrimLeft(body)[0]
  {
    var a := TrimLeftShape(body);
    var c, d := TrimShape(body);
    assert TrimLeft(body)[0] == body[|a|];
    TrimRightKeeps("", TrimLeft(body));
    var tail: string :| TrimRight("" + TrimLeft(body)) == "" + [TrimLeft(body)[0]] + tail;
    assert "" + TrimLeft(body) == TrimLeft(body);
  }

  lemma TrimNoMark(body: string)
    requires '#' !in body
    ensures '#' !in TrimSpace(body)
  {
    var a, b := TrimShape(body);
    forall i | 0 <= i < |TrimSpace(body)| ensures TrimSpace(body)[i] != '#' {
      assert body[|a| + i] == TrimSpace(body)[i];
    }
  }

  predicate AnyMalformed(decode: string -> Option<seq<byte>>, lines: seq<string>) {
    exists i :: 0 <= i < |lines| && ReadLine(decode, lines[i]).Malformed?
  }

  /** The lines of all files, in order: the keys they list, or nothing if any is malformed. */
  method ParseLines(decode: string -> Option<seq<byte>>, lines: seq<string>) returns (keys: Option<set<Key>>)
    ensures keys.None? <==> AnyMalformed(decode, lines)
    ensures keys.Some? ==>
              forall k :: k in keys.value <==> exists i :: 0 <= i < |lines| && ReadLine(decode, lines[i]) == Listed(k)
  {
    var found: set<Key> := {};
    var i := 0;
    while i < |lines|
      invariant 0 <= i <= |lines|
      invariant forall j :: 0 <= j < i ==> !ReadLine(decode, lines[j]).Malformed?
      invariant forall k :: k in found <==> exists j :: 0 <= j < i && ReadLine(decode, lines[j]) == Listed(k)
    {
      match ReadLine(decode, lines[i]) {
        case Skip =>
        case Malformed => return None;
        case Listed(k) => found := found + {k};
      }
      i := i + 1;
    }
    return Some(found);
  }

  class Allowlist {
    var keys: set<Key>

    constructor (keys: set<Key>)
      ensures this.keys == keys
    {
      this.keys := keys;
    }

    /** Reload: counts what was added and removed and swaps the set; a failed parse (None)
        keeps the set. */
    method Reload(parsed: Option<set<Key>>) returns (ok: bool, added: nat, removed: nat)
      modifies this
      ensures ok == parsed.Some?
      ensures keys == if ok then parsed.value else old(keys)
      ensures ok ==> added == |keys - old(keys)| && removed == |old(keys) - keys|
    {
      if parsed.None? { return false, 0, 0; }
      added := CountMissing(parsed.value, keys);
      removed := CountMissing(keys, parsed.value);
      keys := parsed.value;
      ok := true;
    }
  }

  lemma WalkOne(todo: set<Key>, b: set<Key>, k: Key)
    requires k in todo
    ensures |todo - b| == |(todo - {k}) - b| + (if k in b then 0 else 1)
  {
    assert (todo - {k}) - b == (todo - b) - {k};
    L.SetWithout(todo - b, k);
  }

  /** How many of `a` are not in `b`, by walking `a`. */
  method CountMissing(a: set<Key>, b: set<Key>) returns (n: nat)
    ensures n == |a - b|
  {
    n := 0;
    var todo := a;
    while todo != {}
      invariant n + |todo - b| == |a - b|
      decreases |todo|
    {
      var k :| k in todo;
      WalkOne(todo, b, k);
      if k !in b { n := n + 1; }
      todo := todo - {k};
    }
    assert todo - b == {};
  }

  /** SIGHUP: a reload that fails keeps the set and closes nobody; one that succeeds closes
      exactly the live sessions whose key is no longer listed. */
  method ReloadAndRevoke(allow: Allowlist, reg: SessionRegistry, decode: string -> Option<seq<byte>>,
                         lines: seq<string>)
    requires reg.Valid()
    modifies allow, set l | l in reg.table :: reg.table[l].1
    ensures AnyMalformed(decode, lines) ==> allow.keys == old(allow.keys)
    ensures !AnyMalformed(decode, lines) ==>
              forall k :: k in allow.keys <==> exists i :: 0 <= i < |lines| && ReadLine(decode, lines[i]) == Listed(k)
    ensures reg.table == old(reg.table) && reg.Valid()
    ensures forall l :: l in reg.table ==>
              (reg.table[l].1.closed <==>
                (old(reg.table[l].1.closed) ||
                  (!AnyMalformed(decode, lines) && Revoked(reg.table, reg.table[l].1, allow.keys))))
  {
    var parsed := ParseLines(decode, lines);
    var ok, added, removed := allow.Reload(parsed);
    if ok { reg.RevokeMissing(Some(allow.keys)); }
  }
}
