/** Live sessions and the allowlist, over every interleaving of handlers, reloads and revocations:
    which sessions a revocation leaves behind. */
module Delisting {
  import opened Bytes
  import opened Naming
  import opened Signing
  import P = Protocol
  import S = ProtocolSafety

  // ---------------------------------------------------------------- the list in force

  /** The last list loaded after the prefix `s`. */
  function LastReload(r: P.Run, s: P.Run): Option<set<Key>> {
    if r == s || r.Start? then None
    else if r.act.Reload? then Some(r.act.keys)
    else LastReload(r.prior, s)
  }

  lemma AllowNext(cfg: P.Config, w: P.World, a: P.Action)
    ensures P.Next(cfg, w, a).sh.allow == if a.Reload? then Some(a.keys) else w.sh.allow
  {}

  lemma {:induction false} AllowSince(cfg: P.Config, r: P.Run, s: P.Run)
    requires S.Extends(r, s)
    ensures P.Exec(cfg, r).sh.allow == if LastReload(r, s).Some? then LastReload(r, s) else P.Exec(cfg, s).sh.allow
  {
    if r != s {
      AllowSince(cfg, r.prior, s);
      AllowNext(cfg, P.Exec(cfg, r.prior), r.act);
    }
  }

  /** `s` ends with the step at which connection `id` passed the allowlist with `k`. */
  ghost predicate PassedList(cfg: P.Config, s: P.Run, id: nat, k: Key) {
    s.Then? && S.AllowStep(P.Exec(cfg, s.prior), s.act, id, k)
  }

  lemma {:induction false} FindPassing(cfg: P.Config, r: P.Run, id: nat, k: Key) returns (s: P.Run)
    requires S.Allowed(cfg, r, id, k)
    ensures S.Extends(r, s) && PassedList(cfg, s, id, k)
  {
    if S.AllowStep(P.Exec(cfg, r.prior), r.act, id, k) { s := r; } else { s := FindPassing(cfg, r.prior, id, k); }
  }

  predicate Lacks(list: Option<set<Key>>, k: Key) { list.Some? && k !in list.value }

  // ---------------------------------------------------------------- when a session joined, and whether it was closed

  ghost predicate JoinsHere(w: P.World, a: P.Action, name: Str, id: nat, k: Key) {
    && S.At(w, a, id) && w.hs[id].pc.Joining? && TunnelLabel(w.hs[id].unique) == name && P.KeyOf(w.hs[id]) == k
    && name !in w.sh.live
  }

  /** `j` ends with the step at which connection `id` joined the registry under `name` with `k`. */
  ghost predicate JoinsLast(cfg: P.Config, j: P.Run, name: Str, id: nat, k: Key) {
    j.Then? && JoinsHere(P.Exec(cfg, j.prior), j.act, name, id, k)
  }

  /** A revocation after `j` found `k` off the list then in force. */
  ghost predicate RevokedSince(cfg: P.Config, r: P.Run, j: P.Run, k: Key) {
    r != j && r.Then? &&
    (RevokedSince(cfg, r.prior, j, k) || (r.act.Revoke? && !P.Allows(P.Exec(cfg, r.prior).sh.allow, k)))
  }

  lemma SessionNext(cfg: P.Config, w: P.World, a: P.Action, name: Str)
    requires P.Enabled(w, a) && name in P.Next(cfg, w, a).sh.live
    ensures var s' := P.Next(cfg, w, a).sh.live[name];
            if name in w.sh.live
            then s' == w.sh.live[name].(closed := s'.closed)
                 && (s'.closed <==> w.sh.live[name].closed || (a.Revoke? && !P.Allows(w.sh.allow, s'.key)))
            else !s'.closed && JoinsHere(w, a, name, s'.owner, s'.key)
  {}

  lemma {:induction false} FindJoin(cfg: P.Config, r: P.Run, name: Str, id: nat, k: Key, closed: bool)
    returns (j: P.Run)
    requires P.Valid(cfg, r) && name in P.Exec(cfg, r).sh.live &&
             P.Exec(cfg, r).sh.live[name] == P.Session(k, id, closed)
    ensures S.Extends(r, j) && JoinsLast(cfg, j, name, id, k)
    ensures closed <==> RevokedSince(cfg, r, j, k)
  {
    var w := P.Exec(cfg, r.prior);
    SessionNext(cfg, w, r.act, name);
    if name in w.sh.live {
      j := FindJoin(cfg, r.prior, name, id, k, w.sh.live[name].closed);
      NotItsOwnPrefix(r, j);
    } else {
      j := r;
    }
  }

  function Length(r: P.Run): nat { if r.Start? then 0 else Length(r.prior) + 1 }

  lemma {:induction false} PrefixShorter(r: P.Run, s: P.Run)
    requires S.Extends(r, s)
    ensures Length(s) <= Length(r) && (Length(s) == Length(r) ==> r == s)
  {
    if r != s { PrefixShorter(r.prior, s); }
  }

  lemma NotItsOwnPrefix(r: P.Run, j: P.Run)
    requires r.Then? && S.Extends(r.prior, j)
    ensures r != j
  {
    PrefixShorter(r.prior, j);
  }

  lemma JoiningWasAllowed(cfg: P.Config, r: P.Run, w: P.World, id: nat)
    requires P.Valid(cfg, r) && w == P.Exec(cfg, r) && id in w.hs && w.hs[id].pc.Joining?
    ensures S.Allowed(cfg, r, id, P.KeyOf(w.hs[id]))
  {
    S.HandlersEarned(cfg, r);
    assert S.HandlerOk(cfg, r, w.sh.signed, id, w.hs[id]);
  }

  /** The session passed the allowlist at the end of `s` and then joined at the end of `j`. */
  ghost predicate History(cfg: P.Config, r: P.Run, s: P.Run, j: P.Run, name: Str, id: nat, k: Key) {
    && S.Extends(r, j) && JoinsLast(cfg, j, name, id, k)
    && S.Extends(j.prior, s) && PassedList(cfg, s, id, k)
  }

  lemma FindHistory(cfg: P.Config, r: P.Run, name: Str, id: nat, k: Key, closed: bool) returns (s: P.Run, j: P.Run)
    requires P.Valid(cfg, r) && name in P.Exec(cfg, r).sh.live &&
             P.Exec(cfg, r).sh.live[name] == P.Session(k, id, closed)
    ensures History(cfg, r, s, j, name, id, k)
    ensures closed <==> RevokedSince(cfg, r, j, k)
  {
    j := FindJoin(cfg, r, name, id, k, closed);
    S.ExtendsValid(cfg, r, j);
    JoiningWasAllowed(cfg, j.prior, P.Exec(cfg, j.prior), id);
    s := FindPassing(cfg, j.prior, id, k);
  }

  // ---------------------------------------------------------------- sessions off the list

  /** A revocation came after both the join and the last reload. */
  predicate RevokedAfterReload(r: P.Run, j: P.Run) {
    r != j && r.Then? && !r.act.Reload? && (r.act.Revoke? || RevokedAfterReload(r.prior, j))
  }

  lemma {:induction false} RevocationSees(cfg: P.Config, r: P.Run, j: P.Run, k: Key)
    requires RevokedAfterReload(r, j) && !P.Allows(P.Exec(cfg, r).sh.allow, k)
    ensures RevokedSince(cfg, r, j, k)
  {
    AllowNext(cfg, P.Exec(cfg, r.prior), r.act);
    if !r.act.Revoke? { RevocationSees(cfg, r.prior, j, k); }
  }

  /** For every live session, its passing of the allowlist and its join: it is closed iff a revocation
      since the join found its key off the list then in force.  While it is not closed, its key is off
      the list in force iff the last list loaded since it passed leaves the key out and no revocation
      came after both the join and that reload. */
  lemma UnlistedSurvivors(cfg: P.Config, r: P.Run, name: Str, id: nat, k: Key, closed: bool)
    returns (s: P.Run, j: P.Run)
    requires P.Valid(cfg, r) && name in P.Exec(cfg, r).sh.live &&
             P.Exec(cfg, r).sh.live[name] == P.Session(k, id, closed)
    ensures History(cfg, r, s, j, name, id, k)
    ensures closed <==> RevokedSince(cfg, r, j, k)
    ensures !closed ==>
              (!P.Allows(P.Exec(cfg, r).sh.allow, k) <==> Lacks(LastReload(r, s), k) && !RevokedAfterReload(r, j))
  {
    s, j := FindHistory(cfg, r, name, id, k, closed);
    S.ExtendsTrans(r, j, j.prior);
    S.ExtendsTrans(r, j.prior, s);
    AllowSince(cfg, r, s);
    AllowNext(cfg, P.Exec(cfg, s.prior), s.act);
    if RevokedAfterReload(r, j) && !P.Allows(P.Exec(cfg, r).sh.allow, k) { RevocationSees(cfg, r, j, k); }
  }

  // ---------------------------------------------------------------- after a reload and its revocation

  lemma {:induction false} PrefixesInLine(r: P.Run, a: P.Run, b: P.Run)
    requires S.Extends(r, a) && S.Extends(r, b)
    ensures S.Extends(a, b) || S.Extends(b, a)
  {
    if r != a && r != b { PrefixesInLine(r.prior, a, b); }
  }

  lemma {:induction false} RevokedStays(cfg: P.Config, r: P.Run, m: P.Run, j: P.Run, k: Key)
    requires S.Extends(r, m) && S.Extends(m, j) && RevokedSince(cfg, m, j, k)
    ensures RevokedSince(cfg, r, j, k)
  {
    if r != m {
      RevokedStays(cfg, r.prior, m, j, k);
      S.ExtendsTrans(r.prior, m, j);
      NotItsOwnPrefix(r, j);
    }
  }

  lemma {:induction false} NoReloadBefore(r: P.Run, m: P.Run, p: P.Run)
    requires S.Extends(r, m) && S.Extends(m, p) && LastReload(r, p).None?
    ensures LastReload(m, p).None?
  {
    if r != m {
      S.ExtendsTrans(r.prior, m, p);
      NotItsOwnPrefix(r, p);
      NoReloadBefore(r.prior, m, p);
    }
  }

  /** No revocation after `p`. */
  predicate NoRevokeSince(r: P.Run, p: P.Run) {
    r == p || r.Start? || (!r.act.Revoke? && NoRevokeSince(r.prior, p))
  }

  lemma {:induction false} UnrevokedSince(cfg: P.Config, r: P.Run, p: P.Run, j: P.Run, k: Key)
    requires S.Extends(r, j) && S.Extends(j, p) && NoRevokeSince(r, p)
    ensures !RevokedSince(cfg, r, j, k)
  {
    if r != j {
      S.ExtendsTrans(r.prior, j, p);
      NotItsOwnPrefix(r, p);
      UnrevokedSince(cfg, r.prior, p, j, k);
    }
  }

  /** The run `q` followed by a reload and its revocation. */
  function Reloaded(q: P.Run, keys: set<Key>): P.Run { P.Then(P.Then(q, P.Reload(keys)), P.Revoke) }

  lemma ListAfter(cfg: P.Config, q: P.Run, keys: set<Key>, m: P.Run)
    requires S.Extends(m, Reloaded(q, keys)) && LastReload(m, Reloaded(q, keys)).None?
    ensures P.Exec(cfg, m).sh.allow == Some(keys)
  {
    AllowSince(cfg, m, Reloaded(q, keys));
    AllowNext(cfg, P.Exec(cfg, P.Then(q, P.Reload(keys))), P.Revoke);
    AllowNext(cfg, P.Exec(cfg, q), P.Reload(keys));
  }

  /** Whoever is off the new list passed the gate before it was loaded. */
  lemma PassedBefore(cfg: P.Config, q: P.Run, keys: set<Key>, r: P.Run, s: P.Run, id: nat, k: Key)
    requires S.Extends(r, Reloaded(q, keys)) && LastReload(r, Reloaded(q, keys)).None?
    requires S.Extends(r, s) && PassedList(cfg, s, id, k) && k !in keys
    ensures S.Extends(q, s)
  {
    var p := Reloaded(q, keys);
    PrefixesInLine(r, s, p);
    if S.Extends(s, p) && s != p {
      S.ExtendsTrans(r, s, s.prior);
      NoReloadBefore(r, s.prior, p);
      ListAfter(cfg, q, keys, s.prior);
    } else {
      assert S.Extends(p, s);
    }
  }

  lemma JoinedBeforeIsClosed(cfg: P.Config, q: P.Run, keys: set<Key>, r: P.Run, j: P.Run, name: Str, id: nat, k: Key)
    requires S.Extends(r, Reloaded(q, keys)) && S.Extends(Reloaded(q, keys), j) && JoinsLast(cfg, j, name, id, k) &&
             k !in keys
    ensures RevokedSince(cfg, r, j, k)
  {
    var p := Reloaded(q, keys);
    AllowNext(cfg, P.Exec(cfg, q), P.Reload(keys));
    assert p != j;
    assert RevokedSince(cfg, p, j, k);
    RevokedStays(cfg, r, p, j, k);
  }

  /** After a reload and its revocation, as long as nothing is reloaded: of the live sessions whose key
      the new list lacks, all that had joined before are closed.  One that is open joined after the
      revocation, having passed the gate before the reload; and without a further revocation every
      such session is open. */
  lemma AfterRevocation(cfg: P.Config, q: P.Run, keys: set<Key>, r: P.Run, name: Str, id: nat, k: Key, closed: bool)
    returns (s: P.Run, j: P.Run)
    requires P.Valid(cfg, r) && S.Extends(r, Reloaded(q, keys)) && LastReload(r, Reloaded(q, keys)).None? && k !in keys
    requires name in P.Exec(cfg, r).sh.live && P.Exec(cfg, r).sh.live[name] == P.Session(k, id, closed)
    ensures History(cfg, r, s, j, name, id, k) && S.Extends(q, s)
    ensures S.Extends(Reloaded(q, keys), j) ==> closed
    ensures !closed ==> S.Extends(j, Reloaded(q, keys))
    ensures NoRevokeSince(r, Reloaded(q, keys)) ==> (closed <==> S.Extends(Reloaded(q, keys), j))
  {
    var p := Reloaded(q, keys);
    s, j := FindHistory(cfg, r, name, id, k, closed);
    S.ExtendsTrans(r, j, j.prior);
    S.ExtendsTrans(r, j.prior, s);
    PassedBefore(cfg, q, keys, r, s, id, k);
    PrefixesInLine(r, j, p);
    if S.Extends(p, j) { JoinedBeforeIsClosed(cfg, q, keys, r, j, name, id, k); }
    else if NoRevokeSince(r, p) { UnrevokedSince(cfg, r, p, j, k); }
  }
}
