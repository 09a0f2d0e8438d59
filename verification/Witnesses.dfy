/** Concrete runs that show promises the code does not keep, or conditions that are needed. */
module Witnesses {
  import opened Bytes
  import opened Signing
  import opened Naming
  import opened CertErrors
  import opened Protocol
  import opened Runs
  import S = ProtocolSafety
  import O = Outcomes
  import H = Handshake
  import Retry
  import Delisting

  const OPEN := Open(None, 0)
  const NAME: Str := "abc"

  function Owner(): Caller { Caller(NAME, seq(32, i => 1), 0, None) }

  function Other(): Caller { Caller(NAME, seq(32, i => 2), 0, None) }

  lemma CallersDiffer()
    ensures Owner().key != Other().key && Sound(Owner()) && Sound(Other())
  {
    assert Owner().key[0] == 1 && Other().key[0] == 2;
  }

  // ---------------------------------------------------------------- the common first part

  lemma OwnerServes() returns (r: Run, w: World)
    ensures Reached(OPEN, r, w) && w.sh.now == 0 && w.sh.allow.None?
    ensures w.hs == map[0 := Welcome(OPEN, Owner())] && w.sh.store == map[NAME := Owner().key]
    ensures w.sh.live == map[TunnelLabel(NAME) := Session(Owner().key, 0, false)] &&
            w.sh.signed == {(Owner().key, Claimed(Owner()))}
  {
    CallersDiffer();
    var w0 := Boot(OPEN);
    assert Reached(OPEN, Start, w0);
    var r1, _ := TakesFreeName(OPEN, Start, w0, 0, Owner());
    var w1 := With(Owned(Signed(w0, Owner().key, Claimed(Owner())), NAME, Owner().key), 0, Winner(Owner()));
    r := Serves(OPEN, r1, w1, 0, Owner());
    w := With(Online(w1, 0, Owner()), 0, Welcome(OPEN, Owner()));
  }

  /** Connection 0 owns the name and serves; connection 1, with another key, is challenged. */
  ghost predicate Challenged(w: World, n: seq<byte>) {
    && w.sh.now == 0 && w.sh.allow.None? && |n| == 32
    && w.hs == map[0 := Welcome(OPEN, Owner()), 1 := Contested(Other(), Owner().key, n)]
    && w.sh.store == map[NAME := Owner().key] && w.sh.live == map[TunnelLabel(NAME) := Session(Owner().key, 0, false)]
  }

  lemma NewcomerEnters() returns (r: Run, w: World)
    ensures Reached(OPEN, r, w) && Entered(w) && Retry.OpenedWith(OPEN, r, 1, Opening(Other()))
  {
    CallersDiffer();
    var r0, w0 := OwnerServes();
    var o;
    r, o := Enters(OPEN, r0, w0, 1, Other());
    w := With(Signed(w0, Other().key, Claimed(Other())), 1, Admitted(Other()));
    Retry.OpenedStays(OPEN, r, o, 1, Opening(Other()));
    assert w.hs == map[0 := Welcome(OPEN, Owner()), 1 := Admitted(Other())];
  }

  ghost predicate Entered(w: World) {
    && w.sh.now == 0 && w.sh.allow.None? && w.hs == map[0 := Welcome(OPEN, Owner()), 1 := Admitted(Other())]
    && w.sh.store == map[NAME := Owner().key] && w.sh.live == map[TunnelLabel(NAME) := Session(Owner().key, 0, false)]
    && w.sh.signed == {(Owner().key, Claimed(Owner())), (Other().key, Claimed(Other()))}
  }

  lemma ChallengeNewcomer(r: Run, w: World, n: seq<byte>) returns (r': Run, w': World)
    requires Reached(OPEN, r, w) && Entered(w) && |n| == 32
    ensures Reached(OPEN, r', w') && Challenged(w', n) && S.Extends(r', r)
  {
    CallersDiffer();
    r' := Contests(OPEN, r, w, 1, Other(), Owner().key, n);
    w' := With(w, 1, Contested(Other(), Owner().key, n));
    assert w'.hs == map[0 := Welcome(OPEN, Owner()), 1 := Contested(Other(), Owner().key, n)];
  }

  lemma NewcomerChallenged() returns (r: Run, w: World, n: seq<byte>)
    ensures Reached(OPEN, r, w) && Challenged(w, n) && Retry.OpenedWith(OPEN, r, 1, Opening(Other()))
  {
    n := Owner().key;
    var r1, w1 := NewcomerEnters();
    r, w := ChallengeNewcomer(r1, w1, n);
    Retry.OpenedStays(OPEN, r, r1, 1, Opening(Other()));
  }

  function Rotator(n: seq<byte>): Handler { Contested(Other(), Owner().key, n).(pc := Rotating(Owner().key, n)) }

  /** Connection 1 holds a valid proof of the owner's key and is about to rotate. */
  ghost predicate Poised(w: World, n: seq<byte>) {
    && w.sh.now == 0 && 0 in w.hs && 1 in w.hs
    && w.hs[0] == Welcome(OPEN, Owner()) && w.hs[1] == Rotator(n)
    && w.sh.store == map[NAME := Owner().key] && w.sh.live == map[TunnelLabel(NAME) := Session(Owner().key, 0, false)]
  }

  lemma NewcomerPoised() returns (r: Run, w: World, n: seq<byte>)
    ensures Reached(OPEN, r, w) && Poised(w, n)
  {
    var r0, w0;
    r0, w0, n := NewcomerChallenged();
    r := Proves(OPEN, r0, w0, 1, Other(), Owner().key, n);
    w := With(Signed(w0, Owner().key, Proof(n)), 1, Rotator(n));
  }

  // ---------------------------------------------------------------- statements keyed by name only

  /** A rotation that follows a deletion reports ok although no row carries its key. */
  lemma RotationWithoutRow() returns (r: Run)
    ensures Valid(OPEN, r) && S.Returned(OPEN, r, 1, NAME, Other().key)
    ensures NAME !in Exec(OPEN, r).sh.store
  {
    var r0, w0, n := NewcomerPoised();
    var w1 := w0.(sh := w0.sh.(store := w0.sh.store - {NAME}));
    Extend(OPEN, r0, w0, OperatorDelete(NAME), w1);
    var r1 := Then(r0, OperatorDelete(NAME));
    r := Then(r1, Step(1, Do));
    Extend(OPEN, r1, w1, Step(1, Do), Next(OPEN, w1, Step(1, Do)));
    assert NAME !in w1.sh.store;
  }

  function Rotated(n: seq<byte>): Handler { Rotator(n).(pc := Joining) }

  /** The newcomer's rotation goes through while the old session is live. */
  lemma RotatedAway() returns (r: Run, w: World, n: seq<byte>)
    ensures Reached(OPEN, r, w) && w.sh.now == 0 && 0 in w.hs && 1 in w.hs && w.hs[0] == Welcome(OPEN, Owner()) &&
            w.hs[1] == Rotated(n)
    ensures w.sh.store == map[NAME := Other().key] &&
            w.sh.live == map[TunnelLabel(NAME) := Session(Owner().key, 0, false)]
    ensures S.Wrote(OPEN, r, 1)
  {
    CallersDiffer();
    var r0, w0;
    r0, w0, n := NewcomerPoised();
    w := With(Owned(w0, NAME, Other().key), 1, Rotated(n));
    Extend(OPEN, r0, w0, Step(1, Do), w);
    r := Then(r0, Step(1, Do));
    assert w0.sh.store[NAME] != w.sh.store[NAME];
    S.StoreChanges(OPEN, w0, Step(1, Do));
  }

  /** A session keeps the right to release its name after the name has been rotated away
      from its key: the row it deletes belongs to another key. */
  lemma StaleSessionReleases() returns (r: Run)
    ensures Valid(OPEN, r) && r.Then? && r.act == Step(0, Do)
    ensures var w, w' := Exec(OPEN, r.prior), Exec(OPEN, r);
            && S.Row(w, NAME) == Some(Other().key) && S.Row(w', NAME) == None
            && 0 in w.hs && KeyOf(w.hs[0]) == Owner().key != Other().key
  {
    CallersDiffer();
    var r0, w0, n := RotatedAway();
    var r1 := AsksRelease(OPEN, r0, w0, 0, Owner());
    var w1 := With(Signed(w0, Owner().key, Deregister(NAME, 0)), 0, Welcome(OPEN, Owner()).(pc := Deleting(0, 0)));
    r := Releases(OPEN, r1, w1, 0, Owner(), 0, 0);
  }

  // ---------------------------------------------------------------- unwelcomed connections that changed a row

  /** A connection that is refused because its label is taken has rotated the row before. */
  lemma RefusedButRotated() returns (r: Run)
    ensures Valid(OPEN, r) && 1 in Exec(OPEN, r).hs && S.Wrote(OPEN, r, 1)
    ensures Exec(OPEN, r).hs[1].pc.Ended? && O.LabelRefused(Exec(OPEN, r).hs[1])
    ensures S.Row(Exec(OPEN, r), NAME) == Some(Other().key)
  {
    var r0, w0, n := RotatedAway();
    r := Then(r0, Step(1, Do));
    JoinRefused(r0, w0, n);
    RefusedReads(n, TAKEN);
  }

  const TAKEN := Deny(LabelTaken(TunnelLabel(NAME)), 0)

  lemma JoinRefused(r: Run, w: World, n: seq<byte>)
    requires Reached(OPEN, r, w) && 1 in w.hs && w.hs[1] == Rotated(n) && TunnelLabel(NAME) in w.sh.live
    ensures Reached(OPEN, Then(r, Step(1, Do)), With(w, 1, Rotated(n).(pc := Ended, sent := [Challenge(n), TAKEN])))
  {
    assert Rotated(n).sent + [TAKEN] == [Challenge(n), TAKEN];
    Extend(OPEN, r, w, Step(1, Do), With(w, 1, Rotated(n).(pc := Ended, sent := [Challenge(n), TAKEN])));
  }

  lemma RefusedReads(n: seq<byte>, deny: Outbound)
    requires deny.Deny?
    ensures H.PhaseOf([Challenge(n), deny]).Refused?
  {
    assert [Challenge(n), deny][..1] == [Challenge(n)] && [Challenge(n)][..0] == [];
    assert H.PhaseOf([Challenge(n)]).Challenged?;
  }

  /** A connection whose peer is lost just before RegisterOK has inserted a row and says nothing. */
  lemma LostButInserted() returns (r: Run)
    ensures Valid(OPEN, r) && 0 in Exec(OPEN, r).hs && O.LostAtGreeting(OPEN, r, 0) && S.Wrote(OPEN, r, 0)
    ensures Exec(OPEN, r).hs[0].sent == [] && S.Row(Exec(OPEN, r), NAME) == Some(Owner().key)
  {
    CallersDiffer();
    var w0 := Boot(OPEN);
    assert Reached(OPEN, Start, w0);
    var r1, _ := TakesFreeName(OPEN, Start, w0, 0, Owner());
    var w1 := With(Owned(Signed(w0, Owner().key, Claimed(Owner())), NAME, Owner().key), 0, Winner(Owner()));
    r := IsLost(OPEN, r1, w1, 0, Owner());
    S.WroteStays(OPEN, r, r1, 0);
    assert S.At(Exec(OPEN, r.prior), r.act, 0);
  }

  // ---------------------------------------------------------------- refusals that a retry of the same frame survives

  lemma TwoFrames(n: seq<byte>, d: Reason)
    ensures H.ClientAfter([Challenge(n), Deny(d, 0)]) == H.Denied(d, 0)
  {
    var sent := [Challenge(n), Deny(d, 0)];
    assert sent[..1] == [Challenge(n)] && [Challenge(n)][..0] == [];
    assert H.ClientAfter([Challenge(n)]) == H.Waiting(true);
  }

  lemma NewcomerMismatched() returns (r: Run, w: World, n: seq<byte>)
    ensures Reached(OPEN, r, w) && w.sh.now == 0 && w.sh.allow.None? && w.sh.store == map[NAME := Owner().key]
    ensures Retry.OpenedWith(OPEN, r, 1, Opening(Other())) && w.hs.Keys == {0, 1} && w.hs[1] == Mismatched(Other(), n)
  {
    CallersDiffer();
    var r0, w0;
    r0, w0, n := NewcomerChallenged();
    r := FailsProof(OPEN, r0, w0, 1, Other(), Owner().key, n);
    w := With(Signed(w0, Other().key, Proof(n)), 1, Mismatched(Other(), n));
    Retry.OpenedStays(OPEN, r, r0, 1, Opening(Other()));
  }

  /** In the run `p` connection `id`, opened with `f`, has been told `d`; in its extension `r` a connection
      that did not exist in `p` succeeds with the very same frame. */
  ghost predicate Retries(p: Run, r: Run, id: nat, again: nat, f: Inbound, d: Reason) {
    && S.Extends(r, p) && Retry.Told(OPEN, p, id, d, 0) && Retry.OpenedWith(OPEN, p, id, f)
    && Retry.Peer(OPEN, p, id) == None && again !in Exec(OPEN, p).hs && Retry.Succeeds(OPEN, r, again, f, None)
  }

  /** key_mismatch, and then the very same frame is accepted: the name was given up meanwhile. */
  lemma RetryAfterMismatch() returns (p: Run, r: Run)
    ensures Retries(p, r, 1, 2, Opening(Other()), KeyMismatch)
  {
    CallersDiffer();
    var w0, n;
    p, w0, n := NewcomerMismatched();
    var w1 := w0.(sh := w0.sh.(store := w0.sh.store - {NAME}));
    Extend(OPEN, p, w0, OperatorDelete(NAME), w1);
    var r1 := Then(p, OperatorDelete(NAME));
    r := Retry.SucceedsOn(OPEN, r1, w1, 2, Other());
    S.ExtendsTrans(r, r1, p);
    TwoFrames(n, KeyMismatch);
  }

  /** A challenged newcomer that answers with some other frame. */
  lemma AnsweredBadly(f: Inbound, d: Reason) returns (r: Run)
    requires forall existing, nonce :: OnProof(f, existing, nonce) == Refuse(d)
    requires forall signed :: Sendable(signed, f)
    ensures Retry.Told(OPEN, r, 1, d, 0) && Retry.OpenedWith(OPEN, r, 1, Opening(Other())) &&
            Retry.Peer(OPEN, r, 1) == None
  {
    var r0, w0, n := NewcomerChallenged();
    var h := Contested(Other(), Owner().key, n);
    assert OnProof(f, Owner().key, n) == Refuse(d);
    assert h.sent + [Deny(d, 0)] == [Challenge(n), Deny(d, 0)];
    Extend(OPEN, r0, w0, Step(1, Recv(f)), With(w0, 1, h.(pc := Ended, sent := [Challenge(n), Deny(d, 0)])));
    r := Then(r0, Step(1, Recv(f)));
    TwoFrames(n, d);
  }

  function Missing(): CertError { CertError(false, None, NOT_PROVISIONED) }

  function Unserved(): Handler { Admitted(Owner()).(pc := Ended, sent := [Retry.NOT_YET]) }

  lemma OwnerUnprovisioned() returns (r: Run, w: World)
    ensures Reached(OPEN, r, w) && w.sh.now == 0 && w.sh.allow.None? && w.sh.store == map[]
    ensures Retry.OpenedWith(OPEN, r, 0, Opening(Owner())) && w.hs == map[0 := Unserved()]
  {
    CallersDiffer();
    var w0 := Boot(OPEN);
    assert Reached(OPEN, Start, w0);
    var r1, o := Enters(OPEN, Start, w0, 0, Owner());
    var w1 := With(Signed(w0, Owner().key, Claimed(Owner())), 0, Admitted(Owner()));
    var r2 := ReachesEnsure(OPEN, r1, w1, 0, Owner());
    var w2 := With(w1, 0, Admitted(Owner()).(pc := Ensure));
    r, w := NotYet(r2, w2);
    S.ExtendsTrans(r2, r1, o);
    Retry.OpenedStays(OPEN, r, o, 0, Opening(Owner()));
  }

  lemma NotYet(r: Run, w: World) returns (r': Run, w': World)
    requires Reached(OPEN, r, w) && 0 in w.hs && w.hs[0] == Admitted(Owner()).(pc := Ensure)
    ensures Reached(OPEN, r', w') && w' == With(w, 0, Unserved()) && r' == Then(r, Step(0, CertFailed(Missing())))
  {
    Retry.UnprovisionedMoves(OPEN, w.sh, w.hs[0], Missing());
    assert w.hs[0].sent + [Retry.NOT_YET] == [Retry.NOT_YET];
    w' := With(w, 0, Unserved());
    r' := Then(r, Step(0, CertFailed(Missing())));
    Extend(OPEN, r, w, Step(0, CertFailed(Missing())), w');
  }

  /** "cert not provisioned", and then the very same frame is accepted: the certificate came meanwhile. */
  lemma RetryAfterNotProvisioned() returns (p: Run, r: Run)
    ensures Retries(p, r, 0, 1, Opening(Owner()), CertNotProvisioned)
  {
    CallersDiffer();
    var w0;
    p, w0 := OwnerUnprovisioned();
    r := Retry.SucceedsOn(OPEN, p, w0, 1, Owner());
    assert [Retry.NOT_YET][..0] == [];
    assert H.ClientAfter([Retry.NOT_YET]) == H.Denied(CertNotProvisioned, 0);
  }

  // ---------------------------------------------------------------- revocation

  function Guarded(): Config { Open(Some({Owner().key}), 0) }

  /** A handler that is past the allowlist and not yet in the registry when the list is reloaded without
      its key and the revocation walks the registry joins afterwards and stays open. */
  lemma DelistedJoins() returns (q: Run, r: Run)
    ensures Valid(Guarded(), r) && S.Extends(r, Delisting.Reloaded(q, {}))
    ensures var w := Exec(Guarded(), Delisting.Reloaded(q, {}));
            && 0 in w.hs && S.PastAuth(w.hs[0].pc) && !w.hs[0].pc.AllowGate? && w.sh.live == map[]
    ensures var w := Exec(Guarded(), r);
            && TunnelLabel(NAME) in w.sh.live && w.sh.live[TunnelLabel(NAME)] == Session(Owner().key, 0, false)
            && !Allows(w.sh.allow, Owner().key)
  {
    CallersDiffer();
    var cfg := Guarded();
    var w0 := Boot(cfg);
    assert Reached(cfg, Start, w0);
    var o;
    q, o := Enters(cfg, Start, w0, 0, Owner());
    var w1 := With(Signed(w0, Owner().key, Claimed(Owner())), 0, Admitted(Owner()));
    var r3, w3 := ReloadsAndRevokes(cfg, q, w1);
    r := JoinsAnyway(cfg, r3, w3);
  }

  lemma ReloadsAndRevokes(cfg: Config, r: Run, w: World) returns (r': Run, w': World)
    requires Reached(cfg, r, w) && w.sh.allow.Some? && w.sh.live == map[]
    ensures r' == Delisting.Reloaded(r, {}) && w' == w.(sh := w.sh.(allow := Some({}))) && Reached(cfg, r', w')
  {
    w' := w.(sh := w.sh.(allow := Some({})));
    Extend(cfg, r, w, Reload({}), w');
    assert Revoked(map[], Some({})) == map[];
    Extend(cfg, Then(r, Reload({})), w', Revoke, w');
    r' := Delisting.Reloaded(r, {});
  }

  lemma JoinsAnyway(cfg: Config, r: Run, w: World) returns (r': Run)
    requires Reached(cfg, r, w) && 0 in w.hs && w.hs[0] == Admitted(Owner()) && NAME !in w.sh.store &&
             w.sh.live == map[]
    ensures Valid(cfg, r') && Exec(cfg, r').sh.live == map[TunnelLabel(NAME) := Session(Owner().key, 0, false)]
    ensures Exec(cfg, r').sh.allow == w.sh.allow && S.Extends(r', r)
  {
    var r1 := ReachesEnsure(cfg, r, w, 0, Owner());
    var w1 := With(w, 0, Admitted(Owner()).(pc := Ensure));
    var r2 := Claims(cfg, r1, w1, 0, Owner());
    var w2 := With(Owned(w1, NAME, Owner().key), 0, Winner(Owner()));
    r' := Serves(cfg, r2, w2, 0, Owner());
    S.ExtendsTrans(r', r2, r1);
    S.ExtendsTrans(r', r1, r);
  }
}
