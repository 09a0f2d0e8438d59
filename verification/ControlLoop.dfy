/** The loop a session runs after RegisterOK (runControlLoop and handleDeregister), on a
    finite script of what it reads: frames, the clock at each, and whether the delete works. */
module ControlLoop {
  import opened Bytes
  import opened Signing
  import opened Naming
  import opened Protocol
  import opened IdentityStore
  import S = ProtocolSafety

  /** One read of the control stream. */
  datatype Arrival = Arrival(frame: Inbound, now: int, deleteFails: bool)

  /** A Deregister of the session's own name, in time, signed by its key, and deleted. */
  predicate Releases(a: Arrival, unique: Str, key: Key) {
    a.frame != ReadError && DeregisterFault(a.now, unique, key, a.frame).None? && !a.deleteFails
  }

  /** Why the loop answers with a Deny. */
  function DenyFor(a: Arrival, unique: Str, key: Key): Reason {
    match DeregisterFault(a.now, unique, key, a.frame)
    case Some(reason) => reason
    case None => StoreError
  }

  predicate Stops(a: Arrival, unique: Str, key: Key) { a.frame == ReadError || Releases(a, unique, key) }

  /** The first read that ends the loop, or the length of the script. */
  function StopAt(script: seq<Arrival>, unique: Str, key: Key): (n: nat)
    ensures n <= |script|
    ensures forall i :: 0 <= i < n ==> !Stops(script[i], unique, key)
    ensures n < |script| ==> Stops(script[n], unique, key)
  {
    if script == [] || Stops(script[0], unique, key) then 0 else
      var n := StopAt(script[1..], unique, key);
      assert forall i :: 1 <= i < n + 1 ==> script[i] == script[1..][i - 1];
      n + 1
  }

  lemma StopIs(script: seq<Arrival>, unique: Str, key: Key, n: nat)
    requires n <= |script| && (forall i :: 0 <= i < n ==> !Stops(script[i], unique, key))
    requires n < |script| ==> Stops(script[n], unique, key)
    ensures StopAt(script, unique, key) == n
  {
    var m := StopAt(script, unique, key);
    assert m < |script| ==> Stops(script[m], unique, key);
  }

  /** The first `n` frames were denied, each for its own reason. */
  ghost predicate Denied(script: seq<Arrival>, replies: seq<Outbound>, unique: Str, key: Key, n: nat)
    requires n <= |script|
  {
    n <= |replies| && forall i :: 0 <= i < n ==> replies[i] == Deny(DenyFor(script[i], unique, key), 0)
  }

  /** The session's own Deregister is reached and its delete works. */
  predicate Deregisters(script: seq<Arrival>, unique: Str, key: Key) {
    var n := StopAt(script, unique, key);
    n < |script| && Releases(script[n], unique, key)
  }

  /** One reply per frame; true iff the session's own valid Deregister is reached and its
      delete works; until then no row changes, and then only the session's own. */
  method RunControlLoop(script: seq<Arrival>, store: Store, unique: Str, key: Key)
    returns (deregistered: bool, replies: seq<Outbound>)
    modifies store
    ensures deregistered == Deregisters(script, unique, key)
    ensures RepliesTo(script, replies, unique, key)
    ensures store.Owners() == if deregistered then old(store.Owners()) - {unique} else old(store.Owners())
  {
    replies := [];
    var i := 0;
    while i < |script|
      invariant 0 <= i <= |script| && |replies| == i && Denied(script, replies, unique, key, i)
      invariant forall j :: 0 <= j < i ==> !Stops(script[j], unique, key)
      invariant store.Owners() == old(store.Owners())
    {
      if script[i].frame == ReadError {
        StopIs(script, unique, key, i);
        return false, replies;
      }
      var ok := HandleFrame(script[i], store, unique, key);
      if ok {
        StopIs(script, unique, key, i);
        return true, replies + [DeregisterOK];
      }
      replies := replies + [Deny(DenyFor(script[i], unique, key), 0)];
      i := i + 1;
    }
    StopIs(script, unique, key, i);
    return false, replies;
  }

  /** handleDeregister, and the Deny of any other frame. */
  method HandleFrame(a: Arrival, store: Store, unique: Str, key: Key) returns (ok: bool)
    requires a.frame != ReadError
    modifies store
    ensures ok == Releases(a, unique, key)
    ensures store.Owners() == if ok then old(store.Owners()) - {unique} else old(store.Owners())
  {
    if DeregisterFault(a.now, unique, key, a.frame).Some? { return false; }
    var st := store.Delete(unique, a.deleteFails);
    return st == Ok;
  }

  /** A release was signed by the session's key for exactly this name and a time within the
      clock skew: no other signature of that key, or of another key, releases the name. */
  lemma ReleaseIsSigned(signed: set<(Key, Statement)>, a: Arrival, unique: Str, key: Key)
    requires Sendable(signed, a.frame) && Releases(a, unique, key)
    ensures a.frame.DeregisterMsg? && (key, Deregister(unique, a.frame.ts)) in signed
    ensures -300_000_000_000 <= a.now - a.frame.ts * 1_000_000_000 <= 300_000_000_000
  {
    VerifiedMeansSigned(signed, a.frame.sig.value, key, Deregister(unique, a.frame.ts));
  }

  /** What each reason says of a frame that a session of `unique` with `key` reads at `now`. */
  predicate Blames(d: Reason, now: int, unique: Str, key: Key, f: Inbound) {
    match d
    case UnexpectedFrame(got) => KindOf(f) == got && got != KDeregister
    case BadDeregister => f == Garbled(KDeregister)
    case UniqueMismatch => f.DeregisterMsg? && f.unique != unique
    case TimestampOutOfRange => f.DeregisterMsg? && !(-300_000_000_000 <= now - f.ts * 1_000_000_000 <= 300_000_000_000)
    case BadSig => f.DeregisterMsg? && f.sig.None?
    case SignatureInvalid =>
      f.DeregisterMsg? && f.sig.Some? && !Verify(key, Payload(Deregister(f.unique, f.ts)), f.sig.value)
    case _ => false
  }

  /** A frame is denied for a reason that is true of it, and passes only if none is. */
  lemma DeniedRightly(now: int, unique: Str, key: Key, f: Inbound)
    requires f != ReadError
    ensures match DeregisterFault(now, unique, key, f)
            case Some(d) => Blames(d, now, unique, key, f)
            case None => forall d :: !Blames(d, now, unique, key, f)
  {}

  // ---------------------------------------------------------------- the loop is a run of the machine

  /** The clock does not go back along the script, and every signature in it was made. */
  ghost predicate CanArrive(sh: Shared, script: seq<Arrival>)
    decreases |script|
  {
    script == [] ||
    (sh.now <= script[0].now && Sendable(sh.signed, script[0].frame) &&
      CanArrive(sh.(now := script[0].now), script[1..]))
  }

  /** Extending a run by one action. */
  lemma Step1(cfg: Config, r: Run, w: World, a: Action) returns (r': Run)
    requires Valid(cfg, r) && w == Exec(cfg, r) && Enabled(w, a)
    ensures r' == Then(r, a) && Valid(cfg, r') && Exec(cfg, r') == Next(cfg, w, a) && S.Extends(r', r)
  {
    r' := Then(r, a);
  }

  /** A session after `n` replies. */
  ghost predicate Session(w: World, id: nat, unique: Str, key: Key, pc: Pc, sent: seq<Outbound>) {
    id in w.hs && w.hs[id].pc == pc && w.hs[id].unique == unique && KeyOf(w.hs[id]) == key && w.hs[id].sent == sent
  }

  lemma FrameStep(cfg: Config, w: World, id: nat, f: Inbound, unique: Str, key: Key, sent: seq<Outbound>)
    requires Session(w, id, unique, key, Serving, sent)
    ensures var w' := Next(cfg, w, Step(id, Recv(f)));
            && w'.sh == w.sh
            && (f == ReadError ==> Session(w', id, unique, key, Draining, sent))
            && (f != ReadError ==> match DeregisterFault(w.sh.now, unique, key, f)
                                   case Some(reason) => Session(w', id, unique, key, Serving, sent + [Deny(reason, 0)])
                                   case None => Session(w', id, unique, key, Deleting(f.ts, w.sh.now), sent))
  {}

  lemma DeleteStep(cfg: Config, w: World, id: nat, fails: bool, unique: Str, key: Key, ts: int64, at: int,
                   sent: seq<Outbound>)
    requires Session(w, id, unique, key, Deleting(ts, at), sent)
    ensures var w' := Next(cfg, w, Step(id, Outcome(fails)));
            && w'.sh == w.sh.(store := if fails then w.sh.store else w.sh.store - {unique})
            && if fails then Session(w', id, unique, key, Serving, sent + [Deny(StoreError, 0)])
               else Session(w', id, unique, key, Leaving, sent + [DeregisterOK])
  {}

  /** The clock and the frame. */
  lemma FrameRuns(cfg: Config, r: Run, w: World, id: nat, a: Arrival, unique: Str, key: Key, sent: seq<Outbound>)
    returns (r': Run)
    requires Valid(cfg, r) && w == Exec(cfg, r) && Session(w, id, unique, key, Serving, sent)
    requires w.sh.now <= a.now && Sendable(w.sh.signed, a.frame)
    ensures Valid(cfg, r') && S.Extends(r', r) && Exec(cfg, r').sh == w.sh.(now := a.now)
    ensures a.frame == ReadError ==> Session(Exec(cfg, r'), id, unique, key, Draining, sent)
    ensures a.frame != ReadError ==>
              match DeregisterFault(a.now, unique, key, a.frame)
              case Some(reason) => Session(Exec(cfg, r'), id, unique, key, Serving, sent + [Deny(reason, 0)])
              case None => Session(Exec(cfg, r'), id, unique, key, Deleting(a.frame.ts, a.now), sent)
  {
    var r1 := Step1(cfg, r, w, Tick(a.now));
    var w1 := Exec(cfg, r1);
    FrameStep(cfg, w1, id, a.frame, unique, key, sent);
    r' := Step1(cfg, r1, w1, Step(id, Recv(a.frame)));
  }

  /** What one arrival does to the shared state and the session. */
  ghost predicate Arrived(sh: Shared, w': World, id: nat, a: Arrival, unique: Str, key: Key, sent: seq<Outbound>) {
    if a.frame == ReadError then w'.sh == sh && Session(w', id, unique, key, Draining, sent)
    else if Releases(a, unique, key)
    then w'.sh == sh.(store := sh.store - {unique}) && Session(w', id, unique, key, Leaving, sent + [DeregisterOK])
    else w'.sh == sh && Session(w', id, unique, key, Serving, sent + [Deny(DenyFor(a, unique, key), 0)])
  }

  /** One arrival, in the machine: the clock, the frame, and the delete if it comes to that. */
  lemma ArrivalRuns(cfg: Config, r: Run, w: World, id: nat, a: Arrival, unique: Str, key: Key, sent: seq<Outbound>)
    returns (r': Run)
    requires Valid(cfg, r) && w == Exec(cfg, r) && Session(w, id, unique, key, Serving, sent)
    requires w.sh.now <= a.now && Sendable(w.sh.signed, a.frame)
    ensures Valid(cfg, r') && S.Extends(r', r) && Arrived(w.sh.(now := a.now), Exec(cfg, r'), id, a, unique, key, sent)
  {
    r' := FrameRuns(cfg, r, w, id, a, unique, key, sent);
    if a.frame != ReadError && DeregisterFault(a.now, unique, key, a.frame).None? {
      var r1 := r';
      r' := DeleteRuns(cfg, r1, Exec(cfg, r1), id, a.deleteFails, unique, key, a.frame.ts, a.now, sent);
      S.ExtendsTrans(r', r1, r);
    }
  }

  lemma DeleteRuns(cfg: Config, r: Run, w: World, id: nat, fails: bool, unique: Str, key: Key, ts: int64, at: int,
                   sent: seq<Outbound>) returns (r': Run)
    requires Valid(cfg, r) && w == Exec(cfg, r) && Session(w, id, unique, key, Deleting(ts, at), sent)
    ensures Valid(cfg, r') && S.Extends(r', r)
    ensures Exec(cfg, r').sh == w.sh.(store := if fails then w.sh.store else w.sh.store - {unique})
    ensures if fails then Session(Exec(cfg, r'), id, unique, key, Serving, sent + [Deny(StoreError, 0)])
            else Session(Exec(cfg, r'), id, unique, key, Leaving, sent + [DeregisterOK])
  {
    DeleteStep(cfg, w, id, fails, unique, key, ts, at, sent);
    r' := Step1(cfg, r, w, Step(id, Outcome(fails)));
  }

  /** The replies of the loop to a script. */
  ghost predicate RepliesTo(script: seq<Arrival>, replies: seq<Outbound>, unique: Str, key: Key) {
    var n, deregistered := StopAt(script, unique, key), Deregisters(script, unique, key);
    && |replies| == n + (if deregistered then 1 else 0) && Denied(script, replies, unique, key, n)
    && (deregistered ==> replies[n] == DeregisterOK)
  }

  /** Where the loop leaves the session. */
  function EndPc(script: seq<Arrival>, unique: Str, key: Key): Pc {
    if StopAt(script, unique, key) == |script| then Serving
    else if Deregisters(script, unique, key) then Leaving
    else Draining
  }

  lemma StopFirst(script: seq<Arrival>, unique: Str, key: Key)
    requires script != [] && Stops(script[0], unique, key)
    ensures Deregisters(script, unique, key) <==> script[0].frame != ReadError
    ensures EndPc(script, unique, key) == if script[0].frame == ReadError then Draining else Leaving
    ensures RepliesTo(script, if script[0].frame == ReadError then [] else [DeregisterOK], unique, key)
  {
    StopIs(script, unique, key, 0);
  }

  lemma StopLater(script: seq<Arrival>, more: seq<Outbound>, unique: Str, key: Key)
    requires script != [] && !Stops(script[0], unique, key) && RepliesTo(script[1..], more, unique, key)
    ensures Deregisters(script, unique, key) <==> Deregisters(script[1..], unique, key)
    ensures EndPc(script, unique, key) == EndPc(script[1..], unique, key)
    ensures RepliesTo(script, [Deny(DenyFor(script[0], unique, key), 0)] + more, unique, key)
  {
    var n := StopAt(script[1..], unique, key);
    assert StopAt(script, unique, key) == n + 1;
    assert n < |script| - 1 ==> script[1..][n] == script[n + 1];
    var replies := [Deny(DenyFor(script[0], unique, key), 0)] + more;
    forall i | 0 <= i < n + 1 ensures replies[i] == Deny(DenyFor(script[i], unique, key), 0) {
      if i > 0 { assert script[1..][i - 1] == script[i] && replies[i] == more[i - 1]; }
    }
  }

  /** The state in which the machine has done what the loop does on the script. */
  ghost predicate LoopDone(store: map<Str, Key>, w': World, id: nat, script: seq<Arrival>, unique: Str, key: Key,
                           sent: seq<Outbound>, replies: seq<Outbound>) {
    && RepliesTo(script, replies, unique, key)
    && Session(w', id, unique, key, EndPc(script, unique, key), sent + replies)
    && w'.sh.store == if Deregisters(script, unique, key) then store - {unique} else store
  }

  lemma DoneAtOnce(sh: Shared, w': World, id: nat, script: seq<Arrival>, unique: Str, key: Key, sent: seq<Outbound>)
    requires script != [] && Stops(script[0], unique, key) && Arrived(sh, w', id, script[0], unique, key, sent)
    ensures LoopDone(sh.store, w', id, script, unique, key, sent,
                     if script[0].frame == ReadError then [] else [DeregisterOK])
  {
    StopFirst(script, unique, key);
    assert sent + [] == sent;
  }

  lemma DoneLater(store: map<Str, Key>, w': World, id: nat, script: seq<Arrival>, unique: Str, key: Key,
                  sent: seq<Outbound>, more: seq<Outbound>)
    requires script != [] && !Stops(script[0], unique, key)
    requires LoopDone(store, w', id, script[1..], unique, key, sent + [Deny(DenyFor(script[0], unique, key), 0)], more)
    ensures LoopDone(store, w', id, script, unique, key, sent, [Deny(DenyFor(script[0], unique, key), 0)] + more)
  {
    StopLater(script, more, unique, key);
    var deny := Deny(DenyFor(script[0], unique, key), 0);
    assert sent + [deny] + more == sent + ([deny] + more);
  }

  lemma DoneNothing(w: World, id: nat, unique: Str, key: Key, sent: seq<Outbound>)
    requires Session(w, id, unique, key, Serving, sent)
    ensures LoopDone(w.sh.store, w, id, [], unique, key, sent, [])
  {
    assert sent + [] == sent;
  }

  lemma GoesOn(sh: Shared, w': World, id: nat, a: Arrival, unique: Str, key: Key, sent: seq<Outbound>)
    requires Arrived(sh, w', id, a, unique, key, sent) && !Stops(a, unique, key)
    ensures w'.sh == sh && Session(w', id, unique, key, Serving, sent + [Deny(DenyFor(a, unique, key), 0)])
  {}

  /** For every script there is a run of the protocol machine in which the session writes the replies
      of the loop, the table ends as the loop leaves it, and the session ends where the loop does. */
  lemma {:induction false} LoopIsRun(cfg: Config, r: Run, w: World, id: nat, script: seq<Arrival>, unique: Str,
                                     key: Key, sent: seq<Outbound>)
    returns (r': Run, replies: seq<Outbound>)
    requires Valid(cfg, r) && w == Exec(cfg, r) && Session(w, id, unique, key, Serving, sent) && CanArrive(w.sh, script)
    ensures Valid(cfg, r') && S.Extends(r', r) &&
            LoopDone(w.sh.store, Exec(cfg, r'), id, script, unique, key, sent, replies)
    decreases |script|
  {
    if script == [] {
      r', replies := r, [];
      DoneNothing(w, id, unique, key, sent);
    } else {
      var r1 := ArrivalRuns(cfg, r, w, id, script[0], unique, key, sent);
      var w1, sh := Exec(cfg, r1), w.sh.(now := script[0].now);
      if Stops(script[0], unique, key) {
        r', replies := r1, if script[0].frame == ReadError then [] else [DeregisterOK];
        DoneAtOnce(sh, w1, id, script, unique, key, sent);
      } else {
        GoesOn(sh, w1, id, script[0], unique, key, sent);
        var deny := Deny(DenyFor(script[0], unique, key), 0);
        var more;
        r', more := LoopIsRun(cfg, r1, w1, id, script[1..], unique, key, sent + [deny]);
        replies := [deny] + more;
        DoneLater(sh.store, Exec(cfg, r'), id, script, unique, key, sent, more);
        S.ExtendsTrans(r', r1, r);
      }
    }
  }
}
