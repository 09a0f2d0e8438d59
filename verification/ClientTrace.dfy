/** The language of the supervisor's events: exactly the traces that `ClientRun.Run` can emit. */
module ClientTrace {
  import opened Naming
  import opened ClientRun
  import Protocol
  import Denials
  import L = Limiter

  /** Where a reader of the events stands. */
  datatype Phase =
    | Silent
    | Ready(attempt: int)      // about to connect
    | Dialing(attempt: int)
    | Failing(attempt: int)
    | Online
    | Dropped
    | Over
    | Wrong

  /** The waits a failed attempt may be followed by: the backoff, the floor, or a server's hint in
      whole seconds. */
  predicate PossibleWait(o: Options, n: int, ms: int) {
    var d := Backoff(n, Min(o), Max(o));
    ms == d / MILLISECOND || ms == (if d < Floor(o) then Floor(o) else d) / MILLISECOND || (ms > 0 && ms % 1000 == 0)
  }

  function Advance(o: Options, p: Phase, e: Event): Phase {
    match p
    case Silent => if e == Starting then Ready(1) else Wrong
    case Ready(n) => if e == Connecting(n) then Dialing(n) else Wrong
    case Dialing(n) =>
      if e == RegisterOk then Online else if e == Error(true) then Failing(n) else if e == Fatal then Over else Wrong
    case Failing(n) =>
      if OutOfAttempts(o, n) then (if e == Fatal then Over else Wrong)
      else if e.Reconnecting? && e.attempt == n + 1 && PossibleWait(o, n, e.afterMs) then Ready(n + 1)
      else Wrong
    case Online => if e == Disconnected then Dropped else if e == DeregisterOk || e == Error(false) then Over else Wrong
    case Dropped => if e == Reconnecting(Backoff(1, Min(o), Max(o)) / MILLISECOND, 2) then Ready(2) else Wrong
    case Over => Wrong
    case Wrong => Wrong
  }

  function Walk(o: Options, p: Phase, t: seq<Event>): Phase {
    if t == [] then p else Advance(o, Walk(o, p, t[..|t| - 1]), t[|t| - 1])
  }

  predicate Settled(p: Phase) { p.Ready? || p.Dialing? || p.Over? }

  /** A trace the loop can leave behind between two turns or at its end: it never stops right after
      register_ok, error or disconnected. */
  predicate Accepts(o: Options, t: seq<Event>) { Settled(Walk(o, Silent, t)) }

  // ---------------------------------------------------------------- walking

  lemma {:induction false} WalkOn(o: Options, p: Phase, a: seq<Event>, b: seq<Event>)
    ensures Walk(o, p, a + b) == Walk(o, Walk(o, p, a), b)
    decreases |b|
  {
    if b == [] {
      assert a + b == a;
    } else {
      WalkOn(o, p, a, b[..|b| - 1]);
      assert (a + b)[..|a + b| - 1] == a + b[..|b| - 1];
    }
  }

  lemma WalkOne(o: Options, p: Phase, e: Event)
    ensures Walk(o, p, [e]) == Advance(o, p, e)
  {
    assert [e][..0] == [];
  }

  lemma WalkTwo(o: Options, p: Phase, e: Event, f: Event)
    ensures Walk(o, p, [e, f]) == Advance(o, Advance(o, p, e), f)
  {
    WalkOne(o, p, e);
    assert [e, f][..1] == [e];
  }

  lemma WalkThree(o: Options, p: Phase, e: Event, f: Event, g: Event)
    ensures Walk(o, p, [e, f, g]) == Advance(o, Advance(o, Advance(o, p, e), f), g)
  {
    WalkTwo(o, p, e, f);
    assert [e, f, g][..2] == [e, f];
  }

  lemma WalkFour(o: Options, p: Phase, e: Event, f: Event, g: Event, h: Event)
    ensures Walk(o, p, [e, f, g, h]) == Advance(o, Advance(o, Advance(o, Advance(o, p, e), f), g), h)
  {
    WalkThree(o, p, e, f, g);
    assert [e, f, g, h][..3] == [e, f, g];
  }

  lemma {:induction false} WrongStays(o: Options, t: seq<Event>)
    ensures Walk(o, Wrong, t) == Wrong
  {
    if t != [] { WrongStays(o, t[..|t| - 1]); }
  }

  // ---------------------------------------------------------------- every run is accepted

  lemma WaitIsPossible(o: Options, n: int, f: Round)
    requires f.Failed?
    ensures PossibleWait(o, n, DelayAfter(o, n, f) / MILLISECOND)
  {
    if f.deny.Some? && f.deny.value.retryAfter > 0 {
      var h := f.deny.value.retryAfter;
      assert h * L.SECOND / MILLISECOND == h * 1000;
    }
  }

  /** Where one round leaves the reader. */
  function Landing(o: Options, n: int, f: Round): Phase {
    if f.Failed? && f.cancelled then Dialing(n)
    else if f.Shutdown? || EndOf(o, n, f).GaveUp? then Over
    else Ready(NextAttempt(n, f))
  }

  lemma FailureLands(o: Options, n: int, f: Round)
    requires f.Failed?
    ensures Walk(o, Ready(n), Emits(o, n, f)) == Landing(o, n, f)
  {
    var e := Emits(o, n, f);
    WaitIsPossible(o, n, f);
    if f.cancelled { WalkOne(o, Ready(n), Connecting(n)); }
    else if Permanent(f) { WalkTwo(o, Ready(n), Connecting(n), Fatal); }
    else if OutOfAttempts(o, n) {
      assert e == [Connecting(n), Error(true), Fatal];
      WalkThree(o, Ready(n), Connecting(n), Error(true), Fatal);
    }
    else {
      var again := Reconnecting(DelayAfter(o, n, f) / MILLISECOND, n + 1);
      assert e == [Connecting(n), Error(true), again];
      WalkThree(o, Ready(n), Connecting(n), Error(true), again);
    }
  }

  lemma RoundLands(o: Options, n: int, f: Round)
    ensures Walk(o, Ready(n), Emits(o, n, f)) == Landing(o, n, f)
  {
    if f.Lost? {
      var again := Reconnecting(Backoff(1, Min(o), Max(o)) / MILLISECOND, 2);
      WalkFour(o, Ready(n), Connecting(n), RegisterOk, Disconnected, again);
      assert Emits(o, n, f) == [Connecting(n), RegisterOk, Disconnected, again];
    } else if f.Shutdown? {
      var bye := if f.released then DeregisterOk else Error(false);
      assert Emits(o, n, f) == [Connecting(n), RegisterOk, bye];
      WalkThree(o, Ready(n), Connecting(n), RegisterOk, bye);
    } else {
      FailureLands(o, n, f);
    }
  }

  lemma {:induction false} TraceSettles(o: Options, n: int, script: seq<Round>)
    ensures Settled(Walk(o, Ready(n), Trace(o, n, script)))
    decreases |script|
  {
    if script != [] {
      var f := script[0];
      RoundLands(o, n, f);
      if EndOf(o, n, f).Running? {
        TraceSettles(o, NextAttempt(n, f), script[1..]);
        WalkOn(o, Ready(n), Emits(o, n, f), Trace(o, NextAttempt(n, f), script[1..]));
      } else {
        assert Trace(o, n, script) == Emits(o, n, f);
      }
    }
  }

  // ---------------------------------------------------------------- every accepted trace is a run

  lemma Head(o: Options, p: Phase, t: seq<Event>)
    requires t != []
    ensures Walk(o, p, t) == Walk(o, Advance(o, p, t[0]), t[1..])
  {
    assert t == [t[0]] + t[1..];
    WalkOn(o, p, [t[0]], t[1..]);
    WalkOne(o, p, t[0]);
  }

  /** A settled walk takes no wrong step. */
  lemma NextStep(o: Options, p: Phase, t: seq<Event>)
    requires t != [] && Settled(Walk(o, p, t))
    ensures Advance(o, p, t[0]) != Wrong && Settled(Walk(o, Advance(o, p, t[0]), t[1..]))
  {
    Head(o, p, t);
    WrongStays(o, t[1..]);
  }

  lemma EndsHere(o: Options, t: seq<Event>)
    requires Settled(Walk(o, Over, t))
    ensures t == []
  {
    if t != [] {
      Head(o, Over, t);
      WrongStays(o, t[1..]);
    }
  }

  /** A failed round with the given wait. */
  lemma FailureWaiting(o: Options, n: int, ms: int) returns (f: Round)
    requires PossibleWait(o, n, ms) && !OutOfAttempts(o, n)
    ensures f.Failed? && Emits(o, n, f) == [Connecting(n), Error(true), Reconnecting(ms, n + 1)] &&
            EndOf(o, n, f).Running?
  {
    var d := Backoff(n, Min(o), Max(o));
    var limited := "rate_limited:ip";
    assert Denials.Text(Protocol.RateLimitedIp) == limited;
    Denials.ClientReadsText(Protocol.RateLimitedIp);
    if ms == d / MILLISECOND {
      f := Failed(false, None, false, true);
    } else if ms == (if d < Floor(o) then Floor(o) else d) / MILLISECOND {
      f := Failed(false, Some(Denial(limited, 0)), false, true);
    } else {
      f := Failed(false, Some(Denial(limited, ms / 1000)), false, true);
      assert ms / 1000 * L.SECOND / MILLISECOND == ms;
    }
  }

  /** `f` accounts for the front of `t`, and `rest` is what later rounds have to account for. */
  ghost predicate Splits(o: Options, n: int, t: seq<Event>, f: Round, rest: seq<Event>) {
    && t == Emits(o, n, f) + rest
    && if EndOf(o, n, f).Running? then Settled(Walk(o, Ready(NextAttempt(n, f)), rest)) else rest == []
  }

  lemma SplitFailing(o: Options, n: int, t: seq<Event>) returns (f: Round, rest: seq<Event>)
    requires |t| >= 2 && t[0] == Connecting(n) && t[1] == Error(true) && Settled(Walk(o, Failing(n), t[2..]))
    ensures Splits(o, n, t, f, rest)
  {
    NextStep(o, Failing(n), t[2..]);
    rest := t[3..];
    assert t[2..][1..] == rest && t == [t[0], t[1], t[2]] + rest;
    if OutOfAttempts(o, n) {
      EndsHere(o, rest);
      f := Failed(false, None, false, false);
      assert Emits(o, n, f) == [Connecting(n), Error(true), Fatal];
    } else {
      f := FailureWaiting(o, n, t[2].afterMs);
      assert t[2] == Reconnecting(t[2].afterMs, n + 1);
    }
  }

  lemma SplitOnline(o: Options, n: int, t: seq<Event>) returns (f: Round, rest: seq<Event>)
    requires |t| >= 2 && t[0] == Connecting(n) && t[1] == RegisterOk && Settled(Walk(o, Online, t[2..]))
    ensures Splits(o, n, t, f, rest)
  {
    NextStep(o, Online, t[2..]);
    assert t[2..][1..] == t[3..];
    if t[2] == Disconnected {
      NextStep(o, Dropped, t[3..]);
      f, rest := Lost(true), t[4..];
      assert t[3..][1..] == rest && t == [t[0], t[1], t[2], t[3]] + rest;
      assert Emits(o, n, f) == [t[0], t[1], t[2], t[3]];
    } else {
      EndsHere(o, t[3..]);
      f, rest := Shutdown(t[2] == DeregisterOk), [];
      assert Emits(o, n, f) == [t[0], t[1], t[2]];
      assert t == [t[0], t[1], t[2]] + t[3..];
    }
  }

  lemma SplitRound(o: Options, n: int, t: seq<Event>) returns (f: Round, rest: seq<Event>)
    requires t != [] && Settled(Walk(o, Ready(n), t))
    ensures Splits(o, n, t, f, rest)
  {
    NextStep(o, Ready(n), t);
    if |t| == 1 {
      f, rest := Failed(true, None, false, false), [];
      assert t == [Connecting(n)] == Emits(o, n, f);
    } else {
      NextStep(o, Dialing(n), t[1..]);
      assert t[1..][1..] == t[2..];
      if t[1] == RegisterOk {
        f, rest := SplitOnline(o, n, t);
      } else if t[1] == Fatal {
        EndsHere(o, t[2..]);
        f, rest := Failed(false, None, true, false), [];
        assert t == [t[0], t[1]] + t[2..];
      } else {
        f, rest := SplitFailing(o, n, t);
      }
    }
  }

  lemma {:induction false} ScriptFor(o: Options, n: int, t: seq<Event>) returns (script: seq<Round>)
    requires Settled(Walk(o, Ready(n), t))
    ensures Trace(o, n, script) == t
    decreases |t|
  {
    if t == [] { return []; }
    var f, rest := SplitRound(o, n, t);
    var more := [];
    if EndOf(o, n, f).Running? { more := ScriptFor(o, NextAttempt(n, f), rest); }
    script := [f] + more;
    assert script[1..] == more;
  }

  ghost predicate Emitted(o: Options, t: seq<Event>) {
    exists script :: [Starting] + Trace(o, 1, script) == t
  }

  /** The loop emits a trace on some script exactly when the language holds it. */
  lemma ExactLanguage(o: Options, t: seq<Event>)
    ensures Emitted(o, t) <==> Accepts(o, t)
  {
    if Emitted(o, t) {
      var script :| [Starting] + Trace(o, 1, script) == t;
      TraceSettles(o, 1, script);
      WalkOn(o, Silent, [Starting], Trace(o, 1, script));
      WalkOne(o, Silent, Starting);
    }
    if Accepts(o, t) {
      NextStep(o, Silent, t);
      var script := ScriptFor(o, 1, t[1..]);
      assert [Starting] + Trace(o, 1, script) == t;
    }
  }

  // ---------------------------------------------------------------- what the language says, event by event

  /** The last event a reader saw, by phase. */
  ghost predicate Tells(t: seq<Event>, p: Phase) {
    match p
    case Silent => t == []
    case Ready(n) => (t == [Starting] && n == 1) || (|t| > 1 && t[|t| - 1].Reconnecting? && t[|t| - 1].attempt == n)
    case Dialing(n) => |t| > 1 && t[|t| - 1] == Connecting(n)
    case Failing(n) => |t| > 1 && t[|t| - 1] == Error(true) && t[|t| - 2] == Connecting(n)
    case Online => |t| > 1 && t[|t| - 1] == RegisterOk
    case Dropped => |t| > 1 && t[|t| - 1] == Disconnected
    case _ => |t| > 0
  }

  lemma {:induction false} PhaseTells(o: Options, t: seq<Event>)
    ensures Tells(t, Walk(o, Silent, t))
  {
    if t != [] {
      PhaseTells(o, t[..|t| - 1]);
    }
  }

  lemma PrefixRight(o: Options, t: seq<Event>, i: nat)
    requires i <= |t| && Walk(o, Silent, t) != Wrong
    ensures Walk(o, Silent, t[..i]) != Wrong
  {
    assert t == t[..i] + t[i..];
    WalkOn(o, Silent, t[..i], t[i..]);
    WrongStays(o, t[i..]);
  }

  /** The phase before an event of an accepted trace, and that the event was right there. */
  lemma At(o: Options, t: seq<Event>, i: nat)
    requires i < |t| && Accepts(o, t)
    ensures Advance(o, Walk(o, Silent, t[..i]), t[i]) != Wrong && Tells(t[..i], Walk(o, Silent, t[..i]))
    ensures Walk(o, Silent, t[..i + 1]) == Advance(o, Walk(o, Silent, t[..i]), t[i])
    ensures i + 1 == |t| ==> t[..i + 1] == t
  {
    PrefixRight(o, t, i + 1);
    assert t[..i + 1][..i] == t[..i];
    PhaseTells(o, t[..i]);
  }

  /** `starting` comes once and first, `register_ok` directly after a `connecting`, and `fatal` last. */
  lemma EventsInPlace(o: Options, t: seq<Event>, i: nat)
    requires i < |t| && Accepts(o, t)
    ensures t[i] == Starting <==> i == 0
    ensures t[i] == RegisterOk ==> i > 0 && t[i - 1].Connecting?
    ensures t[i] in {Fatal, DeregisterOk, Error(false)} ==> i == |t| - 1
  {
    At(o, t, i);
    if i + 1 < |t| { At(o, t, i + 1); }
  }

  /** `connecting` follows the `reconnecting` that announced it, with the same attempt number; only
      the first, number 1, follows `starting`. */
  lemma AttemptsAgree(o: Options, t: seq<Event>, i: nat)
    requires i < |t| && Accepts(o, t) && t[i].Connecting?
    ensures i > 0
    ensures if i == 1 then t[i].attempt == 1 else t[i - 1].Reconnecting? && t[i - 1].attempt == t[i].attempt
  {
    At(o, t, i);
  }

  /** `disconnected` is directly followed by a `reconnecting` that starts over at attempt 2. */
  lemma DisconnectedThenReconnecting(o: Options, t: seq<Event>, i: nat)
    requires i < |t| && Accepts(o, t) && t[i] == Disconnected
    ensures i + 1 < |t| && t[i + 1].Reconnecting? && t[i + 1].attempt == 2
  {
    At(o, t, i);
    if i + 1 < |t| { At(o, t, i + 1); }
  }

  // ---------------------------------------------------------------- giving up

  /** How many times the client connected since it was last registered. */
  function Streak(t: seq<Event>): nat {
    if t == [] || t[|t| - 1] == RegisterOk then 0
    else Streak(t[..|t| - 1]) + if t[|t| - 1].Connecting? then 1 else 0
  }

  /** A session was up at some time. */
  predicate HadSession(t: seq<Event>) { RegisterOk in t }

  /** A session counts as one attempt already made. */
  function Credit(t: seq<Event>): int { if HadSession(t) then 1 else 0 }

  ghost predicate CountsMatch(o: Options, t: seq<Event>, p: Phase) {
    match p
    case Silent => Streak(t) == 0 && !HadSession(t)
    case Ready(n) => Streak(t) + Credit(t) == n - 1 && (OutOfAttempts(o, n - 1) ==> n == 1 + Credit(t))
    case Dialing(n) => Streak(t) + Credit(t) == n && (OutOfAttempts(o, n - 1) ==> n == 1 + Credit(t))
    case Failing(n) => Streak(t) + Credit(t) == n && (OutOfAttempts(o, n - 1) ==> n == 1 + Credit(t))
    case Online => Streak(t) == 0 && HadSession(t)
    case Dropped => Streak(t) == 0 && HadSession(t)
    case Over => o.maxAttempts > 0 ==> Streak(t) <= Limit(o, t)
    case Wrong => true
  }

  /** Connects in a row that MaxAttempts allows: that many at first, one fewer after a session,
      never none. */
  function Limit(o: Options, t: seq<Event>): int {
    var m := o.maxAttempts - Credit(t);
    if m < 1 then 1 else m
  }

  lemma {:induction false} CountsAlways(o: Options, t: seq<Event>)
    ensures CountsMatch(o, t, Walk(o, Silent, t))
  {
    if t != [] {
      var s := t[..|t| - 1];
      CountsAlways(o, s);
      assert t == s + [t[|t| - 1]];
      assert HadSession(t) <==> HadSession(s) || t[|t| - 1] == RegisterOk;
    }
  }

  /** With MaxAttempts set, at no time has the client connected more often than `Limit` since it was
      last registered; in particular never more than MaxAttempts times. */
  lemma ConnectsBounded(o: Options, t: seq<Event>, i: nat)
    requires o.maxAttempts > 0 && Accepts(o, t) && i <= |t|
    ensures Streak(t[..i]) <= Limit(o, t[..i]) <= o.maxAttempts
  {
    PrefixRight(o, t, i);
    CountsAlways(o, t[..i]);
  }

  /** After a retryable failure the loop gives up exactly when the limit is reached. */
  lemma GivesUpAtLimit(o: Options, t: seq<Event>, i: nat)
    requires 0 < i && i + 1 < |t| && Accepts(o, t) && t[i] == Error(true)
    ensures t[i + 1] == Fatal <==> o.maxAttempts > 0 && Streak(t[..i + 1]) >= Limit(o, t[..i + 1])
    ensures t[i + 1] == Fatal || t[i + 1].Reconnecting?
  {
    At(o, t, i);
    At(o, t, i + 1);
    CountsAlways(o, t[..i + 1]);
  }

  /** The loop returns an error exactly when its last event is `fatal`. */
  lemma {:induction false} FatalIffGaveUp(o: Options, n: int, script: seq<Round>)
    ensures Ends(o, n, script).GaveUp? <==>
            Trace(o, n, script) != [] && Trace(o, n, script)[|Trace(o, n, script)| - 1] == Fatal
    decreases |script|
  {
    if script != [] {
      var f := script[0];
      var e := Emits(o, n, f);
      assert EndOf(o, n, f).GaveUp? <==> e[|e| - 1] == Fatal;
      if EndOf(o, n, f).Running? {
        FatalIffGaveUp(o, NextAttempt(n, f), script[1..]);
        var more := Trace(o, NextAttempt(n, f), script[1..]);
        assert Trace(o, n, script) == e + more;
        assert more != [] ==> (e + more)[|e + more| - 1] == more[|more| - 1];
        assert more == [] ==> e + more == e;
      } else {
        assert Trace(o, n, script) == e;
      }
    }
  }

  // ---------------------------------------------------------------- how the loop ends

  /** The round at which the loop returns, if it does. */
  function LastRound(o: Options, n: int, script: seq<Round>): Option<Round>
    decreases |script|
  {
    if script == [] then None
    else if EndOf(o, n, script[0]).Running? then LastRound(o, NextAttempt(n, script[0]), script[1..])
    else Some(script[0])
  }

  predicate EndsWith(t: seq<Event>, e: Event) { t != [] && t[|t| - 1] == e }

  lemma RoundEnds(o: Options, n: int, f: Round)
    ensures EndsWith(Emits(o, n, f), DeregisterOk) <==> f == Shutdown(true)
    ensures EndsWith(Emits(o, n, f), Error(false)) <==> f == Shutdown(false)
    ensures f.Shutdown? || (f.Failed? && f.cancelled) ==> EndOf(o, n, f) == Stopped
  {
    if f.Failed? {
      assert Emits(o, n, f)[0] == Connecting(n);
    }
  }

  /** The loop's last event is `deregister_ok` iff it was stopped with a session up and the server released the
      name, a non-retryable `error` iff that release failed, and a `connecting` iff it was stopped while
      connecting. */
  lemma {:induction false} LastEvent(o: Options, n: int, script: seq<Round>)
    ensures EndsWith(Trace(o, n, script), DeregisterOk) <==> LastRound(o, n, script) == Some(Shutdown(true))
    ensures EndsWith(Trace(o, n, script), Error(false)) <==> LastRound(o, n, script) == Some(Shutdown(false))
    ensures Trace(o, n, script) != [] && Trace(o, n, script)[|Trace(o, n, script)| - 1].Connecting? <==>
            var last := LastRound(o, n, script);
            last.Some? && last.value.Failed? && last.value.cancelled
    decreases |script|
  {
    if script != [] {
      var f := script[0];
      var e := Emits(o, n, f);
      RoundEnds(o, n, f);
      RoundConnects(o, n, f);
      if EndOf(o, n, f).Running? {
        LastEvent(o, NextAttempt(n, f), script[1..]);
        var more := Trace(o, NextAttempt(n, f), script[1..]);
        assert Trace(o, n, script) == e + more;
        assert more != [] ==> (e + more)[|e + more| - 1] == more[|more| - 1];
        assert more == [] ==> e + more == e;
        if script[1..] != [] { FirstConnects(o, NextAttempt(n, f), script[1..]); }
      } else {
        assert Trace(o, n, script) == e;
      }
    }
  }

  /** The loop is still running after a script only if every round of it let it: none was a shutdown, was
      cancelled or permanent, and every sleep ended by itself. */
  lemma {:induction false} RunningMeansWoken(o: Options, n: int, script: seq<Round>, i: nat)
    requires Ends(o, n, script).Running? && i < |script|
    ensures !script[i].Shutdown? && script[i].woken
    ensures script[i].Failed? ==> !script[i].cancelled && !Permanent(script[i])
    decreases |script|
  {
    if i > 0 { RunningMeansWoken(o, NextAttempt(n, script[0]), script[1..], i - 1); }
  }

  lemma RoundConnects(o: Options, n: int, f: Round)
    ensures Emits(o, n, f)[|Emits(o, n, f)| - 1].Connecting? <==> f.Failed? && f.cancelled
  {}

  lemma FirstConnects(o: Options, n: int, script: seq<Round>)
    requires script != []
    ensures Trace(o, n, script) != []
  {}

  // ---------------------------------------------------------------- from the server's reason to the client's events

  /** The round in which the server denied registration for `reason`. */
  function DeniedFor(reason: Protocol.Reason, hint: int, woken: bool): Round {
    Failed(false, Some(Denial(Denials.Text(reason), hint)), false, woken)
  }

  /** The server's reason decides what the client does: it gives up at once on the reasons of its
      list; it waits out a limiter's hint to the second, or without one the backoff raised to the
      floor; and it backs off from the rest. */
  lemma ReasonDecides(o: Options, n: int, reason: Protocol.Reason, hint: int, woken: bool)
    ensures var e := Emits(o, n, DeniedFor(reason, hint, woken));
            var backoff := Backoff(n, Min(o), Max(o));
            if !Denials.Retried(reason) then e == [Connecting(n), Fatal]
            else if OutOfAttempts(o, n) then e == [Connecting(n), Error(true), Fatal]
            else
              var wait := if !Denials.FromLimiter(reason) then backoff / 1_000_000
                          else if hint > 0 then 1000 * hint
                          else (if backoff < Floor(o) then Floor(o) else backoff) / 1_000_000;
              e == [Connecting(n), Error(true), Reconnecting(wait, n + 1)]
  {
    Denials.ClientReadsText(reason);
    HintInMillis(hint);
    DenialSplits(o, n, Denial(Denials.Text(reason), hint), woken);
  }

  lemma HintInMillis(hint: int)
    ensures hint * L.SECOND / MILLISECOND == 1000 * hint
  {
    assert hint * L.SECOND == (1000 * hint) * MILLISECOND;
  }

  lemma DenialSplits(o: Options, n: int, d: Denial, woken: bool)
    ensures var f := Failed(false, Some(d), false, woken);
            Emits(o, n, f) ==
            if Denials.IsPermanent(d.reason) then [Connecting(n), Fatal]
            else if OutOfAttempts(o, n) then [Connecting(n), Error(true), Fatal]
            else [Connecting(n), Error(true), Reconnecting(DelayAfter(o, n, f) / MILLISECOND, n + 1)]
  {
    assert forall a: Event, b: Event, c: Event :: [a] + [b, c] == [a, b, c];
    assert forall a: Event, b: Event :: [a] + [b] == [a, b];
  }
}
