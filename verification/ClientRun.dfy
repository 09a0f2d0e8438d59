/** The client's supervisor loop, internal/tunnelclient/run.go: connect, serve, reconnect.

    What Connect, Serve and the caller's context do is a script of rounds, one for each turn of
    the loop; a run of the loop is what it does on any finite script. */
module ClientRun {
  import opened Naming
  import Denials
  import L = Limiter

  const MILLISECOND := 1_000_000

  datatype Options = Options(backoffMin: int, backoffMax: int, rateLimitFloor: int, maxAttempts: int)

  function OrDefault(d: int, default: int): (r: int)
    ensures default > 0 ==> r > 0
  {
    if d <= 0 then default else d
  }

  function Min(o: Options): (r: int) ensures r > 0 { OrDefault(o.backoffMin, L.SECOND) }
  function Max(o: Options): (r: int) ensures r > 0 { OrDefault(o.backoffMax, 30 * L.SECOND) }
  function Floor(o: Options): (r: int) ensures r > 0 { OrDefault(o.rateLimitFloor, 300 * L.SECOND) }

  // ---------------------------------------------------------------- backoff

  function Pow2(n: nat): (r: nat)
    ensures r > 0
  {
    if n == 0 then 1 else 2 * Pow2(n - 1)
  }

  function Lesser(a: int, b: int): int { if a <= b then a else b }

  /** The wait before the next attempt: min * 2^(attempt - 1), capped at max from the second
      attempt on. */
  function Backoff(attempt: int, min: int, max: int): int {
    if attempt <= 1 then min else Lesser(max, min * Pow2(attempt - 1))
  }

  lemma {:induction false} Pow2Grows(a: nat, b: nat)
    requires a <= b
    ensures Pow2(a) <= Pow2(b)
  {
    if a < b { Pow2Grows(a, b - 1); }
  }

  lemma ScaledGrows(min: int, a: nat, b: nat)
    requires min > 0 && a <= b
    ensures min * Pow2(a) <= min * Pow2(b)
  {
    Pow2Grows(a, b);
    assert min * (Pow2(b) - Pow2(a)) >= 0;
  }

  method BackoffDuration(attempt: int, min: int, max: int) returns (d: int)
    requires min > 0
    ensures d == Backoff(attempt, min, max)
  {
    var n := if attempt < 1 then 1 else attempt;
    d := min;
    var i := 1;
    while i < n
      invariant 1 <= i <= n && d == min * Pow2(i - 1) && (i > 1 ==> d < max)
    {
      d := d * 2;
      if d >= max {
        ScaledGrows(min, i, n - 1);
        return max;
      }
      i := i + 1;
    }
  }

  /** The first wait is the minimum, and every later one is twice the one before, but no more than the maximum;
      a minimum above the maximum is used once, and then the maximum. */
  lemma BackoffDoubles(attempt: int, min: int, max: int)
    requires min > 0
    ensures attempt <= 1 ==> Backoff(attempt, min, max) == min
    ensures attempt >= 1 && min <= max ==>
              Backoff(attempt + 1, min, max) ==
              if 2 * Backoff(attempt, min, max) <= max then 2 * Backoff(attempt, min, max) else max
    ensures attempt >= 1 && max < min ==> Backoff(attempt + 1, min, max) == max
  {
    if attempt >= 1 {
      ScaledGrows(min, 0, attempt);
      ScaledGrows(min, attempt - 1, attempt);
      assert min * Pow2(attempt) == 2 * (min * Pow2(attempt - 1));
    }
  }

  /** Options that are not set: one second, thirty seconds, five minutes. */
  lemma Defaults(o: Options)
    ensures Min(o) == if o.backoffMin > 0 then o.backoffMin else 1_000_000_000
    ensures Max(o) == if o.backoffMax > 0 then o.backoffMax else 30_000_000_000
    ensures Floor(o) == if o.rateLimitFloor > 0 then o.rateLimitFloor else 300_000_000_000
  {}

  /** The wait is within the configured maximum exactly when this is not the first wait or the
      minimum is within it too: a minimum above the maximum is used as it is, once. */
  lemma BackoffCapped(attempt: int, min: int, max: int)
    requires min > 0
    ensures Backoff(attempt, min, max) <= max <==> attempt >= 2 || min <= max
  {}

  /** Waits do not shrink from one attempt to a later one, except from the first when the
      minimum is above the maximum. */
  lemma BackoffGrows(a: int, b: int, min: int, max: int)
    requires min > 0 && a <= b
    ensures Backoff(a, min, max) <= Backoff(b, min, max) <==> !(a <= 1 < b && max < min)
  {
    if 1 < b {
      ScaledGrows(min, if a <= 1 then 0 else a - 1, b - 1);
      assert Pow2(0) == 1;
    }
  }

  // ---------------------------------------------------------------- events and rounds

  datatype Event =
    | Starting
    | Connecting(attempt: int)
    | RegisterOk
    | Error(retryable: bool)
    | Fatal
    | Reconnecting(afterMs: int, attempt: int)
    | Disconnected
    | DeregisterOk

  /** The server's Deny inside a connect error, if there is one. */
  datatype Denial = Denial(reason: string, retryAfter: int)

  /** One turn of the loop.  `cancelled`: the context is already done when Connect fails;
      `woken`: the sleep after the round ends by itself and not by the context. */
  datatype Round =
    | Failed(cancelled: bool, deny: Option<Denial>, badTls: bool, woken: bool)
    | Lost(woken: bool)                 // registered, then the session ended
    | Shutdown(released: bool)          // registered, then the context ended: deregister

  datatype Outcome = Running | Stopped | GaveUp

  predicate Permanent(f: Round)
    requires f.Failed?
  {
    (f.deny.Some? && Denials.IsPermanent(f.deny.value.reason)) || f.badTls
  }

  predicate OutOfAttempts(o: Options, attempt: int) { 0 < o.maxAttempts <= attempt }

  /** The wait after a failed attempt: rate-limit denials override the backoff. */
  function DelayAfter(o: Options, attempt: int, f: Round): int
    requires f.Failed?
  {
    var d := Backoff(attempt, Min(o), Max(o));
    if f.deny.Some? && Denials.IsRateLimit(f.deny.value.reason)
    then L.ClientDelay(f.deny.value.retryAfter, d, Floor(o))
    else d
  }

  // ---------------------------------------------------------------- what one round does

  /** The events of a round that begins with this attempt number. */
  function Emits(o: Options, n: int, f: Round): seq<Event> {
    [Connecting(n)] +
    match f
    case Failed(cancelled, _, _, _) =>
      if cancelled then []
      else if Permanent(f) then [Fatal]
      else if OutOfAttempts(o, n) then [Error(true), Fatal]
      else [Error(true), Reconnecting(DelayAfter(o, n, f) / MILLISECOND, n + 1)]
    case Lost(_) => [RegisterOk, Disconnected, Reconnecting(Backoff(1, Min(o), Max(o)) / MILLISECOND, 2)]
    case Shutdown(released) => [RegisterOk, if released then DeregisterOk else Error(false)]
  }

  function EndOf(o: Options, n: int, f: Round): Outcome {
    match f
    case Failed(cancelled, _, _, woken) =>
      if cancelled then Stopped
      else if Permanent(f) || OutOfAttempts(o, n) then GaveUp
      else if woken then Running else Stopped
    case Lost(woken) => if woken then Running else Stopped
    case Shutdown(_) => Stopped
  }

  function NextAttempt(n: int, f: Round): int { if f.Lost? then 2 else n + 1 }

  /** All the events of the rounds a script allows, from attempt `n` on. */
  function Trace(o: Options, n: int, script: seq<Round>): seq<Event>
    decreases |script|
  {
    if script == [] then []
    else
      Emits(o, n, script[0]) +
      if EndOf(o, n, script[0]).Running? then Trace(o, NextAttempt(n, script[0]), script[1..]) else []
  }

  function Ends(o: Options, n: int, script: seq<Round>): Outcome
    decreases |script|
  {
    if script == [] then Running
    else if EndOf(o, n, script[0]).Running? then Ends(o, NextAttempt(n, script[0]), script[1..])
    else EndOf(o, n, script[0])
  }

  /** The wait the loop picks after a failed attempt. */
  method PickDelay(o: Options, attempt: int, f: Round) returns (delay: int)
    requires f.Failed?
    ensures delay == DelayAfter(o, attempt, f)
  {
    delay := BackoffDuration(attempt, Min(o), Max(o));
    if f.deny.Some? && Denials.IsRateLimit(f.deny.value.reason) {
      if f.deny.value.retryAfter > 0 {
        delay := f.deny.value.retryAfter * L.SECOND;
      } else if delay < Floor(o) {
        delay := Floor(o);
      }
    }
  }

  /** One turn of the loop: what it adds to the events, whether the loop goes on, and with which
      attempt number. */
  method Turn(o: Options, n: int, f: Round) returns (events: seq<Event>, end: Outcome, attempt: int)
    ensures events == Emits(o, n, f) && end == EndOf(o, n, f)
    ensures end.Running? ==> attempt == NextAttempt(n, f)
  {
    events, attempt := [Connecting(n)], n;
    match f
    case Failed(cancelled, _, _, woken) =>
      if cancelled { return events, Stopped, attempt; }
      if Permanent(f) { return events + [Fatal], GaveUp, attempt; }
      events := events + [Error(true)];
      if o.maxAttempts > 0 && attempt >= o.maxAttempts { return events + [Fatal], GaveUp, attempt; }
      var delay := PickDelay(o, attempt, f);
      attempt := attempt + 1;
      events := events + [Reconnecting(delay / MILLISECOND, attempt)];
      end := if woken then Running else Stopped;
    case Shutdown(released) =>
      events := events + [RegisterOk] + [if released then DeregisterOk else Error(false)];
      end := Stopped;
    case Lost(woken) =>
      attempt := 1;
      events := events + [RegisterOk] + [Disconnected];
      var delay := BackoffDuration(attempt, Min(o), Max(o));
      attempt := attempt + 1;
      events := events + [Reconnecting(delay / MILLISECOND, attempt)];
      end := if woken then Running else Stopped;
  }

  lemma Unroll(o: Options, n: int, script: seq<Round>, k: nat)
    requires k < |script|
    ensures var f := script[k];
            if EndOf(o, n, f).Running? then
              && Trace(o, n, script[k..]) == Emits(o, n, f) + Trace(o, NextAttempt(n, f), script[k + 1..])
              && Ends(o, n, script[k..]) == Ends(o, NextAttempt(n, f), script[k + 1..])
            else Trace(o, n, script[k..]) == Emits(o, n, f) && Ends(o, n, script[k..]) == EndOf(o, n, f)
  {
    assert script[k..][0] == script[k] && script[k..][1..] == script[k + 1..];
  }

  lemma Regroup(a: seq<Event>, b: seq<Event>, c: seq<Event>)
    ensures a + (b + c) == (a + b) + c
  {}

  /** What is left to do from attempt `n` and round `k` on completes what was done so far. */
  ghost predicate Completes(o: Options, script: seq<Round>, events: seq<Event>, n: int, k: nat)
    requires k <= |script|
  {
    && [Starting] + Trace(o, 1, script) == events + Trace(o, n, script[k..])
    && Ends(o, 1, script) == Ends(o, n, script[k..])
  }

  lemma TurnCompletes(o: Options, script: seq<Round>, events: seq<Event>, n: int, k: nat)
    requires k < |script| && Completes(o, script, events, n, k)
    ensures EndOf(o, n, script[k]).Running? ==>
            Completes(o, script, events + Emits(o, n, script[k]), NextAttempt(n, script[k]), k + 1)
    ensures !EndOf(o, n, script[k]).Running? ==>
              [Starting] + Trace(o, 1, script) == events + Emits(o, n, script[k]) &&
                Ends(o, 1, script) == EndOf(o, n, script[k])
  {
    Unroll(o, n, script, k);
    Regroup(events, Emits(o, n, script[k]), Trace(o, NextAttempt(n, script[k]), script[k + 1..]));
  }

  /** The loop itself. */
  method Run(o: Options, script: seq<Round>) returns (events: seq<Event>, outcome: Outcome)
    ensures events == [Starting] + Trace(o, 1, script)
    ensures outcome == Ends(o, 1, script)
  {
    events, outcome := [Starting], Running;
    var attempt, k := 1, 0;
    assert script[0..] == script;
    while k < |script|
      invariant 0 <= k <= |script| && outcome.Running?
      invariant Completes(o, script, events, attempt, k)
    {
      TurnCompletes(o, script, events, attempt, k);
      var more;
      more, outcome, attempt := Turn(o, attempt, script[k]);
      events := events + more;
      if !outcome.Running? { return; }
      k := k + 1;
    }
  }
}
