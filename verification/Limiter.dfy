/** The sliding-window rate limiter of internal/ratelimit/limiter.go.

    Times are integers (nanoseconds).  The functions below are the limiter on values;
    the class `SlidingWindow` is the same limiter updating its map in place, with each
    method proved against its function.  The theorems say that this pruned, capped and
    cancellable structure answers exactly as one that keeps every admission for ever. */
module Limiter {

  datatype Window = Window(max: int, span: int, maxKeys: int, seen: map<string, seq<int>>)

  // ---------------------------------------------------------------- the limiter on values

  /** The samples left after dropping the prefix that is at or before `cutoff`. */
  function Fresh(samples: seq<int>, cutoff: int): seq<int> {
    if |samples| > 0 && samples[0] <= cutoff then Fresh(samples[1..], cutoff) else samples
  }

  function Samples(w: Window, key: string): seq<int> {
    if key in w.seen then w.seen[key] else []
  }

  function Live(w: Window, key: string, now: int): seq<int> {
    Fresh(Samples(w, key), now - w.span)
  }

  function Pruned(seen: map<string, seq<int>>, cutoff: int): map<string, seq<int>> {
    map k | k in seen && Fresh(seen[k], cutoff) != [] :: Fresh(seen[k], cutoff)
  }

  predicate AtCap(w: Window, key: string) {
    key !in w.seen && w.maxKeys > 0 && |w.seen| >= w.maxKeys
  }

  /** An admission of `key` at `now` has to throw out some other key. */
  predicate Evicts(w: Window, key: string, now: int) {
    w.max > 0 && AtCap(w, key) && |Pruned(w.seen, now - w.span)| >= w.maxKeys
  }

  function MakeRoom(w: Window, key: string, now: int, victim: string): map<string, seq<int>> {
    if !AtCap(w, key) then w.seen
    else if Evicts(w, key, now) then Pruned(w.seen, now - w.span) - {victim}
    else Pruned(w.seen, now - w.span)
  }

  predicate Admits(w: Window, key: string, now: int) {
    w.max <= 0 || |Live(w, key, now)| < w.max
  }

  /** `victim` is the key that map iteration happens to yield first when room must be made. */
  function AllowAt(w: Window, key: string, now: int, victim: string): Window {
    if w.max <= 0 then w
    else if Admits(w, key, now) then
      w.(seen := MakeRoom(w, key, now, victim)[key := Live(w, key, now) + [now]])
    else w.(seen := w.seen[key := Live(w, key, now)])
  }

  predicate VictimPossible(w: Window, key: string, now: int, victim: string) {
    Evicts(w, key, now) ==> victim in Pruned(w.seen, now - w.span)
  }

  function CancelLatest(w: Window, key: string): Window {
    var samples := Samples(w, key);
    if w.max <= 0 || |samples| == 0 then w
    else if |samples| == 1 then w.(seen := w.seen - {key})
    else w.(seen := w.seen[key := samples[..|samples| - 1]])
  }

  function PruneAt(w: Window, now: int): Window {
    w.(seen := Pruned(w.seen, now - w.span))
  }

  function RetryWait(w: Window, key: string, now: int): nat {
    var live := Live(w, key, now);
    if w.max <= 0 || |live| < w.max then 0
    else if live[0] + w.span - now < 0 then 0
    else live[0] + w.span - now
  }

  function RetryAfterAt(w: Window, key: string, now: int): Window {
    if w.max <= 0 || Live(w, key, now) == Samples(w, key) then w
    else w.(seen := w.seen[key := Live(w, key, now)])
  }

  // ---------------------------------------------------------------- runs of operations

  datatype Op =
    | Allow(key: string, now: int, victim: string)
    | Cancel(key: string)
    | Retry(key: string, now: int)
    | Prune(now: int)
    | SetMaxKeys(n: int)

  datatype Answer = Verdict(ok: bool) | Wait(d: int)

  function Apply(w: Window, op: Op): Window {
    match op
    case Allow(k, now, victim) => AllowAt(w, k, now, victim)
    case Cancel(k) => CancelLatest(w, k)
    case Retry(k, now) => RetryAfterAt(w, k, now)
    case Prune(now) => PruneAt(w, now)
    case SetMaxKeys(n) => w.(maxKeys := n)
  }

  predicate Asks(op: Op, key: string) {
    (op.Allow? || op.Retry?) && op.key == key
  }

  predicate Touches(op: Op, key: string) {
    (op.Allow? || op.Retry? || op.Cancel?) && op.key == key
  }

  function AnswerTo(w: Window, op: Op): Answer {
    if op.Allow? then Verdict(Admits(w, op.key, op.now))
    else if op.Retry? then Wait(RetryWait(w, op.key, op.now))
    else Wait(0)
  }

  /** What the callers asking about `key` are told, in order. */
  function Answers(w: Window, key: string, ops: seq<Op>): seq<Answer>
    decreases ops
  {
    if ops == [] then []
    else
      (if Asks(ops[0], key) then [AnswerTo(w, ops[0])] else []) + Answers(Apply(w, ops[0]), key, ops[1..])
  }

  function Timed(op: Op, t: int): int {
    if op.Allow? || op.Retry? || op.Prune? then op.now else t
  }

  /** The times of a run never go back (calls taken in lock order). */
  predicate InOrder(t: int, ops: seq<Op>)
    decreases ops
  {
    ops == [] || (t <= Timed(ops[0], t) && InOrder(Timed(ops[0], t), ops[1..]))
  }

  /** No operation of the run evicts `key`. */
  predicate Spares(w: Window, key: string, ops: seq<Op>)
    decreases ops
  {
    ops == [] ||
    ((ops[0].Allow? && Evicts(w, ops[0].key, ops[0].now) ==> ops[0].victim != key)
     && Spares(Apply(w, ops[0]), key, ops[1..]))
  }

  // ---------------------------------------------------------------- the reference

  /** How many events lie in the half-open window (lo, hi]. */
  function Count(hist: seq<int>, lo: int, hi: int): nat {
    if hist == [] then 0
    else Count(hist[..|hist| - 1], lo, hi) + (if lo < hist[|hist| - 1] <= hi then 1 else 0)
  }

  /** How many events lie in the window that ends at `t`. */
  function Load(hist: seq<int>, span: int, t: int): nat {
    Count(hist, t - span, t)
  }

  /** The reference keeps every admission that was not cancelled, for ever. */
  function HistoryStep(max: int, span: int, key: string, hist: seq<int>, op: Op): seq<int> {
    if max <= 0 then hist
    else if op == Cancel(key) then (if hist == [] then [] else hist[..|hist| - 1])
    else if op.Allow? && op.key == key && Load(hist, span, op.now) < max then hist + [op.now]
    else hist
  }

  /** The least wait after which fewer than `max` of the events are still in the window. */
  ghost predicate LeastWait(max: int, span: int, hist: seq<int>, now: int, d: int) {
    && 0 <= d
    && (max <= 0 || Load(hist, span, now + d) < max)
    && (forall u :: now <= u < now + d ==> max > 0 && Load(hist, span, u) >= max)
  }

  ghost predicate RightAnswer(max: int, span: int, hist: seq<int>, op: Op, a: Answer) {
    match op
    case Allow(_, now, _) => a == Verdict(max <= 0 || Load(hist, span, now) < max)
    case Retry(_, now) => a.Wait? && LeastWait(max, span, hist, now, a.d)
    case _ => true
  }

  /** Every answer about `key` in the run is the one the full history calls for. */
  ghost predicate AllRight(w: Window, key: string, hist: seq<int>, ops: seq<Op>)
    decreases ops
  {
    ops == [] ||
    ((Asks(ops[0], key) ==> RightAnswer(w.max, w.span, hist, ops[0], AnswerTo(w, ops[0])))
     && AllRight(Apply(w, ops[0]), key, HistoryStep(w.max, w.span, key, hist, ops[0]), ops[1..]))
  }

  function History(max: int, span: int, key: string, hist: seq<int>, ops: seq<Op>): seq<int>
    decreases ops
  {
    if ops == [] then hist
    else History(max, span, key, HistoryStep(max, span, key, hist, ops[0]), ops[1..])
  }

  // ---------------------------------------------------------------- lemmas on sample lists

  /** The samples do not decrease and none is after `t`. */
  ghost predicate Sorted(s: seq<int>, t: int)
    decreases |s|
  {
    s == [] || (s[|s| - 1] <= t && Sorted(s[..|s| - 1], s[|s| - 1]))
  }

  lemma SortedSnoc(s: seq<int>, x: int, t: int)
    ensures Sorted(s + [x], t) <==> x <= t && Sorted(s, x)
  {
    assert (s + [x])[..|s|] == s;
  }

  lemma {:induction false} FreshTwice(s: seq<int>, c: int, d: int)
    requires c <= d
    ensures Fresh(Fresh(s, c), d) == Fresh(s, d)
  {
    if |s| > 0 && s[0] <= c { FreshTwice(s[1..], c, d); }
  }

  lemma {:induction false} FreshStart(s: seq<int>, c: int)
    ensures Fresh(s, c) != [] ==> c < Fresh(s, c)[0]
    ensures |Fresh(s, c)| <= |s|
  {
    if |s| > 0 && s[0] <= c { FreshStart(s[1..], c); }
  }

  lemma {:induction false} FreshSnoc(s: seq<int>, t: int, c: int)
    ensures Fresh(s + [t], c) ==
            if Fresh(s, c) == [] && t <= c then [] else Fresh(s, c) + [t]
  {
    if |s| > 0 && s[0] <= c {
      FreshSnoc(s[1..], t, c);
      assert (s + [t])[1..] == s[1..] + [t];
    } else if s == [] {
      assert s + [t] == [t];
      assert [t][1..] == [];
    }
  }

  lemma {:induction false} FreshSorted(s: seq<int>, c: int, t: int)
    requires Sorted(s, t)
    ensures Sorted(Fresh(s, c), t)
    decreases |s|
  {
    if s != [] {
      var n := |s| - 1;
      FreshSorted(s[..n], c, s[n]);
      FreshSnoc(s[..n], s[n], c);
      assert s == s[..n] + [s[n]];
      SortedSnoc(Fresh(s[..n], c), s[n], t);
    }
  }

  lemma {:induction false} FreshBelow(s: seq<int>, c: int)
    requires Sorted(s, c)
    ensures Fresh(s, c) == []
    decreases |s|
  {
    if s != [] {
      var n := |s| - 1;
      SortedLater(s[..n], s[n], c);
      FreshBelow(s[..n], c);
      FreshSnoc(s[..n], s[n], c);
      assert s == s[..n] + [s[n]];
    }
  }

  lemma SortedLater(s: seq<int>, t: int, u: int)
    requires Sorted(s, t) && t <= u
    ensures Sorted(s, u)
  {}

  /** On sorted samples, dropping the expired prefix counts the window. */
  lemma {:induction false} FreshCounts(s: seq<int>, lo: int, hi: int)
    requires Sorted(s, hi)
    ensures |Fresh(s, lo)| == Count(s, lo, hi)
    decreases |s|
  {
    if s != [] {
      var n := |s| - 1;
      SortedLater(s[..n], s[n], hi);
      FreshCounts(s[..n], lo, hi);
      FreshSnoc(s[..n], s[n], lo);
      assert s == s[..n] + [s[n]];
      if s[n] <= lo {
        SortedLater(s[..n], s[n], lo);
        FreshBelow(s[..n], lo);
      }
    }
  }

  lemma FreshDropLast(s: seq<int>, c: int)
    requires s != []
    ensures Fresh(s[..|s| - 1], c) ==
            if Fresh(s, c) == [] then [] else Fresh(s, c)[..|Fresh(s, c)| - 1]
  {
    var n := |s| - 1;
    var f := Fresh(s[..n], c);
    FreshSnoc(s[..n], s[n], c);
    assert s == s[..n] + [s[n]];
    assert (f + [s[n]])[..|f|] == f;
  }

  // ---------------------------------------------------------------- refinement

  /** The limiter's view of `key` and the full history agree on what is still in the window. */
  ghost predicate Agrees(w: Window, key: string, hist: seq<int>, t: int) {
    && w.span > 0
    && Sorted(hist, t) && Sorted(Samples(w, key), t)
    && Fresh(hist, t - w.span) == Live(w, key, t)
    && (w.max > 0 ==> |Live(w, key, t)| <= w.max)
  }

  lemma AgreesLater(w: Window, key: string, hist: seq<int>, t: int, now: int)
    requires Agrees(w, key, hist, t) && t <= now
    ensures Agrees(w, key, hist, now)
    ensures |Live(w, key, now)| == Load(hist, w.span, now)
  {
    FreshTwice(hist, t - w.span, now - w.span);
    FreshTwice(Samples(w, key), t - w.span, now - w.span);
    FreshStart(Live(w, key, t), now - w.span);
    SortedLater(hist, t, now);
    SortedLater(Samples(w, key), t, now);
    FreshCounts(hist, now - w.span, now);
  }

  lemma PrunedKeeps(w: Window, key: string, now: int)
    ensures Live(PruneAt(w, now), key, now) == Live(w, key, now)
    ensures Samples(PruneAt(w, now), key) == Live(w, key, now)
  {
    FreshTwice(Samples(w, key), now - w.span, now - w.span);
  }

  /** Pruning the samples of `key`, or leaving them alone, keeps the agreement. */
  lemma AgreesFrame(w: Window, w': Window, key: string, hist: seq<int>, now: int)
    requires Agrees(w, key, hist, now) && w'.max == w.max && w'.span == w.span
    requires Samples(w', key) == Samples(w, key) || Samples(w', key) == Live(w, key, now)
    ensures Agrees(w', key, hist, now)
  {
    FreshTwice(Samples(w, key), now - w.span, now - w.span);
    FreshSorted(Samples(w, key), now - w.span, now);
  }

  lemma AgreesAdmit(w: Window, w': Window, key: string, hist: seq<int>, now: int)
    requires Agrees(w, key, hist, now) && w'.max == w.max && w'.span == w.span
    requires w.max > 0 && |Live(w, key, now)| < w.max && Samples(w', key) == Live(w, key, now) + [now]
    ensures Agrees(w', key, hist + [now], now)
  {
    FreshTwice(Samples(w, key), now - w.span, now - w.span);
    FreshSorted(Samples(w, key), now - w.span, now);
    FreshSnoc(hist, now, now - w.span);
    FreshSnoc(Live(w, key, now), now, now - w.span);
    SortedSnoc(hist, now, now);
    SortedSnoc(Live(w, key, now), now, now);
  }

  lemma AgreesCancel(w: Window, key: string, hist: seq<int>, t: int)
    requires Agrees(w, key, hist, t) && w.max > 0
    ensures Agrees(CancelLatest(w, key), key, if hist == [] then [] else hist[..|hist| - 1], t)
  {
    var samples := Samples(w, key);
    if hist != [] {
      FreshDropLast(hist, t - w.span);
      SortedLater(hist[..|hist| - 1], hist[|hist| - 1], t);
    }
    if samples != [] {
      FreshDropLast(samples, t - w.span);
      SortedLater(samples[..|samples| - 1], samples[|samples| - 1], t);
      assert Samples(CancelLatest(w, key), key) == samples[..|samples| - 1];
    }
  }

  lemma OthersKept(w: Window, key: string, other: string, now: int, victim: string)
    requires other != key && (Evicts(w, key, now) ==> victim != other)
    ensures var s := Samples(AllowAt(w, key, now, victim), other);
            s == Samples(w, other) || s == Live(w, other, now)
  {
    PrunedKeeps(w, other, now);
  }

  /** One operation keeps the agreement, whatever it does and whichever key it is for. */
  lemma AgreesStep(w: Window, key: string, hist: seq<int>, t: int, op: Op)
    requires Agrees(w, key, hist, t) && t <= Timed(op, t)
    requires op.Allow? && Evicts(w, op.key, op.now) ==> op.victim != key
    ensures Agrees(Apply(w, op), key, HistoryStep(w.max, w.span, key, hist, op), Timed(op, t))
  {
    var now := Timed(op, t);
    AgreesLater(w, key, hist, t, now);
    if w.max > 0 && op == Cancel(key) {
      AgreesCancel(w, key, hist, t);
    } else if w.max > 0 && op.Allow? && op.key == key && Admits(w, key, now) {
      AgreesAdmit(w, Apply(w, op), key, hist, now);
    } else {
      if op.Allow? && op.key != key { OthersKept(w, op.key, key, now, op.victim); }
      if op.Prune? { PrunedKeeps(w, key, now); }
      AgreesFrame(w, Apply(w, op), key, hist, now);
    }
  }

  /** RetryAfterAt is the least wait: it answers the question the full history poses. */
  lemma RetryIsLeast(w: Window, key: string, hist: seq<int>, now: int)
    requires Agrees(w, key, hist, now)
    ensures LeastWait(w.max, w.span, hist, now, RetryWait(w, key, now))
  {
    var d := RetryWait(w, key, now);
    AgreesLater(w, key, hist, now, now + d);
    if w.max > 0 && |Live(w, key, now)| >= w.max {
      var live := Live(w, key, now);
      FreshStart(Samples(w, key), now - w.span);
      FreshTwice(Samples(w, key), now - w.span, now + d - w.span);
      FreshStart(live[1..], now + d - w.span);
      assert |Live(w, key, now + d)| < w.max;
      forall u | now <= u < now + d ensures Load(hist, w.span, u) >= w.max {
        AgreesLater(w, key, hist, now, u);
        FreshTwice(Samples(w, key), now - w.span, u - w.span);
      }
    }
  }

  /** The limiter refines the full-history specification: over every run whose times do not
      go back and that never evicts `key`, each verdict admits iff fewer than `max`
      uncancelled admissions lie in (now - span, now], and each hint is the least wait. */
  lemma {:induction false} RefinesHistory(w: Window, key: string, hist: seq<int>, t: int, ops: seq<Op>)
    requires Agrees(w, key, hist, t) && InOrder(t, ops) && Spares(w, key, ops)
    ensures AllRight(w, key, hist, ops)
    decreases ops
  {
    if ops != [] {
      var op := ops[0];
      var now := Timed(op, t);
      AgreesLater(w, key, hist, t, now);
      if Asks(op, key) && op.Retry? { RetryIsLeast(w, key, hist, now); }
      AgreesStep(w, key, hist, t, op);
      RefinesHistory(Apply(w, op), key, HistoryStep(w.max, w.span, key, hist, op), now, ops[1..]);
    }
  }

  // ---------------------------------------------------------------- the promised ceiling

  /** No window of length `span`, wherever it is placed, holds more than `max` admissions. */
  ghost predicate Capped(hist: seq<int>, max: int, span: int) {
    forall t :: Load(hist, span, t) <= max
  }

  lemma {:induction false} CountShrinks(s: seq<int>, lo: int, hi: int, lo': int, hi': int)
    requires lo <= lo' && Sorted(s, hi)
    ensures Count(s, lo', hi') <= Count(s, lo, hi)
    decreases |s|
  {
    if s != [] {
      SortedLater(s[..|s| - 1], s[|s| - 1], hi);
      CountShrinks(s[..|s| - 1], lo, hi, lo', hi');
    }
  }

  lemma CountSnoc(s: seq<int>, x: int, lo: int, hi: int)
    ensures Count(s + [x], lo, hi) == Count(s, lo, hi) + (if lo < x <= hi then 1 else 0)
  {
    assert (s + [x])[..|s|] == s;
  }

  lemma CappedStep(max: int, span: int, key: string, hist: seq<int>, t: int, op: Op)
    requires max > 0 && span > 0 && Sorted(hist, t) && Capped(hist, max, span) && t <= Timed(op, t)
    ensures Capped(HistoryStep(max, span, key, hist, op), max, span)
    ensures Sorted(HistoryStep(max, span, key, hist, op), Timed(op, t))
  {
    var next := HistoryStep(max, span, key, hist, op);
    forall u ensures Load(next, span, u) <= max {
      assert Load(hist, span, u) <= max;
      if op == Cancel(key) && hist != [] {
      } else if next != hist {
        CountSnoc(hist, op.now, u - span, u);
        if u - span < op.now <= u { CountShrinks(hist, op.now - span, op.now, u - span, u); }
      }
    }
  }

  /** The admissions that the limiter itself makes along a run: one for each Allow it answers yes,
      taken back by a Cancel that finds a sample to drop. */
  function StandingStep(w: Window, key: string, hist: seq<int>, op: Op): seq<int> {
    if w.max <= 0 then hist
    else if op == Cancel(key) then (if hist == [] || Samples(w, key) == [] then hist else hist[..|hist| - 1])
    else if op.Allow? && op.key == key && Admits(w, key, op.now) then hist + [op.now]
    else hist
  }

  function Standing(w: Window, key: string, hist: seq<int>, ops: seq<Op>): seq<int>
    decreases ops
  {
    if ops == [] then hist else Standing(Apply(w, ops[0]), key, StandingStep(w, key, hist, ops[0]), ops[1..])
  }

  /** Every Cancel of `key` finds a sample, as each follows an admission that has not expired away. */
  predicate CancelsFind(w: Window, key: string, ops: seq<Op>)
    decreases ops
  {
    ops == [] || ((ops[0] == Cancel(key) ==> Samples(w, key) != []) && CancelsFind(Apply(w, ops[0]), key, ops[1..]))
  }

  /** The limiter's own step is the reference's, but for a Cancel that finds nothing to drop. */
  lemma StandingIsHistoryStep(w: Window, key: string, hist: seq<int>, t: int, op: Op)
    requires Agrees(w, key, hist, t) && t <= Timed(op, t)
    ensures StandingStep(w, key, hist, op) ==
            if op == Cancel(key) && Samples(w, key) == [] then hist else HistoryStep(w.max, w.span, key, hist, op)
  {
    AgreesLater(w, key, hist, t, Timed(op, t));
  }

  lemma StandingAgrees(w: Window, key: string, hist: seq<int>, t: int, op: Op)
    requires Agrees(w, key, hist, t) && t <= Timed(op, t)
    requires op.Allow? && Evicts(w, op.key, op.now) ==> op.victim != key
    ensures Agrees(Apply(w, op), key, StandingStep(w, key, hist, op), Timed(op, t))
  {
    StandingIsHistoryStep(w, key, hist, t, op);
    AgreesStep(w, key, hist, t, op);
  }

  /** What the limiter admits and does not take back is the reference's history, over every run in
      which each Cancel finds its sample. */
  lemma {:induction false} StandingIsHistory(w: Window, key: string, hist: seq<int>, t: int, ops: seq<Op>)
    requires Agrees(w, key, hist, t) && InOrder(t, ops) && Spares(w, key, ops) && CancelsFind(w, key, ops)
    ensures Standing(w, key, hist, ops) == History(w.max, w.span, key, hist, ops)
    decreases ops
  {
    if ops != [] {
      StandingIsHistoryStep(w, key, hist, t, ops[0]);
      StandingAgrees(w, key, hist, t, ops[0]);
      StandingIsHistory(Apply(w, ops[0]), key, StandingStep(w, key, hist, ops[0]), Timed(ops[0], t), ops[1..]);
    }
  }

  /** The promised ceiling: over every run that does not evict `key`, no window, wherever it is placed,
      holds more than `max` of the admissions the limiter made and did not take back. */
  lemma {:induction false} WindowNeverExceeded(w: Window, key: string, hist: seq<int>, t: int, ops: seq<Op>)
    requires w.max > 0 && Agrees(w, key, hist, t) && Capped(hist, w.max, w.span) && InOrder(t, ops) &&
             Spares(w, key, ops)
    ensures Capped(Standing(w, key, hist, ops), w.max, w.span)
    decreases ops
  {
    if ops != [] {
      StandingIsHistoryStep(w, key, hist, t, ops[0]);
      CappedStep(w.max, w.span, key, hist, t, ops[0]);
      StandingAgrees(w, key, hist, t, ops[0]);
      WindowNeverExceeded(Apply(w, ops[0]), key, StandingStep(w, key, hist, ops[0]), Timed(ops[0], t), ops[1..]);
    }
  }

  /** One admission a window, one key: the limiter in which `k` has just been admitted. */
  function Full(k: string): Window { Window(1, 10, 1, map[k := [0]]) }

  lemma TakesOver(x: string, y: string)
    requires x != y
    ensures Evicts(Full(x), y, 0) && VictimPossible(Full(x), y, 0, x) && Admits(Full(x), y, 0)
    ensures Apply(Full(x), Allow(y, 0, x)) == Full(y)
  {
    assert Pruned(Full(x).seen, -10) == Full(x).seen;
    assert Full(x).seen - {x} == map[];
    assert |Full(x).seen| == 1;
    assert Live(Full(x), y, 0) == [] && MakeRoom(Full(x), y, 0, x) == map[];
    assert Live(Full(x), y, 0) + [0] == [0];
  }

  /** Sparing the key is needed: two keys that evict each other get one of them admitted twice at one
      instant where one admission is allowed. */
  lemma EvictionBreaksCeiling(a: string, b: string)
    requires a != b
    ensures var ops := [Allow(b, 0, a), Allow(a, 0, b)];
            && Agrees(Full(a), a, [0], 0) && Capped([0], 1, 10) && InOrder(0, ops) && VictimsPossible(Full(a), ops)
            && !Spares(Full(a), a, ops) && Load(Standing(Full(a), a, [0], ops), 10, 0) == 2
  {
    var o2, o3 := Allow(b, 0, a), Allow(a, 0, b);
    assert [o2, o3][1..] == [o3] && [o3][1..] == [];
    TakesOver(a, b);
    TakesOver(b, a);
    OneIsCapped();
    assert Standing(Full(b), a, [0], [o3]) == [0, 0];
    assert StandingStep(Full(a), a, [0], o2) == [0];
    assert Standing(Full(a), a, [0], [o2, o3]) == [0, 0];
    assert Load([0, 0], 10, 0) == 2;
  }

  lemma OneIsCapped()
    ensures Capped([0], 1, 10) && Sorted([0], 0) && Count([0, 0], -10, 0) == 2
  {
    assert [0, 0][..1] == [0] && [0][..0] == [];
    forall t ensures Load([0], 10, t) <= 1 { assert Count([0][..0], t - 10, t) == 0; }
  }

  // ---------------------------------------------------------------- what cannot be observed

  /** The operations of a run that name `key`. */
  function Only(key: string, ops: seq<Op>): seq<Op> {
    if ops == [] then []
    else (if Touches(ops[0], key) then [ops[0]] else []) + Only(key, ops[1..])
  }

  /** Two limiters that agree with one history give the same answer to the same question. */
  lemma SameAnswer(w: Window, v: Window, key: string, hist: seq<int>, t: int, op: Op)
    requires Agrees(w, key, hist, t) && Agrees(v, key, hist, t) && w.max == v.max && w.span == v.span
    requires t <= Timed(op, t) && Asks(op, key)
    ensures AnswerTo(w, op) == AnswerTo(v, op)
  {
    AgreesLater(w, key, hist, t, Timed(op, t));
    AgreesLater(v, key, hist, t, Timed(op, t));
  }

  /** An operation naming `key` heads both the run and its restriction to `key`. */
  lemma AnswersHead(w: Window, v: Window, key: string, ops: seq<Op>)
    requires ops != [] && Touches(ops[0], key) && (Asks(ops[0], key) ==> AnswerTo(w, ops[0]) == AnswerTo(v, ops[0]))
    requires Answers(Apply(w, ops[0]), key, ops[1..]) == Answers(Apply(v, ops[0]), key, Only(key, ops[1..]))
    ensures Answers(w, key, ops) == Answers(v, key, Only(key, ops))
  {
    var only := Only(key, ops);
    assert only[0] == ops[0] && only[1..] == Only(key, ops[1..]);
  }

  /** An operation not naming `key` is struck out and answers nothing. */
  lemma AnswersSkip(w: Window, key: string, ops: seq<Op>)
    requires ops != [] && !Touches(ops[0], key)
    ensures Only(key, ops) == Only(key, ops[1..])
    ensures Answers(w, key, ops) == Answers(Apply(w, ops[0]), key, ops[1..])
  {}

  /** Operations on other keys, background pruning and changes of the key cap are invisible:
      striking them all out of a run that spares `key` changes no answer about `key`.  The
      second limiter `v` may have pruned or cancelled differently, and has no cap. */
  lemma {:induction false} OthersInvisible(w: Window, v: Window, key: string, hist: seq<int>, t: int, ops: seq<Op>)
    requires Agrees(w, key, hist, t) && Agrees(v, key, hist, t) && w.max == v.max && w.span == v.span
    requires v.maxKeys <= 0 && InOrder(t, ops) && Spares(w, key, ops)
    ensures Answers(w, key, ops) == Answers(v, key, Only(key, ops))
    decreases ops
  {
    if ops != [] {
      var op := ops[0];
      var now := Timed(op, t);
      AgreesStep(w, key, hist, t, op);
      var hist' := HistoryStep(w.max, w.span, key, hist, op);
      if Touches(op, key) {
        if Asks(op, key) { SameAnswer(w, v, key, hist, t, op); }
        AgreesStep(v, key, hist, t, op);
        OthersInvisible(Apply(w, op), Apply(v, op), key, hist', now, ops[1..]);
        AnswersHead(w, v, key, ops);
      } else {
        AgreesLater(v, key, hist, t, now);
        AnswersSkip(w, key, ops);
        OthersInvisible(Apply(w, op), v, key, hist, now, ops[1..]);
      }
    }
  }

  lemma AllowThenCancelAgrees(w: Window, key: string, hist: seq<int>, t: int, now: int, victim: string)
    requires Agrees(w, key, hist, t) && t <= now && Admits(w, key, now) && VictimPossible(w, key, now, victim)
    ensures Agrees(CancelLatest(AllowAt(w, key, now, victim), key), key, hist, now)
  {
    var w1 := AllowAt(w, key, now, victim);
    AgreesLater(w, key, hist, t, now);
    if w.max > 0 {
      AgreesAdmit(w, w1, key, hist, now);
      AgreesCancel(w1, key, hist + [now], now);
      assert (hist + [now])[..|hist|] == hist;
    }
  }

  /** An admission that is cancelled at once leaves no trace in any later answer. */
  lemma AllowThenCancelInvisible(w: Window, key: string, hist: seq<int>, t: int, now: int, victim: string, ops: seq<Op>)
    requires Agrees(w, key, hist, t) && t <= now && InOrder(now, ops)
    requires Admits(w, key, now) && VictimPossible(w, key, now, victim)
    requires Spares(w, key, ops) && Spares(CancelLatest(AllowAt(w, key, now, victim), key), key, ops)
    ensures Answers(CancelLatest(AllowAt(w, key, now, victim), key), key, ops) == Answers(w, key, ops)
  {
    var w' := CancelLatest(AllowAt(w, key, now, victim), key);
    AllowThenCancelAgrees(w, key, hist, t, now, victim);
    AgreesLater(w, key, hist, t, now);
    var v := w.(maxKeys := 0);
    AgreesFrame(w, v, key, hist, now);
    OthersInvisible(w', v, key, hist, now, ops);
    OthersInvisible(w, v, key, hist, now, ops);
  }

  /** Cancelling the first admission of a key forgets the key: the limiter is as it was. */
  lemma CancelRestores(w: Window, key: string, now: int, victim: string)
    requires w.max > 0 && key !in w.seen && !AtCap(w, key)
    ensures CancelLatest(AllowAt(w, key, now, victim), key) == w
  {
    var w' := AllowAt(w, key, now, victim);
    assert Live(w, key, now) + [now] == [now];
    assert w'.seen == w.seen[key := [now]];
    assert w'.seen - {key} == w.seen;
  }

  /** Asking about a key drops its expired samples, whatever the answer, so none accumulate. */
  lemma AskingPrunes(w: Window, key: string, op: Op)
    requires w.max > 0 && w.span > 0 && Asks(op, key)
    ensures Fresh(Samples(Apply(w, op), key), op.now - w.span) == Samples(Apply(w, op), key)
  {
    FreshTwice(Samples(w, key), op.now - w.span, op.now - w.span);
    FreshSnoc(Live(w, key, op.now), op.now, op.now - w.span);
  }

  // ---------------------------------------------------------------- the key cap

  predicate KeepsCap(ops: seq<Op>) {
    forall i :: 0 <= i < |ops| ==> !ops[i].SetMaxKeys?
  }

  ghost predicate VictimsPossible(w: Window, ops: seq<Op>)
    decreases ops
  {
    ops == [] ||
    ((ops[0].Allow? ==> VictimPossible(w, ops[0].key, ops[0].now, ops[0].victim))
     && VictimsPossible(Apply(w, ops[0]), ops[1..]))
  }

  lemma PrunedSize(seen: map<string, seq<int>>, cutoff: int)
    ensures |Pruned(seen, cutoff)| <= |seen|
  {
    SubsetSize(Pruned(seen, cutoff).Keys, seen.Keys);
    assert |Pruned(seen, cutoff).Keys| == |Pruned(seen, cutoff)|;
    assert |seen.Keys| == |seen|;
  }

  lemma {:induction false} SubsetSize<T>(a: set<T>, b: set<T>)
    requires a <= b
    ensures |a| <= |b|
    decreases a
  {
    if a != {} {
      var x :| x in a;
      SubsetSize(a - {x}, b - {x});
    }
  }

  lemma SetWithout<T>(s: set<T>, x: T)
    ensures |s - {x}| == |s| - (if x in s then 1 else 0)
  {}

  /** Two sets that agree on everything but `x`. */
  lemma SetDiffer<T>(before: set<T>, after: set<T>, x: T)
    requires before - {x} == after - {x}
    ensures |after| == |before| - (if x in before then 1 else 0) + (if x in after then 1 else 0)
  {
    SetWithout(before, x);
    SetWithout(after, x);
  }

  lemma InsertSize(m: map<string, seq<int>>, key: string, s: seq<int>)
    ensures |m[key := s]| == if key in m then |m| else |m| + 1
  {
    assert m[key := s].Keys == m.Keys + {key};
    assert |m[key := s].Keys| == |m[key := s]| && |m.Keys| == |m|;
  }

  lemma RemoveSize(m: map<string, seq<int>>, key: string)
    ensures |m - {key}| == if key in m then |m| - 1 else |m|
  {
    assert (m - {key}).Keys == m.Keys - {key};
    assert |(m - {key}).Keys| == |m - {key}| && |m.Keys| == |m|;
  }

  lemma AllowSize(w: Window, key: string, now: int, victim: string)
    requires w.maxKeys > 0 && w.max > 0 && Admits(w, key, now) && VictimPossible(w, key, now, victim)
    ensures |AllowAt(w, key, now, victim).seen| <= Ceiling(w)
  {
    var room := MakeRoom(w, key, now, victim);
    PrunedSize(w.seen, now - w.span);
    RemoveSize(Pruned(w.seen, now - w.span), victim);
    InsertSize(room, key, Live(w, key, now) + [now]);
  }

  function Ceiling(w: Window): int {
    if |w.seen| > w.maxKeys then |w.seen| else w.maxKeys
  }

  /** Overwriting the samples of a tracked key keeps the number of keys. */
  lemma RewriteSize(w: Window, key: string, s: seq<int>)
    requires key in w.seen
    ensures |w.seen[key := s]| <= Ceiling(w)
  {
    InsertSize(w.seen, key, s);
  }

  lemma CancelSize(w: Window, key: string)
    ensures |CancelLatest(w, key).seen| <= Ceiling(w)
  {
    var samples := Samples(w, key);
    if w.max > 0 && |samples| > 1 {
      RewriteSize(w, key, samples[..|samples| - 1]);
    } else {
      RemoveSize(w.seen, key);
    }
  }

  lemma SizeStep(w: Window, op: Op)
    requires w.maxKeys > 0 && !op.SetMaxKeys?
    requires op.Allow? ==> VictimPossible(w, op.key, op.now, op.victim)
    ensures |Apply(w, op).seen| <= Ceiling(w)
  {
    if op.Allow? && w.max > 0 && Admits(w, op.key, op.now) {
      AllowSize(w, op.key, op.now, op.victim);
    } else if op.Cancel? {
      CancelSize(w, op.key);
    } else if op.Prune? {
      PrunedSize(w.seen, op.now - w.span);
    } else if op.key in w.seen {
      RewriteSize(w, op.key, Live(w, op.key, op.now));
    }
  }

  /** With a positive cap the number of tracked keys never rises above the cap, or above
      where it started if that was higher. */
  lemma {:induction false} TrackedKeysBounded(w: Window, ops: seq<Op>)
    requires w.maxKeys > 0 && KeepsCap(ops) && VictimsPossible(w, ops)
    ensures |Run(w, ops).seen| <= Ceiling(w)
    decreases ops
  {
    if ops != [] {
      SizeStep(w, ops[0]);
      TrackedKeysBounded(Apply(w, ops[0]), ops[1..]);
    }
  }

  function Run(w: Window, ops: seq<Op>): Window
    decreases ops
  {
    if ops == [] then w else Run(Apply(w, ops[0]), ops[1..])
  }

  /** One admission discards unexpired samples of no key but the victim, and of none at all
      below the cap. */
  lemma EvictionHitsOneKey(w: Window, key: string, now: int, victim: string, other: string)
    requires other != key && (other == victim ==> !Evicts(w, key, now))
    ensures Live(AllowAt(w, key, now, victim), other, now) == Live(w, other, now)
  {
    PrunedKeeps(w, other, now);
  }

  // ---------------------------------------------------------------- the retry hint

  const SECOND := 1_000_000_000

  /** The whole-seconds-plus-one hint a rate-limit Deny carries. */
  function HintSeconds(wait: int): int
    requires wait >= 0
  {
    wait / SECOND + 1
  }

  /** The delay the client chooses after a rate-limit Deny: the server's hint when it is
      positive, otherwise its own backoff raised to the floor. */
  function ClientDelay(hint: int, backoff: int, floor: int): int {
    if hint > 0 then hint * SECOND else if backoff < floor then floor else backoff
  }

  /** After the least wait, or any time later, the window has room. */
  lemma RoomAfterWait(max: int, span: int, hist: seq<int>, now: int, d: int, later: int)
    requires LeastWait(max, span, hist, now, d) && Sorted(hist, now) && now + d <= later
    ensures max <= 0 || Load(hist, span, later) < max
  {
    SortedLater(hist, now, now + d);
    CountShrinks(hist, now + d - span, now + d, later - span, later);
  }

  /** A limiter that agrees with the history answers a lone attempt by the history's load. */
  lemma LoneAttempt(v: Window, key: string, hist: seq<int>, now: int, later: int, victim: string)
    requires Agrees(v, key, hist, now) && now <= later && (v.max <= 0 || Load(hist, v.span, later) < v.max)
    ensures Answers(v, key, [Allow(key, later, victim)]) == [Verdict(true)]
  {
    var last := Allow(key, later, victim);
    assert [last][1..] == [];
    assert Answers(v, key, [last]) == [AnswerTo(v, last)];
    AgreesLater(v, key, hist, now, later);
  }

  /** The hint is good enough: whatever happens to other keys meanwhile, a client that was
      refused, told the hint at `now`, and waits its chosen delay is admitted by its next
      attempt, provided the key itself sees no other event and is not evicted. */
  lemma HintAdmitsRetry(w: Window, key: string, hist: seq<int>, now: int,
                        meanwhile: seq<Op>, later: int, victim: string, backoff: int, floor: int)
    requires Agrees(w, key, hist, now)
    requires Only(key, meanwhile) == []
    requires later >= now + ClientDelay(HintSeconds(RetryWait(w, key, now)), backoff, floor)
    requires InOrder(now, meanwhile + [Allow(key, later, victim)])
    requires Spares(RetryAfterAt(w, key, now), key, meanwhile + [Allow(key, later, victim)])
    ensures Answers(RetryAfterAt(w, key, now), key, meanwhile + [Allow(key, later, victim)]) == [Verdict(true)]
  {
    var w1 := RetryAfterAt(w, key, now);
    AgreesStep(w, key, hist, now, Retry(key, now));
    var v := w1.(maxKeys := 0);
    AgreesFrame(w1, v, key, hist, now);
    var last := Allow(key, later, victim);
    OthersInvisible(w1, v, key, hist, now, meanwhile + [last]);
    OnlySnoc(key, meanwhile, last);
    assert Only(key, [last]) == [last];
    HintIsEnough(w, key, hist, now, later, backoff, floor);
    LoneAttempt(v, key, hist, now, later, victim);
  }

  lemma HintIsEnough(w: Window, key: string, hist: seq<int>, now: int, later: int, backoff: int, floor: int)
    requires Agrees(w, key, hist, now) &&
             later >= now + ClientDelay(HintSeconds(RetryWait(w, key, now)), backoff, floor)
    ensures now <= later && (w.max <= 0 || Load(hist, w.span, later) < w.max)
  {
    var d := RetryWait(w, key, now);
    assert d < HintSeconds(d) * SECOND;
    RetryIsLeast(w, key, hist, now);
    RoomAfterWait(w.max, w.span, hist, now, d, later);
  }

  lemma {:induction false} OnlySnoc(key: string, ops: seq<Op>, op: Op)
    ensures Only(key, ops + [op]) == Only(key, ops) + Only(key, [op])
  {
    if ops == [] {
      assert ops + [op] == [op];
    } else {
      OnlySnoc(key, ops[1..], op);
      assert (ops + [op])[1..] == ops[1..] + [op];
    }
  }
}
