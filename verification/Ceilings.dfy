/** How far the limiter's ceiling reaches: what an eviction does to it, and what happens to it when a
    refund is for an older admission than the one that CancelLatest drops. */
module Ceilings {
  import opened Limiter

  // ---------------------------------------------------------------- evicting a key

  lemma Evicted(w: Window, key: string, other: string, now: int)
    requires key != other && Evicts(w, other, now)
    ensures Samples(AllowAt(w, other, now, key), key) == []
    ensures AllowAt(w, other, now, key).max == w.max && AllowAt(w, other, now, key).span == w.span
  {
    PrunedKeeps(w, other, now);
    FreshTwice(Samples(w, other), now - w.span, now - w.span);
    assert Live(w, other, now) == [];
  }

  /** An eviction that finds only expired samples of the key is harmless: the limiter still agrees with
      the key's full history, so every theorem about a spared key goes on holding. */
  lemma EvictingExpired(w: Window, key: string, hist: seq<int>, t: int, other: string, now: int)
    requires Agrees(w, key, hist, t) && t <= now && key != other && Evicts(w, other, now) && Live(w, key, now) == []
    ensures Agrees(AllowAt(w, other, now, key), key, hist, now)
  {
    AgreesLater(w, key, hist, t, now);
    Evicted(w, key, other, now);
  }

  /** `n` attempts of the key at one instant. */
  function Burst(key: string, now: int, victim: string, n: nat): seq<Op> {
    seq(n, i => Allow(key, now, victim))
  }

  function Times(now: int, n: nat): seq<int> { seq(n, i => now) }

  lemma BurstHead(key: string, now: int, victim: string, n: nat)
    requires n > 0
    ensures Burst(key, now, victim, n)[0] == Allow(key, now, victim)
    ensures Burst(key, now, victim, n)[1..] == Burst(key, now, victim, n - 1)
  {}

  lemma BurstStep(w: Window, key: string, now: int, victim: string)
    requires w.span > 0 && |Live(w, key, now)| < w.max
    ensures var w' := AllowAt(w, key, now, victim);
            && Live(w', key, now) == Live(w, key, now) + [now] && key in w'.seen
            && w'.max == w.max && w'.span == w.span && w'.maxKeys == w.maxKeys
  {
    var live := Live(w, key, now);
    FreshTwice(Samples(w, key), now - w.span, now - w.span);
    FreshSnoc(live, now, now - w.span);
  }

  /** Attempts at one instant are admitted until max is reached. */
  lemma {:induction false} BurstAdmitted(w: Window, key: string, hist: seq<int>, now: int, victim: string, n: nat)
    requires w.span > 0 && |Live(w, key, now)| + n <= w.max && VictimPossible(w, key, now, victim)
    ensures Standing(w, key, hist, Burst(key, now, victim, n)) == hist + Times(now, n)
    ensures InOrder(now, Burst(key, now, victim, n)) && VictimsPossible(w, Burst(key, now, victim, n))
    decreases n
  {
    if n == 0 {
      assert hist + Times(now, 0) == hist;
    } else {
      BurstHead(key, now, victim, n);
      BurstStep(w, key, now, victim);
      BurstAdmitted(AllowAt(w, key, now, victim), key, hist + [now], now, victim, n - 1);
      assert hist + [now] + Times(now, n - 1) == hist + Times(now, n);
    }
  }

  lemma {:induction false} CountTimes(hist: seq<int>, now: int, n: nat, lo: int)
    requires lo < now
    ensures Count(hist + Times(now, n), lo, now) == Count(hist, lo, now) + n
  {
    if n == 0 {
      assert hist + Times(now, 0) == hist;
    } else {
      CountTimes(hist, now, n - 1, lo);
      assert hist + Times(now, n) == hist + Times(now, n - 1) + [now];
      CountSnoc(hist + Times(now, n - 1), now, lo, now);
    }
  }

  lemma AnyVictim(w: Window, key: string, now: int) returns (victim: string)
    ensures VictimPossible(w, key, now, victim)
  {
    victim := "";
    if Evicts(w, key, now) {
      var p := Pruned(w.seen, now - w.span);
      assert |p.Keys| == |p| > 0;
      victim :| victim in p;
    }
  }

  /** A limiter that has forgotten a key admits it max times more. */
  lemma Refill(w: Window, key: string, hist: seq<int>, now: int) returns (ops: seq<Op>)
    requires w.max > 0 && w.span > 0 && Samples(w, key) == []
    ensures InOrder(now, ops) && VictimsPossible(w, ops)
    ensures Load(Standing(w, key, hist, ops), w.span, now) == Load(hist, w.span, now) + w.max
  {
    var victim := AnyVictim(w, key, now);
    ops := Burst(key, now, victim, w.max);
    BurstAdmitted(w, key, hist, now, victim, w.max);
    CountTimes(hist, now, w.max, now - w.span);
  }

  /** An eviction that finds an unexpired sample always opens the ceiling: the key's next max attempts at
      the same instant are all admitted, on top of those still in the window. */
  lemma EvictingUnexpired(w: Window, key: string, hist: seq<int>, t: int, other: string, now: int)
    returns (ops: seq<Op>)
    requires Agrees(w, key, hist, t) && t <= now && w.max > 0
    requires key != other && Evicts(w, other, now) && Live(w, key, now) != []
    ensures InOrder(now, ops) && VictimsPossible(AllowAt(w, other, now, key), ops)
    ensures Load(Standing(AllowAt(w, other, now, key), key, hist, ops), w.span, now) > w.max
  {
    AgreesLater(w, key, hist, t, now);
    Evicted(w, key, other, now);
    ops := Refill(AllowAt(w, other, now, key), key, hist, now);
  }

  // ---------------------------------------------------------------- refunding an older admission

  /** The admissions whose owners have not been refunded: a refund takes back the owner's own admission,
      the one at `which`, while the limiter drops its newest sample. */
  function Refunded(own: seq<int>, which: nat): seq<int>
    requires which < |own|
  {
    own[..which] + own[which + 1..]
  }

  /** Taking away the sample at `which` counts one fewer wherever that sample counts. */
  lemma {:induction false} CountRefunded(own: seq<int>, which: nat, lo: int, hi: int)
    requires which < |own|
    ensures Count(Refunded(own, which), lo, hi) == Count(own, lo, hi) - (if lo < own[which] <= hi then 1 else 0)
    decreases |own|
  {
    var n := |own| - 1;
    if which == n {
      assert Refunded(own, which) == own[..n];
    } else {
      var front := own[..n];
      CountRefunded(front, which, lo, hi);
      assert Refunded(own, which) == Refunded(front, which) + [own[n]];
      CountSnoc(Refunded(front, which), own[n], lo, hi);
      assert Count(own, lo, hi) == Count(front, lo, hi) + (if lo < own[n] <= hi then 1 else 0);
    }
  }

  lemma {:induction false} SortedAt(s: seq<int>, t: int, i: nat)
    requires Sorted(s, t) && i < |s|
    ensures s[i] <= s[|s| - 1] <= t
    decreases |s|
  {
    if i < |s| - 1 { SortedAt(s[..|s| - 1], s[|s| - 1], i); }
  }

  /** From `now` on, what the limiter keeps counts like what is unrefunded. */
  ghost predicate SameLoads(own: seq<int>, which: nat, span: int, now: int)
    requires which < |own|
  {
    forall t :: now <= t ==> Load(Refunded(own, which), span, t) == Load(own[..|own| - 1], span, t)
  }

  /** The exact condition: dropping the newest sample for a refund of another one is correct from then on
      iff the two were admitted at the same instant or the newest has already expired. */
  lemma RefundExactly(own: seq<int>, which: nat, span: int, now: int)
    requires which < |own| && span > 0 && Sorted(own, now)
    ensures SameLoads(own, which, span, now) <==> own[which] == own[|own| - 1] || own[|own| - 1] <= now - span
  {
    var n := |own| - 1;
    SortedAt(own, now, which);
    forall t | now <= t
      ensures Load(Refunded(own, which), span, t) - Load(own[..n], span, t) ==
              (if own[which] <= t - span < own[n] then 1 else 0)
    {
      CountRefunded(own, which, t - span, t);
      CountRefunded(own, n, t - span, t);
      assert Refunded(own, n) == own[..n];
    }
    if own[which] != own[n] && own[n] > now - span {
      var t := if own[which] + span < now then now else own[which] + span;
      assert now <= t && own[which] <= t - span < own[n];
      assert Load(Refunded(own, which), span, t) != Load(own[..n], span, t);
    }
  }

  /** Whenever the condition fails the ceiling can be exceeded: after the refund, at some later instant,
      the limiter admits attempts that bring the unrefunded admissions of one window above max.  (With
      max 2 and span 100: A at 0, B at 50, A is refunded, C and D at 100 are admitted beside B.) */
  lemma OlderRefundBreaks(w: Window, key: string, own: seq<int>, which: nat, now: int) returns (t: int, ops: seq<Op>)
    requires w.max > 0 && Agrees(w, key, own, now) && Samples(w, key) != [] && which < |own|
    requires own[which] != own[|own| - 1] && own[|own| - 1] > now - w.span
    ensures now <= t && InOrder(t, ops) && VictimsPossible(CancelLatest(w, key), ops)
    ensures Load(Standing(CancelLatest(w, key), key, Refunded(own, which), ops), w.span, t) > w.max
  {
    var last := |own| - 1;
    SortedAt(own, now, which);
    t := if own[which] + w.span < now then now else own[which] + w.span;
    AgreesCancel(w, key, own, now);
    var w' := CancelLatest(w, key);
    AgreesLater(w', key, own[..last], now, t);
    var n := w.max - |Live(w', key, t)|;
    CountRefunded(own, which, t - w.span, t);
    CountRefunded(own, last, t - w.span, t);
    assert Refunded(own, last) == own[..last];
    Overfill(w', key, Refunded(own, which), t, n);
    var victim := AnyVictim(w', key, t);
    ops := Burst(key, t, victim, n);
    BurstAdmitted(w', key, Refunded(own, which), t, victim, n);
  }

  lemma Overfill(w: Window, key: string, own: seq<int>, t: int, n: nat)
    requires w.span > 0 && |Live(w, key, t)| + n == w.max && Load(own, w.span, t) > |Live(w, key, t)|
    ensures Load(own + Times(t, n), w.span, t) > w.max
  {
    CountTimes(own, t, n, t - w.span);
  }

  /** One call, where a Cancel refunds the admission at `which` of those not yet refunded. */
  function OwnStep(w: Window, key: string, own: seq<int>, op: Op, which: nat): seq<int> {
    if op == Cancel(key) && w.max > 0 then (if which < |own| then Refunded(own, which) else own)
    else StandingStep(w, key, own, op)
  }

  function Unrefunded(w: Window, key: string, own: seq<int>, ops: seq<Op>, which: seq<nat>): seq<int>
    requires |which| == |ops|
    decreases ops
  {
    if ops == [] then own
    else Unrefunded(Apply(w, ops[0]), key, OwnStep(w, key, own, ops[0], which[0]), ops[1..], which[1..])
  }

  /** Every refund is for an admission of the same instant as the newest one of the key. */
  predicate RefundsNewest(w: Window, key: string, own: seq<int>, ops: seq<Op>, which: seq<nat>)
    requires |which| == |ops|
    decreases ops
  {
    ops == [] ||
    ((ops[0] == Cancel(key) ==> Samples(w, key) != [] && which[0] < |own| && own[which[0]] == own[|own| - 1])
     && RefundsNewest(Apply(w, ops[0]), key, OwnStep(w, key, own, ops[0], which[0]), ops[1..], which[1..]))
  }

  lemma {:induction false} SameInstant(own: seq<int>, which: nat, t: int)
    requires which < |own| && Sorted(own, t) && own[which] == own[|own| - 1]
    ensures Refunded(own, which) == own[..|own| - 1]
    decreases |own|
  {
    var n := |own| - 1;
    if which < n {
      SortedAt(own[..n], own[n], which);
      SameInstant(own[..n], which, own[n]);
      assert Refunded(own, which) == Refunded(own[..n], which) + [own[n]];
      assert own[..n] == own[..n][..n - 1] + [own[n - 1]];
    }
  }

  /** The ceiling with each refund tied to its own admission: if every refund is for the newest instant,
      no window holds more than max admissions whose owners were not refunded. */
  lemma {:induction false} UnrefundedCapped(w: Window, key: string, own: seq<int>, t: int, ops: seq<Op>,
                                            which: seq<nat>)
    requires |which| == |ops| && w.max > 0 && Agrees(w, key, own, t) && Capped(own, w.max, w.span)
    requires InOrder(t, ops) && Spares(w, key, ops) && RefundsNewest(w, key, own, ops, which)
    ensures Capped(Unrefunded(w, key, own, ops, which), w.max, w.span)
    decreases ops
  {
    if ops != [] {
      var op := ops[0];
      if op == Cancel(key) { SameInstant(own, which[0], t); }
      assert OwnStep(w, key, own, op, which[0]) == StandingStep(w, key, own, op);
      StandingIsHistoryStep(w, key, own, t, op);
      CappedStep(w.max, w.span, key, own, t, op);
      StandingAgrees(w, key, own, t, op);
      UnrefundedCapped(Apply(w, op), key, StandingStep(w, key, own, op), Timed(op, t), ops[1..], which[1..]);
    }
  }
}
