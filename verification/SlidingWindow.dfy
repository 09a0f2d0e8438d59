/** The limiter as the program runs it: a map of sample lists changed in place, expired
    prefixes dropped by index loops, keys swept by iterating the map.  Each method is proved
    against the corresponding function of `Limiter`. */
module RateLimit {
  import opened Limiter

  class SlidingWindow {
    const max: int
    const span: int
    var maxKeys: int
    var seen: map<string, seq<int>>

    const DEFAULT_MAX_KEYS := 100_000

    ghost function View(): Window
      reads this
    {
      Window(max, span, maxKeys, seen)
    }

    constructor (max: int, span: int)
      ensures View() == Window(max, span, 100_000, map[])
    {
      this.max, this.span := max, span;
      maxKeys, seen := DEFAULT_MAX_KEYS, map[];
    }

    /** Index of the first sample after `cutoff`. */
    static method FirstFresh(samples: seq<int>, cutoff: int) returns (i: nat)
      ensures i <= |samples| && samples[i..] == Fresh(samples, cutoff)
    {
      i := 0;
      while i < |samples| && samples[i] <= cutoff
        invariant i <= |samples|
        invariant Fresh(samples[i..], cutoff) == Fresh(samples, cutoff)
      {
        assert samples[i..][1..] == samples[i + 1..];
        i := i + 1;
      }
    }

    method AllowAt(key: string, now: int) returns (ok: bool, ghost victim: string)
      modifies this`seen
      ensures ok == Admits(old(View()), key, now)
      ensures VictimPossible(old(View()), key, now, victim)
      ensures View() == Limiter.AllowAt(old(View()), key, now, victim)
    {
      victim := "";
      if max <= 0 { return true, victim; }
      var samples := if key in seen then seen[key] else [];
      var i := FirstFresh(samples, now - span);
      samples := samples[i..];
      if |samples| >= max {
        seen := seen[key := samples];
        return false, victim;
      }
      if key !in seen && maxKeys > 0 && |seen| >= maxKeys {
        PruneLocked(now);
        if |seen| >= maxKeys {
          assert |seen.Keys| == |seen|;
          var k :| k in seen.Keys;
          victim := k;
          seen := seen - {k};
        }
      }
      seen := seen[key := samples + [now]];
      ok := true;
    }

    method CancelLatest(key: string)
      modifies this`seen
      ensures View() == Limiter.CancelLatest(old(View()), key)
    {
      if max <= 0 || key !in seen || |seen[key]| == 0 { return; }
      var samples := seen[key];
      seen := if |samples| == 1 then seen - {key} else seen[key := samples[..|samples| - 1]];
    }

    /** The sweep over the map: fully expired keys go, the others lose their expired prefix. */
    method PruneLocked(now: int)
      modifies this`seen
      ensures seen == Pruned(old(seen), now - span)
    {
      var cutoff := now - span;
      var todo := seen.Keys;
      while todo != {}
        invariant todo <= old(seen).Keys
        invariant forall k :: k in todo ==> k in seen && seen[k] == old(seen)[k]
        invariant forall k :: k in old(seen) && k !in todo ==>
                    if Fresh(old(seen)[k], cutoff) == [] then k !in seen
                    else k in seen && seen[k] == Fresh(old(seen)[k], cutoff)
        invariant seen.Keys <= old(seen).Keys
        decreases |todo|
      {
        var k :| k in todo;
        var samples := seen[k];
        var i := FirstFresh(samples, cutoff);
        if i == |samples| {
          seen := seen - {k};
        } else if i > 0 {
          seen := seen[k := samples[i..]];
        }
        todo := todo - {k};
      }
    }

    method RetryAfterAt(key: string, now: int) returns (wait: int)
      modifies this`seen
      ensures wait == RetryWait(old(View()), key, now)
      ensures View() == Limiter.RetryAfterAt(old(View()), key, now)
    {
      if max <= 0 { return 0; }
      var samples := if key in seen then seen[key] else [];
      var i := FirstFresh(samples, now - span);
      if i > 0 {
        samples := samples[i..];
        seen := seen[key := samples];
      }
      if |samples| < max { return 0; }
      var d := samples[0] + span - now;
      return if d < 0 then 0 else d;
    }

    method SetMaxKeys(n: int)
      modifies this`maxKeys
      ensures View() == old(View()).(maxKeys := n)
    {
      maxKeys := n;
    }
  }
}
