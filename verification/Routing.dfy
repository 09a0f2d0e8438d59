/** Browser requests: how the server picks a session from the Host header, and how the client
    picks a local port from the same header. */
module Routing {
  import opened Bytes
  import opened Naming
  import opened Strings
  import opened PortPolicy
  import P = Protocol
  import S = ProtocolSafety

  function CutColon(s: string): string {
    var i := IndexOf(s, ':');
    if i >= 0 then s[..i] else s
  }

  function TrimDot(s: string): string {
    if s != [] && s[|s| - 1] == '.' then s[..|s| - 1] else s
  }

  /** Lower case, one trailing dot dropped, port cut off. */
  function NormalizeHost(s: string): string { CutColon(TrimDot(Lower(s))) }

  /** What the client dials: the label left of the first dot, or nothing. */
  function PortFromHost(h: string): string {
    var n := NormalizeHost(h);
    var dot := IndexOf(n, '.');
    if dot < 0 then "" else n[..dot]
  }

  datatype Decision =
    | Fallback                     // not a tunnel name
    | PortDenied                   // 404 port not allowed
    | Offline(name: string)        // 502 no client connected
    | Forward(port: string, name: string)

  predicate HasSuffix(s: string, t: string) { |s| >= |t| && s[|s| - |t|..] == t }

  /** The gate on the port label; no policy permits everything. */
  predicate PortOk(policy: Option<Policy>, port: string) {
    policy.None? || (Atoi(port).Some? && 1 <= Atoi(port).value <= 65535 && Permits(policy.value, Atoi(port).value))
  }

  function Dispatch(live: map<Str, P.Session>, policy: Option<Policy>, rest: string): Decision {
    var dot := IndexOf(rest, '.');
    if dot < 0 then Fallback
    else
      var port, name := rest[..dot], rest[dot + 1..];
      if !HasSuffix(name, TUNNEL_SUFFIX) then Fallback
      else if !PortOk(policy, port) then PortDenied
      else if name !in live then Offline(name)
      else Forward(port, name)
  }

  function Route(live: map<Str, P.Session>, apex: string, policy: Option<Policy>, header: string): Decision {
    var host := NormalizeHost(header);
    var suffix := "." + Lower(apex);
    if !HasSuffix(host, suffix) then Fallback
    else Dispatch(live, policy, host[..|host| - |suffix|])
  }

  /** A dotted pair is dispatched by its first label. */
  lemma DispatchPair(live: map<Str, P.Session>, policy: Option<Policy>, port: string, name: string)
    requires '.' !in port
    ensures Dispatch(live, policy, port + ['.'] + name) == Forward(port, name) <==>
            HasSuffix(name, TUNNEL_SUFFIX) && PortOk(policy, port) && name in live
  {
    var rest := port + ['.'] + name;
    IndexAtFirst(port, '.', name);
    assert rest[..|port|] == port && rest[|port| + 1..] == name;
  }

  lemma ForwardSplits(live: map<Str, P.Session>, policy: Option<Policy>, rest: string, port: string, name: string)
    requires Dispatch(live, policy, rest) == Forward(port, name)
    ensures '.' !in port && rest == port + ['.'] + name
  {
    var dot := IndexOf(rest, '.');
    assert rest == rest[..dot] + ['.'] + rest[dot + 1..];
  }

  /** The server forwards exactly the hosts port.label.apex whose label is live and whose port
      the policy in force permits. */
  lemma RouteForwards(live: map<Str, P.Session>, apex: string, policy: Option<Policy>, header: string, port: string,
                      name: string)
    ensures Route(live, apex, policy, header) == Forward(port, name) <==>
            && NormalizeHost(header) == port + ['.'] + name + ("." + Lower(apex)) && '.' !in port
            && HasSuffix(name, TUNNEL_SUFFIX) && PortOk(policy, port) && name in live
  {
    var host := NormalizeHost(header);
    var suffix := "." + Lower(apex);
    if Route(live, apex, policy, header) == Forward(port, name) {
      var rest := host[..|host| - |suffix|];
      assert host == rest + suffix;
      ForwardSplits(live, policy, rest, port, name);
      DispatchPair(live, policy, port, name);
    }
    if host == port + ['.'] + name + suffix && '.' !in port {
      assert host[..|host| - |suffix|] == port + ['.'] + name && host[|host| - |suffix|..] == suffix;
      DispatchPair(live, policy, port, name);
    }
  }

  // ---------------------------------------------------------------- what normalising does to a header

  /** `low` has no capital letter, and `s` is the same text, perhaps with some. */
  predicate CaseOf(s: string, low: string) {
    && |s| == |low|
    && forall i :: 0 <= i < |low| ==>
         && !('A' <= low[i] <= 'Z')
         && (s[i] == low[i] || ('A' <= s[i] <= 'Z' && s[i] as int - 'A' as int == low[i] as int - 'a' as int))
  }

  lemma CaseIsLowered(s: string, low: string)
    requires CaseOf(s, low)
    ensures Lower(s) == low
  {}

  /** A host name without port and final dot. */
  predicate Plain(host: string) {
    ':' !in host && (host == "" || host[|host| - 1] != '.')
  }

  /** The header spells the host: in any case, and as it is, with a final dot, or with a port. */
  ghost predicate Spells(header: string, host: string) {
    exists core: string :: CaseOf(core, host) &&
      (header == core || header == core + "." || exists tail: string :: header == core + ":" + tail)
  }

  lemma LowerAppend(a: string, b: string)
    ensures Lower(a + b) == Lower(a) + Lower(b)
  {}

  lemma LowerMark(c: char)
    requires c == '.' || c == ':'
    ensures Lower([c]) == [c]
  {}

  lemma CutPlain(host: string)
    requires ':' !in host
    ensures CutColon(host) == host
  {}

  lemma CutAtColon(host: string, tail: string)
    requires ':' !in host
    ensures CutColon(host + [':'] + tail) == host
  {
    IndexAtFirst(host, ':', tail);
    assert (host + [':'] + tail)[..|host|] == host;
  }

  lemma SpelledWithPort(core: string, host: string, tail: string)
    requires Plain(host) && Lower(core) == host
    ensures NormalizeHost(core + ":" + tail) == host
  {
    var header := core + ":" + tail;
    LowerAppend(core + ":", tail);
    LowerAppend(core, ":");
    LowerMark(':');
    var low := host + [':'] + Lower(tail);
    assert Lower(header) == low;
    assert tail == "" ==> low[|low| - 1] == ':';
    var rest := if TrimDot(low) == low then Lower(tail) else Lower(tail)[..|tail| - 1];
    if TrimDot(low) != low {
      assert low[..|low| - 1] == host + [':'] + rest;
    }
    assert TrimDot(low) == host + [':'] + rest;
    CutAtColon(host, rest);
  }

  /** Normalising a spelling of a host gives the host, and gives nothing else. */
  lemma NormalizesSpelling(header: string, host: string)
    requires Plain(host) && Spells(header, host)
    ensures NormalizeHost(header) == host
  {
    var core: string :| CaseOf(core, host) &&
      (header == core || header == core + "." || exists tail: string :: header == core + ":" + tail);
    CaseIsLowered(core, host);
    if header == core {
      CutPlain(host);
    } else if header == core + "." {
      LowerAppend(core, ".");
      LowerMark('.');
      assert Lower(header) == host + ['.'];
      assert (host + ['.'])[..|host|] == host;
      CutPlain(host);
    } else {
      var tail: string :| header == core + ":" + tail;
      SpelledWithPort(core, host, tail);
    }
  }

  lemma DispatchExactly(live: map<Str, P.Session>, policy: Option<Policy>, port: string, name: string)
    requires '.' !in port && '.' !in name
    ensures Dispatch(live, policy, port + ['.'] + name) ==
            if !HasSuffix(name, "-tunnel") then Fallback
            else if !PortOk(policy, port) then PortDenied
            else if name in live then Forward(port, name)
            else Offline(name)
  {
    var rest := port + ['.'] + name;
    IndexAtFirst(port, '.', name);
    assert rest[..|port|] == port && rest[|port| + 1..] == name;
  }

  /** On the header itself: port.label.apex, in any case, with an optional final dot or port, is forwarded iff
      it is a tunnel's label, the policy permits the port and the label is live; it is answered 502 iff only
      the last fails, 404 iff the port is not permitted, and is left to the fallback iff the label is no tunnel's. */
  lemma RouteOnHeader(live: map<Str, P.Session>, apex: string, low: string, policy: Option<Policy>, header: string,
                      port: string, name: string)
    requires CaseOf(apex, low) && '.' !in port && '.' !in name && Plain(port + ['.'] + name + ("." + low))
    requires Spells(header, port + ['.'] + name + ("." + low))
    ensures Route(live, apex, policy, header) ==
            if !HasSuffix(name, "-tunnel") then Fallback
            else if !PortOk(policy, port) then PortDenied
            else if name in live then Forward(port, name)
            else Offline(name)
  {
    CaseIsLowered(apex, low);
    var suffix := "." + low;
    var host := port + ['.'] + name + suffix;
    NormalizesSpelling(header, host);
    assert host[..|host| - |suffix|] == port + ['.'] + name && host[|host| - |suffix|..] == suffix;
    DispatchExactly(live, policy, port, name);
  }

  /** The gate on a port written in decimal: no policy permits every port, a policy the ports it permits. */
  lemma PortLabel(policy: Option<Policy>, n: nat)
    requires 1 <= n <= 65535
    ensures PortOk(policy, Itoa(n)) <==> policy.None? || Permits(policy.value, n)
  {
    AtoiItoa(n);
  }

  /** A header that ends in no ".apex" is left to the fallback. */
  lemma OtherHosts(live: map<Str, P.Session>, apex: string, low: string, policy: Option<Policy>, header: string,
                   host: string)
    requires CaseOf(apex, low) && Plain(host) && Spells(header, host) && !HasSuffix(host, "." + low)
    ensures Route(live, apex, policy, header) == Fallback
  {
    CaseIsLowered(apex, low);
    NormalizesSpelling(header, host);
  }

  /** Both ends read the same port label out of the same header. */
  lemma ClientDialsCheckedPort(header: string, port: string, rest: string)
    requires NormalizeHost(header) == port + ['.'] + rest && '.' !in port
    ensures PortFromHost(header) == port
  {
    IndexAtFirst(port, '.', rest);
    assert (port + ['.'] + rest)[..|port|] == port;
  }

  /** On the header itself: the client dials the first label of a dotted host, in any spelling, and nothing for a
      host without a dot. */
  lemma ClientDialsFirstLabel(header: string, port: string, rest: string, host: string)
    requires Plain(host) && Spells(header, host)
    ensures '.' !in port && host == port + ['.'] + rest ==> PortFromHost(header) == port
    ensures '.' !in host ==> PortFromHost(header) == ""
  {
    NormalizesSpelling(header, host);
    if '.' !in port && host == port + ['.'] + rest { ClientDialsCheckedPort(header, port, rest); }
  }

  /** In every reachable state, whatever the Host header: a request handed to a live session
      was for port.label.apex with the label of a valid name, on a port the policy permits,
      and the client will dial the very port label the server checked. */
  lemma ForwardedRequests(cfg: P.Config, r: P.Run, policy: Policy, header: string, port: string, name: string)
    requires P.Valid(cfg, r)
    requires Route(P.Exec(cfg, r).sh.live, cfg.apex, Some(policy), header) == Forward(port, name)
    ensures NormalizeHost(header) == port + ['.'] + name + ("." + Lower(cfg.apex))
    ensures exists u: Str :: ValidUnique(u) && name == TunnelLabel(u)
    ensures Atoi(port).Some? && 1 <= Atoi(port).value <= 65535 && Permits(policy, Atoi(port).value)
    ensures PortFromHost(header) == port
  {
    var w := P.Exec(cfg, r);
    RouteForwards(w.sh.live, cfg.apex, Some(policy), header, port, name);
    var suffix := "." + Lower(cfg.apex);
    assert port + ['.'] + name + suffix == port + ['.'] + (name + suffix);
    ClientDialsCheckedPort(header, port, name + suffix);
    S.LiveSessionsOwned(cfg, r);
    assert S.SessionOk(w, name);
  }
}
