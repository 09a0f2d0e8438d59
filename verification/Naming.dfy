/** Names on the wire (internal/control/proto.go): the shape of a `unique` and its label. */
module Naming {
  import opened Bytes

  datatype Option<+T> = None | Some(value: T)

  predicate LowerLetter(c: char) { 'a' <= c <= 'z' }

  predicate LowerOrDigit(c: char) { LowerLetter(c) || '0' <= c <= '9' }

  /** ^[a-z][a-z0-9-]{1,52}[a-z0-9]$ */
  predicate ValidUnique(s: Str) {
    && 3 <= |s| <= 54
    && LowerLetter(s[0])
    && LowerOrDigit(s[|s| - 1])
    && forall i :: 0 < i < |s| - 1 ==> LowerOrDigit(s[i]) || s[i] == '-'
  }

  const TUNNEL_SUFFIX: Str := "-tunnel"

  function TunnelLabel(unique: Str): Str { unique + TUNNEL_SUFFIX }

  predicate Inner(s: Str) {
    forall i :: 0 <= i < |s| ==> 'a' <= s[i] <= 'z' || '0' <= s[i] <= '9' || s[i] == '-'
  }

  /** The pattern, part by part: a letter, one to fifty-two letters, digits or hyphens, a letter or digit. */
  ghost predicate Matches(s: Str) {
    exists first: char, inner: Str, last: char ::
      && s == [first] + inner + [last] && 1 <= |inner| <= 52 && Inner(inner)
      && 'a' <= first <= 'z' && ('a' <= last <= 'z' || '0' <= last <= '9')
  }

  lemma ValidIsPattern(s: Str)
    ensures ValidUnique(s) <==> Matches(s)
  {
    if ValidUnique(s) {
      var inner := s[1..|s| - 1];
      assert s == [s[0]] + inner + [s[|s| - 1]];
      assert Inner(inner);
    }
    if Matches(s) {
      var first: char, inner: Str, last: char :|
        && s == [first] + inner + [last] && 1 <= |inner| <= 52 && Inner(inner)
        && 'a' <= first <= 'z' && ('a' <= last <= 'z' || '0' <= last <= '9');
      forall i | 0 < i < |s| - 1 ensures LowerOrDigit(s[i]) || s[i] == '-' { assert s[i] == inner[i - 1]; }
    }
  }

  /** Different names never share a label, and a label has no dot and fits a DNS label. */
  lemma LabelsAreDistinct(u: Str, v: Str)
    ensures TunnelLabel(u) == u + "-tunnel"
    ensures TunnelLabel(u) == TunnelLabel(v) ==> u == v
    ensures ValidUnique(u) ==> |TunnelLabel(u)| <= 63 && '.' !in TunnelLabel(u)
  {
    assert u == TunnelLabel(u)[..|TunnelLabel(u)| - 7] && v == TunnelLabel(v)[..|TunnelLabel(v)| - 7];
    if ValidUnique(u) {
      forall i | 0 <= i < |TunnelLabel(u)| ensures TunnelLabel(u)[i] != '.' {
        assert i < |u| ==> TunnelLabel(u)[i] == u[i];
      }
    }
  }
}

/** Which certificate failures are worth a refund (internal/cert/errors.go). */
module CertErrors {
  import opened Bytes
  import opened Naming

  /** An error chain as the classifier sees it: whether it wraps ErrOrderLimit, the ACME
      problem type it carries if any, and its text. */
  datatype CertError = CertError(orderLimit: bool, problem: Option<string>, text: string)

  const RATE_LIMITED := "urn:ietf:params:acme:error:rateLimited"
  const NOT_PROVISIONED := "cert not provisioned"

  predicate Contains(s: string, t: string) {
    t <= s || (s != [] && Contains(s[1..], t))
  }

  predicate IsPermanent(e: CertError) {
    e.orderLimit || e.problem == Some(RATE_LIMITED) || Contains(e.text, RATE_LIMITED) || NOT_PROVISIONED <= e.text
  }
}
