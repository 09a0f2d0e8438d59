/** The few string operations of Go's standard library that the program relies on. */
module Strings {
  import opened Naming

  // ---------------------------------------------------------------- definitions

  /** unicode.IsSpace */
  predicate IsSpace(c: char) {
    var n := c as int;
    0x09 <= n <= 0x0D || n == 0x20 || n == 0x85 || n == 0xA0 || n == 0x1680 || 0x2000 <= n <= 0x200A
    || n == 0x2028 || n == 0x2029 || n == 0x202F || n == 0x205F || n == 0x3000
  }

  function TrimLeft(s: string): string {
    if s != [] && IsSpace(s[0]) then TrimLeft(s[1..]) else s
  }

  function TrimRight(s: string): string {
    if s != [] && IsSpace(s[|s| - 1]) then TrimRight(s[..|s| - 1]) else s
  }

  function TrimSpace(s: string): string { TrimRight(TrimLeft(s)) }

  /** Index of the first `c`, or -1. */
  function IndexOf(s: string, c: char): (i: int)
    ensures -1 <= i < |s|
    ensures i >= 0 ==> s[i] == c && c !in s[..i]
    ensures i < 0 ==> c !in s
  {
    if s == [] then -1
    else if s[0] == c then 0
    else
      var i := IndexOf(s[1..], c);
      if i < 0 then -1 else
        assert s[..i + 1] == [s[0]] + s[1..][..i];
        i + 1
  }

  function Split(s: string, sep: char): (parts: seq<string>)
    ensures |parts| > 0
    decreases |s|
  {
    var i := IndexOf(s, sep);
    if i < 0 then [s] else [s[..i]] + Split(s[i + 1..], sep)
  }

  function Join(parts: seq<string>, sep: char): string {
    if parts == [] then ""
    else if |parts| == 1 then parts[0]
    else parts[0] + [sep] + Join(parts[1..], sep)
  }

  function LowerChar(c: char): char { if 'A' <= c <= 'Z' then c + 32 as char else c }

  function Lower(s: string): (t: string)
    ensures |t| == |s|
  {
    seq(|s|, i requires 0 <= i < |s| => LowerChar(s[i]))
  }

  predicate IsDigit(c: char) { '0' <= c <= '9' }

  predicate AllDigits(s: string) { forall i :: 0 <= i < |s| ==> IsDigit(s[i]) }

  function Decimal(s: string): nat
    requires AllDigits(s)
  {
    if s == [] then 0 else Decimal(s[..|s| - 1]) * 10 + (s[|s| - 1] as int - '0' as int)
  }

  /** strconv.Atoi without the 64-bit bound: every caller also bounds the value. */
  function Atoi(s: string): Option<int> {
    var digits := if s != [] && (s[0] == '-' || s[0] == '+') then s[1..] else s;
    if digits == [] || !AllDigits(digits) then None
    else
      var v: int := Decimal(digits);
      Some(if s[0] == '-' then -v else v)
  }

  function Itoa(n: nat): (s: string)
    ensures s != [] && AllDigits(s)
  {
    if n < 10 then [('0' as int + n) as char] else Itoa(n / 10) + [('0' as int + n % 10) as char]
  }

  // ---------------------------------------------------------------- numbers

  lemma {:induction false} DecimalItoa(n: nat)
    ensures Decimal(Itoa(n)) == n
  {
    if n >= 10 {
      DecimalItoa(n / 10);
      assert Itoa(n)[..|Itoa(n)| - 1] == Itoa(n / 10);
    } else {
      assert Itoa(n)[..0] == [];
    }
  }

  lemma AtoiItoa(n: nat)
    ensures Atoi(Itoa(n)) == Some(n)
  {
    DecimalItoa(n);
    assert IsDigit(Itoa(n)[0]);
  }

  /** A decimal number may carry a sign; anything else that is not digits is no number. */
  lemma AtoiSigned(n: nat, s: string)
    ensures var v: int := n; Atoi("+" + Itoa(n)) == Some(v) && Atoi("-" + Itoa(n)) == Some(-v)
    ensures Atoi(s).Some? ==> s != "" && AllDigits(s[1..])
    ensures Atoi(s).Some? ==> IsDigit(s[0]) || ((s[0] == '+' || s[0] == '-') && |s| > 1)
  {
    AtoiItoa(n);
    assert ("+" + Itoa(n))[1..] == Itoa(n) && ("-" + Itoa(n))[1..] == Itoa(n);
    assert IsDigit(Itoa(n)[0]);
  }

  // ---------------------------------------------------------------- trimming

  lemma TrimDigits(s: string)
    requires s != [] && !IsSpace(s[0]) && !IsSpace(s[|s| - 1])
    ensures TrimSpace(s) == s
  {}

  lemma {:induction false} TrimLeftSnoc(s: string, c: char)
    ensures TrimLeft(s + [c]) == if TrimLeft(s) == [] && IsSpace(c) then [] else TrimLeft(s) + [c]
  {
    if s == [] {
      assert s + [c] == [c] && [c][1..] == [];
    } else {
      assert (s + [c])[1..] == s[1..] + [c];
      if IsSpace(s[0]) { TrimLeftSnoc(s[1..], c); }
    }
  }

  lemma TrimSpaceRight(s: string, c: char)
    requires IsSpace(c)
    ensures TrimSpace(s + [c]) == TrimSpace(s)
  {
    TrimLeftSnoc(s, c);
    assert (TrimLeft(s) + [c])[..|TrimLeft(s)|] == TrimLeft(s);
  }

  lemma TrimSpaceLeft(s: string, c: char)
    requires IsSpace(c)
    ensures TrimSpace([c] + s) == TrimSpace(s)
  {
    assert ([c] + s)[1..] == s;
  }

  // ---------------------------------------------------------------- splitting

  lemma IndexAtFirst(a: string, sep: char, b: string)
    requires sep !in a
    ensures IndexOf(a + [sep] + b, sep) == |a|
  {
    var s := a + [sep] + b;
    assert s[|a|] == sep && s[..|a|] == a;
    assert forall i :: 0 <= i < |a| ==> s[i] == a[i];
    assert forall i :: |a| < i <= |s| ==> s[..i][|a|] == sep;
  }

  lemma SplitAtFirst(a: string, sep: char, b: string)
    requires sep !in a
    ensures Split(a + [sep] + b, sep) == [a] + Split(b, sep)
  {
    var s := a + [sep] + b;
    IndexAtFirst(a, sep, b);
    assert s[..|a|] == a && s[|a| + 1..] == b;
  }

  /** A separator between two texts concatenates their parts. */
  lemma {:induction false} SplitConcat(a: string, sep: char, b: string)
    ensures Split(a + [sep] + b, sep) == Split(a, sep) + Split(b, sep)
    decreases |a|
  {
    var i := IndexOf(a, sep);
    if i < 0 {
      SplitAtFirst(a, sep, b);
    } else {
      var first, rest := a[..i], a[i + 1..];
      assert a + [sep] + b == first + [sep] + (rest + [sep] + b);
      SplitAtFirst(first, sep, rest + [sep] + b);
      SplitConcat(rest, sep, b);
      Reassociate(first, Split(rest, sep), Split(b, sep));
    }
  }

  lemma Reassociate(x: string, p: seq<string>, q: seq<string>)
    ensures [x] + (p + q) == ([x] + p) + q
  {}

  /** Joining parts that do not contain the separator is undone by splitting. */
  lemma {:induction false} SplitJoin(parts: seq<string>, sep: char)
    requires parts != [] && forall i :: 0 <= i < |parts| ==> sep !in parts[i]
    ensures Split(Join(parts, sep), sep) == parts
  {
    if |parts| > 1 {
      SplitConcat(parts[0], sep, Join(parts[1..], sep));
      SplitJoin(parts[1..], sep);
    }
  }

  lemma SplitConsSpace(c: char, s: string, sep: char)
    requires c != sep
    ensures Split([c] + s, sep) == [[c] + Split(s, sep)[0]] + Split(s, sep)[1..]
  {
    var t := [c] + s;
    var i := IndexOf(s, sep);
    assert t[1..] == s;
    if i >= 0 {
      assert t[..i + 1] == [c] + s[..i] && t[i + 2..] == s[i + 1..];
    }
  }

  /** A character that is not the separator lengthens the last part. */
  lemma {:induction false} SplitSnocSpace(s: string, c: char, sep: char)
    requires c != sep
    ensures Split(s + [c], sep) == Lengthened(Split(s, sep), c)
    decreases |s|
  {
    var i := IndexOf(s, sep);
    if i < 0 {
      assert sep !in s + [c];
    } else {
      var first, rest := s[..i], s[i + 1..];
      assert s + [c] == first + [sep] + (rest + [c]);
      SplitAtFirst(first, sep, rest + [c]);
      SplitSnocSpace(rest, c, sep);
      LengthenedCons(first, Split(rest, sep), c);
    }
  }

  function Lengthened(parts: seq<string>, c: char): seq<string>
    requires parts != []
  {
    parts[..|parts| - 1] + [parts[|parts| - 1] + [c]]
  }

  lemma LengthenedCons(x: string, parts: seq<string>, c: char)
    requires parts != []
    ensures Lengthened([x] + parts, c) == [x] + Lengthened(parts, c)
  {}

  // ---------------------------------------------------------------- what trimming leaves

  predicate AllSpace(s: string) { forall i :: 0 <= i < |s| ==> IsSpace(s[i]) }

  predicate Tight(t: string) { t == "" || (!IsSpace(t[0]) && !IsSpace(t[|t| - 1])) }

  lemma {:induction false} TrimLeftOf(a: string, s: string)
    requires AllSpace(a)
    ensures TrimLeft(a + s) == TrimLeft(s)
  {
    if a == "" {
      assert a + s == s;
    } else {
      TrimLeftOf(a[1..], s);
      assert (a + s)[1..] == a[1..] + s;
    }
  }

  lemma {:induction false} TrimRightOf(s: string, b: string)
    requires AllSpace(b)
    ensures TrimRight(s + b) == TrimRight(s)
    decreases |b|
  {
    if b == "" {
      assert s + b == s;
    } else {
      TrimRightOf(s, b[..|b| - 1]);
      assert (s + b)[..|s + b| - 1] == s + b[..|b| - 1];
    }
  }

  /** White space around a text that has none at its ends is what trimming removes. */
  lemma TrimmedExactly(a: string, t: string, b: string)
    requires AllSpace(a) && AllSpace(b) && Tight(t)
    ensures TrimSpace(a + t + b) == t
  {
    if t == "" {
      assert a + t + b == (a + b) + "";
      TrimLeftOf(a + b, "");
    } else {
      assert a + t + b == a + (t + b);
      TrimLeftOf(a, t + b);
      assert TrimLeft(t + b) == t + b;
      TrimRightOf(t, b);
    }
  }

  lemma {:induction false} TrimLeftShape(s: string) returns (a: string)
    ensures AllSpace(a) && s == a + TrimLeft(s)
    ensures TrimLeft(s) == "" || !IsSpace(TrimLeft(s)[0])
  {
    if s != [] && IsSpace(s[0]) {
      var rest := TrimLeftShape(s[1..]);
      a := [s[0]] + rest;
      var t := TrimLeft(s[1..]);
      assert s == [s[0]] + s[1..];
      assert [s[0]] + (rest + t) == a + t;
      assert TrimLeft(s) == t;
    } else {
      a := "";
    }
  }

  lemma {:induction false} TrimRightShape(s: string) returns (b: string)
    ensures AllSpace(b) && s == TrimRight(s) + b
    ensures TrimRight(s) == "" || !IsSpace(TrimRight(s)[|TrimRight(s)| - 1])
  {
    if s != [] && IsSpace(s[|s| - 1]) {
      var last := s[|s| - 1];
      var rest := TrimRightShape(s[..|s| - 1]);
      b := rest + [last];
      var t := TrimRight(s[..|s| - 1]);
      assert s == s[..|s| - 1] + [last];
      assert (t + rest) + [last] == t + b;
      assert TrimRight(s) == t;
    } else {
      b := "";
    }
  }

  /** Every text is white space around its trimmed part. */
  lemma TrimShape(s: string) returns (a: string, b: string)
    ensures AllSpace(a) && AllSpace(b) && Tight(TrimSpace(s)) && s == a + TrimSpace(s) + b
  {
    a := TrimLeftShape(s);
    b := TrimRightShape(TrimLeft(s));
    var t := TrimSpace(s);
    assert t != "" ==> t[0] == TrimLeft(s)[0];
    assert s == a + (t + b) == a + t + b;
  }

  /** In ASCII, white space is tab, line feed, vertical tab, form feed, carriage return and blank. */
  lemma AsciiSpace(c: char)
    requires c < 128 as char
    ensures IsSpace(c) <==> c in {9 as char, 10 as char, 11 as char, 12 as char, 13 as char, ' '}
  {}

  // ---------------------------------------------------------------- lines with comments

  /** `body` is what the line says: all of it, or what stands before its first '#'. */
  ghost predicate SaysLine(raw: string, body: string) {
    '#' !in body && (raw == body || exists note: string :: raw == body + ['#'] + note)
  }

  lemma {:induction false} TrimLeftKeeps(s: string, rest: string)
    requires rest != "" && !IsSpace(rest[0])
    ensures TrimLeft(s + rest) == TrimLeft(s) + rest
  {
    if s == "" {
      assert s + rest == rest;
    } else {
      assert (s + rest)[1..] == s[1..] + rest;
      if IsSpace(s[0]) { TrimLeftKeeps(s[1..], rest); }
    }
  }

  lemma {:induction false} TrimRightKeeps(s: string, rest: string)
    requires rest != "" && !IsSpace(rest[0])
    ensures exists tail: string :: TrimRight(s + rest) == s + [rest[0]] + tail
    decreases |rest|
  {
    var n := |rest| - 1;
    if IsSpace(rest[n]) {
      TrimRightKeeps(s, rest[..n]);
      assert (s + rest)[..|s + rest| - 1] == s + rest[..n];
    } else {
      assert s + rest == s + [rest[0]] + rest[1..];
    }
  }

  lemma TrimTwice(s: string)
    ensures TrimSpace(TrimLeft(s)) == TrimSpace(s) && TrimSpace(TrimSpace(s)) == TrimSpace(s)
  {
    var a := TrimLeftShape(s);
    var c, d := TrimShape(s);
    TrimmedExactly("", TrimSpace(s), "");
    assert "" + TrimSpace(s) + "" == TrimSpace(s);
  }

  /** A trimmed line with a comment still has its comment, after the trimmed start of what it says. */
  lemma TrimCommented(body: string, note: string) returns (tail: string)
    ensures TrimSpace(body + ['#'] + note) == TrimLeft(body) + ['#'] + tail
  {
    var rest := ['#'] + note;
    assert body + ['#'] + note == body + rest;
    TrimLeftKeeps(body, rest);
    TrimRightKeeps(TrimLeft(body), rest);
    tail :| TrimRight(TrimLeft(body) + rest) == TrimLeft(body) + ['#'] + tail;
  }
}
