/** The port policy as the program runs it: the parsing, deciding and printing loops, and the
    reloadable set read from a file. */
module PortSet {
  import opened Naming
  import opened Strings
  import opened PortPolicy

  // ---------------------------------------------------------------- the loops

  lemma CollectNext(raws: seq<string>, i: nat, piece: Piece)
    requires i < |raws| && piece == ReadPiece(raws[i])
    ensures Collect(raws[..i + 1]) == AddPiece(Collect(raws[..i]), piece)
    ensures Faulty(raws[..i + 1]) <==> Faulty(raws[..i]) || piece.Bad?
  {
    assert raws[..i + 1] == raws[..i] + [raws[i]];
    CoveredConcat(raws[..i], [raws[i]], 0);
    assert Faulty([raws[i]]) <==> ReadPiece([raws[i]][0]).Bad?;
  }

  lemma FaultyPrefix(raws: seq<string>, i: nat)
    requires i <= |raws| && Faulty(raws[..i])
    ensures Faulty(raws)
  {
    assert raws == raws[..i] + raws[i..];
    CoveredConcat(raws[..i], raws[i..], 0);
  }

  /** The parsing loop: fills a set and a list piece by piece, stops at the first bad one. */
  method CollectPieces(raws: seq<string>) returns (r: Option<Policy>)
    ensures r == if Faulty(raws) then None else Some(Collect(raws))
  {
    var p := EMPTY;
    var i := 0;
    while i < |raws|
      invariant 0 <= i <= |raws|
      invariant p == Collect(raws[..i]) && !Faulty(raws[..i])
    {
      var piece := ReadPiece(raws[i]);
      CollectNext(raws, i, piece);
      if piece.Bad? {
        FaultyPrefix(raws, i + 1);
        return None;
      }
      p := AddPiece(p, piece);
      i := i + 1;
    }
    assert raws[..i] == raws;
    return Some(p);
  }

  method Parse(spec: string) returns (r: Option<Policy>)
    ensures r == ParseSpec(spec)
  {
    var t := TrimSpace(spec);
    if t == "" { return Some(EMPTY); }
    if IsAll(spec) { return Some(ALLOW_ALL); }
    r := CollectPieces(Split(t, ','));
  }

  /** Permits: set membership, then a scan of the ranges. */
  method Allows(p: Policy, port: int) returns (ok: bool)
    ensures ok == Permits(p, port)
  {
    if p.all || port in p.single { return true; }
    var i := 0;
    while i < |p.ranges|
      invariant 0 <= i <= |p.ranges|
      invariant forall j :: 0 <= j < i ==> !(p.ranges[j].0 <= port <= p.ranges[j].1)
    {
      if p.ranges[i].0 <= port <= p.ranges[i].1 {
        InRangesAt(p.ranges, port, i);
        return true;
      }
      i := i + 1;
    }
    if InRanges(p.ranges, port) {
      ghost var j := InRangesIndex(p.ranges, port);
      assert false;
    }
    return false;
  }

  lemma HasElement(s: set<int>)
    requires s != {}
    ensures exists n :: n in s
  {
    assert (forall n :: n !in s) ==> s == {};
  }

  /** Some order of iterating a set. */
  method Iterate(ports: set<int>) returns (order: seq<int>)
    ensures Lists(order, ports) && |order| == |ports|
  {
    var todo := ports;
    order := [];
    while todo != {}
      invariant todo <= ports && |order| + |todo| == |ports|
      invariant forall n :: n in order <==> n in ports && n !in todo
      decreases |todo|
    {
      HasElement(todo);
      var n :| n in todo;
      order, todo := order + [n], todo - {n};
    }
  }

  /** The text parses back to a policy that permits the same ports, if it parses at all. */
  ghost predicate ReadsBack(s: string, p: Policy) {
    ParseSpec(s).Some? ==> forall port :: Permits(ParseSpec(s).value, port) <==> Permits(p, port)
  }

  /** String: each single port once, in whatever order iteration yields them, then the ranges. */
  method Format(p: Policy) returns (s: string, ghost order: seq<int>)
    requires WellFormed(p)
    ensures Lists(order, p.single) && |order| == |p.single| && PortsInRange(order)
    ensures s == Text(p, order)
    ensures p.all ==> s == "all ports (unrestricted)"
    ensures !p.all && p.single == {} && p.ranges == [] ==> s == "deny-all (empty policy)"
    ensures ReadsBack(s, p) && (ParseSpec(s).Some? <==> !p.all && (p.single != {} || p.ranges != []))
  {
    s, order := Render(p);
    PrintThenParse(p, order);
  }

  /** The printing loop. */
  method Render(p: Policy) returns (s: string, ghost order: seq<int>)
    requires WellFormed(p)
    ensures Lists(order, p.single) && |order| == |p.single| && PortsInRange(order)
    ensures s == Text(p, order)
  {
    var singles := Iterate(p.single);
    order := singles;
    assert PortsInRange(singles) by { assert forall i :: 0 <= i < |singles| ==> singles[i] in singles; }
    if p.all { return ALL_TEXT, order; }
    var parts: seq<string> := [];
    var i := 0;
    while i < |singles| + |p.ranges|
      invariant 0 <= i <= |singles| + |p.ranges|
      invariant parts == Parts(singles, p.ranges)[..i]
    {
      assert Parts(singles, p.ranges)[..i + 1] == Parts(singles, p.ranges)[..i] + [PartAt(singles, p.ranges, i)];
      parts := parts + [if i < |singles| then Itoa(singles[i]) else RangeText(p.ranges[i - |singles|])];
      i := i + 1;
    }
    assert parts == Parts(singles, p.ranges);
    s := if parts == [] then EMPTY_TEXT else Join(parts, ',');
  }

  // ---------------------------------------------------------------- files

  function CleanLine(raw: string): string {
    var i := IndexOf(raw, '#');
    TrimSpace(if i >= 0 then raw[..i] else raw)
  }

  /** The lines that say something, without comments and surrounding white space. */
  function Lines(raws: seq<string>): seq<string> {
    if raws == [] then []
    else
      var n := |raws| - 1;
      Lines(raws[..n]) + (if CleanLine(raws[n]) == "" then [] else [CleanLine(raws[n])])
  }

  function FileSpec(text: string): string { Join(Lines(Split(text, '\n')), ',') }

  /** readFileSpec: builds the list line by line. */
  method ReadFileSpec(text: string) returns (spec: string)
    ensures spec == FileSpec(text)
  {
    var raws := Split(text, '\n');
    var parts: seq<string> := [];
    var i := 0;
    while i < |raws|
      invariant 0 <= i <= |raws|
      invariant parts == Lines(raws[..i])
    {
      assert raws[..i + 1][..i] == raws[..i];
      var line := CleanLine(raws[i]);
      if line != "" { parts := parts + [line]; }
      i := i + 1;
    }
    assert raws[..i] == raws;
    return Join(parts, ',');
  }

  predicate AllParse(lines: seq<string>) {
    lines == [] || (ParseSpec(lines[0]).Some? && AllParse(lines[1..]))
  }

  /** Some line permits the port. */
  predicate SomePermits(lines: seq<string>, port: int)
    requires AllParse(lines)
  {
    lines != [] && (Permits(ParseSpec(lines[0]).value, port) || SomePermits(lines[1..], port))
  }

  /** A file whose lines are not `all` permits exactly the union of its lines, and one bad
      line makes the whole file fail. */
  lemma {:induction false} FileIsUnion(lines: seq<string>, port: int)
    requires forall i :: 0 <= i < |lines| ==> !IsAll(lines[i])
    ensures !IsAll(Join(lines, ','))
    ensures ParseSpec(Join(lines, ',')).Some? <==> AllParse(lines)
    ensures AllParse(lines) ==> (Permits(ParseSpec(Join(lines, ',')).value, port) <==> SomePermits(lines, port))
    decreases lines
  {
    if |lines| == 0 {
      assert TrimSpace("") == "" && |Lower("")| == 0;
    } else if |lines| == 1 {
      assert lines[1..] == [];
    } else {
      FileIsUnion(lines[1..], port);
      JoinIsUnion(lines[0], Join(lines[1..], ','), port);
      CommaIsNotAll(lines[0], Join(lines[1..], ','));
    }
  }

  // ---------------------------------------------------------------- a file, from its text

  lemma {:induction false} AllParseAt(lines: seq<string>)
    ensures AllParse(lines) <==> forall i :: 0 <= i < |lines| ==> ParseSpec(lines[i]).Some?
  {
    if lines != [] {
      AllParseAt(lines[1..]);
      assert forall i :: 1 <= i < |lines| ==> lines[i] == lines[1..][i - 1];
      assert forall i :: 0 <= i < |lines| - 1 ==> lines[1..][i] == lines[i + 1];
    }
  }

  lemma {:induction false} SomePermitsAt(lines: seq<string>, port: int)
    requires AllParse(lines)
    ensures SomePermits(lines, port) <==>
            exists i :: 0 <= i < |lines| && ParseSpec(lines[i]).Some? && Permits(ParseSpec(lines[i]).value, port)
  {
    if lines != [] {
      SomePermitsAt(lines[1..], port);
      assert forall i :: 1 <= i < |lines| ==> lines[i] == lines[1..][i - 1];
      assert forall i :: 0 <= i < |lines| - 1 ==> lines[1..][i] == lines[i + 1];
    }
  }

  /** The cleaned lines are the trimmed texts before the comments, without the blank ones. */
  lemma {:induction false} LinesAre(raws: seq<string>)
    ensures forall j :: 0 <= j < |Lines(raws)| ==> Lines(raws)[j] != "" && FromLine(raws, Lines(raws)[j])
    ensures forall i :: 0 <= i < |raws| && CleanLine(raws[i]) != "" ==> CleanLine(raws[i]) in Lines(raws)
  {
    if raws != [] {
      var n := |raws| - 1;
      LinesAre(raws[..n]);
      forall j | 0 <= j < |Lines(raws)| ensures Lines(raws)[j] != "" && FromLine(raws, Lines(raws)[j]) {
        if j < |Lines(raws[..n])| {
          assert FromLine(raws[..n], Lines(raws[..n])[j]);
          var i :| 0 <= i < n && CleanLine(raws[..n][i]) == Lines(raws)[j];
          assert CleanLine(raws[i]) == Lines(raws)[j];
        } else {
          assert CleanLine(raws[n]) == Lines(raws)[j];
        }
      }
      forall i | 0 <= i < |raws| && CleanLine(raws[i]) != "" ensures CleanLine(raws[i]) in Lines(raws) {
        if i < n { assert raws[..n][i] == raws[i]; }
      }
    }
  }

  predicate FromLine(raws: seq<string>, line: string) {
    exists i :: 0 <= i < |raws| && CleanLine(raws[i]) == line
  }

  lemma CleanSays(raw: string, body: string)
    requires SaysLine(raw, body)
    ensures CleanLine(raw) == TrimSpace(body)
  {
    if raw != body {
      var note: string :| raw == body + ['#'] + note;
      IndexAtFirst(body, '#', note);
      assert raw[..|body|] == body;
    }
  }

  lemma TrimmedParses(s: string)
    ensures ParseSpec(TrimSpace(s)) == ParseSpec(s) && IsAll(TrimSpace(s)) == IsAll(s)
  {
    TrimTwice(s);
  }

  lemma BlankParses(s: string, port: int)
    requires TrimSpace(s) == ""
    ensures ParseSpec(s).Some? && !Permits(ParseSpec(s).value, port)
  {}

  ghost predicate AllSay(raws: seq<string>, bodies: seq<string>) {
    && |raws| == |bodies| > 0
    && forall i :: 0 <= i < |raws| ==> '\n' !in raws[i] && SaysLine(raws[i], bodies[i]) && !SpellsAll(bodies[i])
  }

  ghost predicate BodiesParse(bodies: seq<string>) {
    forall i :: 0 <= i < |bodies| ==> ParseSpec(bodies[i]).Some?
  }

  ghost predicate SomeBodyPermits(bodies: seq<string>, port: int) {
    exists i :: 0 <= i < |bodies| && ParseSpec(bodies[i]).Some? && Permits(ParseSpec(bodies[i]).value, port)
  }

  lemma LinesSayBodies(raws: seq<string>, bodies: seq<string>, port: int)
    requires AllSay(raws, bodies)
    ensures forall j :: 0 <= j < |Lines(raws)| ==> !IsAll(Lines(raws)[j])
    ensures AllParse(Lines(raws)) <==> BodiesParse(bodies)
    ensures AllParse(Lines(raws)) ==> (SomePermits(Lines(raws), port) <==> SomeBodyPermits(bodies, port))
  {
    var lines := Lines(raws);
    LinesAre(raws);
    AllParseAt(lines);
    if AllParse(lines) { SomePermitsAt(lines, port); }
    forall i | 0 <= i < |raws|
      ensures CleanLine(raws[i]) == TrimSpace(bodies[i]) && ParseSpec(TrimSpace(bodies[i])) == ParseSpec(bodies[i])
      ensures !IsAll(TrimSpace(bodies[i]))
    {
      CleanSays(raws[i], bodies[i]);
      TrimmedParses(bodies[i]);
      AllIsSpelled(bodies[i]);
    }
    forall j | 0 <= j < |lines| ensures exists i :: 0 <= i < |bodies| && lines[j] == TrimSpace(bodies[i]) {
      assert FromLine(raws, lines[j]);
      var i :| 0 <= i < |raws| && CleanLine(raws[i]) == lines[j];
      assert lines[j] == TrimSpace(bodies[i]);
    }
    forall i | 0 <= i < |bodies| && TrimSpace(bodies[i]) == ""
      ensures ParseSpec(bodies[i]).Some? && !Permits(ParseSpec(bodies[i]).value, port)
    {
      BlankParses(bodies[i], port);
    }
    forall i | 0 <= i < |bodies| && TrimSpace(bodies[i]) != "" ensures TrimSpace(bodies[i]) in lines {
      assert CleanLine(raws[i]) in lines;
    }
  }

  /** A policy file, from its text: the lines between line feeds, each with an optional comment, permit exactly
      the union of what they permit, and one bad line makes the whole file fail; no line says `all`. */
  lemma FileTextMeans(raws: seq<string>, bodies: seq<string>, port: int)
    requires AllSay(raws, bodies)
    ensures var policy := ParseSpec(FileSpec(Join(raws, '\n')));
            && (policy.Some? <==> BodiesParse(bodies))
            && (policy.Some? ==> (Permits(policy.value, port) <==> SomeBodyPermits(bodies, port)))
  {
    SplitJoin(raws, '\n');
    LinesSayBodies(raws, bodies, port);
    FileIsUnion(Lines(raws), port);
  }

  /** `all` next to anything else is an error, not a permission. */
  lemma AllAmongOthersFails(a: string, b: string)
    requires IsAll(a) || IsAll(b)
    ensures ParseSpec(a + [','] + b).None?
  {
    CommaIsNotAll(a, b);
    SplitConcat(a, ',', b);
    CoveredConcat(Split(a, ','), Split(b, ','), 0);
    if IsAll(a) { AllIsFaulty(a); } else { AllIsFaulty(b); }
    ParseMeaning(a + [','] + b);
  }

  lemma AllIsFaulty(s: string)
    requires IsAll(s)
    ensures Faulty(Split(s, ','))
  {
    AllHasNoComma(s);
    AllIsNoPiece(s);
    assert ReadPiece(Split(s, ',')[0]).Bad?;
  }

  // ---------------------------------------------------------------- the reloadable set

  class Set {
    var policy: Policy
    var spec: string
    const fromFile: bool

    constructor (policy: Policy, spec: string, fromFile: bool)
      ensures this.policy == policy && this.spec == spec && this.fromFile == fromFile
    {
      this.policy, this.spec, this.fromFile := policy, spec, fromFile;
    }

    /** Reload: a file that cannot be read (None) or parsed leaves the policy in force. */
    method Reload(text: Option<string>) returns (ok: bool, changed: bool)
      modifies this
      ensures ok == (!fromFile || (text.Some? && ParseSpec(FileSpec(text.value)).Some?))
      ensures fromFile && ok ==> Some(policy) == ParseSpec(FileSpec(text.value)) && spec == FileSpec(text.value)
      ensures !fromFile || !ok ==> policy == old(policy) && spec == old(spec) && !changed
      ensures changed ==> spec != old(spec)
      ensures fromFile && ok && spec != old(spec) ==> changed
    {
      if !fromFile { return true, false; }
      if text.None? { return false, false; }
      var next := ReadFileSpec(text.value);
      var p := Parse(next);
      if p.None? { return false, false; }
      changed := next != spec;
      policy, spec := p.value, next;
      ok := true;
    }
  }

  method LoadInline(spec: string) returns (r: Option<Set>)
    ensures r.Some? <==> ParseSpec(spec).Some?
    ensures r.Some? ==> fresh(r.value) && Some(r.value.policy) == ParseSpec(spec)
    ensures r.Some? ==> r.value.spec == TrimSpace(spec) && !r.value.fromFile
  {
    var p := Parse(spec);
    if p.None? { return None; }
    var s := new Set(p.value, TrimSpace(spec), false);
    return Some(s);
  }

  /** `text` is the file's contents, None if it cannot be read. */
  method LoadFile(text: Option<string>) returns (r: Option<Set>)
    ensures r.Some? <==> text.Some? && ParseSpec(FileSpec(text.value)).Some?
    ensures r.Some? ==> fresh(r.value) && Some(r.value.policy) == ParseSpec(FileSpec(text.value))
    ensures r.Some? ==> r.value.spec == FileSpec(text.value) && r.value.fromFile
  {
    if text.None? { return None; }
    var spec := ReadFileSpec(text.value);
    var p := Parse(spec);
    if p.None? { return None; }
    var s := new Set(p.value, spec, true);
    return Some(s);
  }
}
