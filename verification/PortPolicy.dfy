/** The port allowlist of internal/portpolicy: parsing, deciding, printing and reloading. */
module PortPolicy {
  import opened Naming
  import opened Strings

  /** `all` disables the gate; otherwise the listed ports and the inclusive ranges. */
  datatype Policy = Policy(all: bool, single: set<int>, ranges: seq<(int, int)>)

  const EMPTY := Policy(false, {}, [])
  const ALLOW_ALL := Policy(true, {}, [])

  predicate InRanges(ranges: seq<(int, int)>, port: int) {
    ranges != [] && (InRanges(ranges[..|ranges| - 1], port) ||
                     ranges[|ranges| - 1].0 <= port <= ranges[|ranges| - 1].1)
  }

  predicate Permits(p: Policy, port: int) {
    p.all || port in p.single || InRanges(p.ranges, port)
  }

  // ---------------------------------------------------------------- what a spec means

  /** One comma-separated piece. */
  datatype Piece = Blank | Port(n: int) | Range(lo: int, hi: int) | Bad

  predicate IsPort(n: int) { 1 <= n <= 65535 }

  function ParsePort(s: string): Option<int> {
    match Atoi(TrimSpace(s))
    case None => None
    case Some(n) => if IsPort(n) then Some(n) else None
  }

  function MakeRange(lo: Option<int>, hi: Option<int>): Piece {
    if lo.None? || hi.None? || lo.value > hi.value then Bad else Range(lo.value, hi.value)
  }

  function MakePort(n: Option<int>): Piece { if n.None? then Bad else Port(n.value) }

  function ReadTrimmed(piece: string): Piece {
    var dash := IndexOf(piece, '-');
    if piece == "" then Blank
    else if dash > 0 then MakeRange(ParsePort(piece[..dash]), ParsePort(piece[dash + 1..]))
    else MakePort(ParsePort(piece))
  }

  function ReadPiece(raw: string): Piece { ReadTrimmed(TrimSpace(raw)) }

  predicate Covers(piece: Piece, port: int) {
    match piece case Port(n) => port == n case Range(lo, hi) => lo <= port <= hi case _ => false
  }

  /** Some piece covers the port. */
  predicate Covered(raws: seq<string>, port: int) {
    exists i :: 0 <= i < |raws| && Covers(ReadPiece(raws[i]), port)
  }

  predicate Faulty(raws: seq<string>) {
    exists i :: 0 <= i < |raws| && ReadPiece(raws[i]).Bad?
  }

  predicate IsAll(spec: string) { Lower(TrimSpace(spec)) == "all" }

  /** A policy says exactly what a list of pieces says. */
  ghost predicate Says(p: Policy, raws: seq<string>) {
    && !p.all && WellFormed(p)
    && (forall port :: Permits(p, port) <==> Covered(raws, port))
    && (p.single == {} && p.ranges == [] <==> forall i :: 0 <= i < |raws| ==> ReadPiece(raws[i]).Blank?)
  }

  predicate RangesInRange(ranges: seq<(int, int)>) {
    forall i :: 0 <= i < |ranges| ==> IsPort(ranges[i].0) && IsPort(ranges[i].1) && ranges[i].0 <= ranges[i].1
  }

  predicate PortsInRange(ports: seq<int>) {
    forall i :: 0 <= i < |ports| ==> IsPort(ports[i])
  }

  predicate WellFormed(p: Policy) {
    (forall n :: n in p.single ==> IsPort(n)) && RangesInRange(p.ranges)
  }

  function AddPiece(p: Policy, piece: Piece): Policy {
    match piece
    case Port(n) => p.(single := p.single + {n})
    case Range(lo, hi) => p.(ranges := p.ranges + [(lo, hi)])
    case _ => p
  }

  function Collect(raws: seq<string>): Policy {
    if raws == [] then EMPTY else AddPiece(Collect(raws[..|raws| - 1]), ReadPiece(raws[|raws| - 1]))
  }

  /** Parse: nothing, everything, or the pieces; any bad piece fails the whole. */
  function ParseSpec(spec: string): Option<Policy> {
    var t := TrimSpace(spec);
    if t == "" then Some(EMPTY)
    else if IsAll(spec) then Some(ALLOW_ALL)
    else if Faulty(Split(t, ',')) then None
    else Some(Collect(Split(t, ',')))
  }

  // ---------------------------------------------------------------- parsing is right

  lemma ReadPieceInRange(raw: string)
    ensures match ReadPiece(raw)
            case Port(n) => IsPort(n)
            case Range(lo, hi) => IsPort(lo) && IsPort(hi) && lo <= hi
            case _ => true
  {
    var piece := TrimSpace(raw);
    var dash := IndexOf(piece, '-');
    if dash > 0 {
      ParsePortInRange(piece[..dash]);
      ParsePortInRange(piece[dash + 1..]);
    } else {
      ParsePortInRange(piece);
    }
  }

  lemma ParsePortInRange(s: string)
    ensures ParsePort(s).Some? ==> IsPort(ParsePort(s).value)
  {}

  lemma {:induction false} CollectSays(raws: seq<string>)
    requires !Faulty(raws)
    ensures Says(Collect(raws), raws)
  {
    if raws != [] {
      var n := |raws| - 1;
      CollectSays(raws[..n]);
      SaysSnoc(Collect(raws[..n]), raws[..n], raws[n]);
      assert raws == raws[..n] + [raws[n]];
    }
  }

  lemma SaysSnoc(p: Policy, raws: seq<string>, raw: string)
    requires Says(p, raws) && !ReadPiece(raw).Bad?
    ensures Says(AddPiece(p, ReadPiece(raw)), raws + [raw])
  {
    var p', raws' := AddPiece(p, ReadPiece(raw)), raws + [raw];
    ReadPieceInRange(raw);
    forall port ensures Permits(p', port) <==> Covered(raws', port) {
      PermitsAdd(p, ReadPiece(raw), port);
      CoveredConcat(raws, [raw], port);
      assert Covered([raw], port) <==> Covers(ReadPiece([raw][0]), port);
    }
    assert forall i :: 0 <= i < |raws| ==> raws'[i] == raws[i];
    assert raws'[|raws|] == raw;
  }

  lemma PermitsAdd(p: Policy, piece: Piece, port: int)
    ensures Permits(AddPiece(p, piece), port) <==> Permits(p, port) || (!p.all && Covers(piece, port)) || p.all
  {
    if piece.Range? { assert (p.ranges + [(piece.lo, piece.hi)])[..|p.ranges|] == p.ranges; }
  }

  lemma CoveredConcat(a: seq<string>, b: seq<string>, port: int)
    ensures Covered(a + b, port) <==> Covered(a, port) || Covered(b, port)
    ensures Faulty(a + b) <==> Faulty(a) || Faulty(b)
  {
    var c := a + b;
    assert forall i :: 0 <= i < |a| ==> c[i] == a[i];
    assert forall i :: 0 <= i < |b| ==> c[|a| + i] == b[i];
    assert forall i :: 0 <= i < |c| ==> if i < |a| then c[i] == a[i] else c[i] == b[i - |a|];
  }

  // ---------------------------------------------------------------- white space does not matter

  /** Two lists of pieces that differ only in surrounding white space. */
  ghost predicate SamePieces(a: seq<string>, b: seq<string>) {
    |a| == |b| && forall i :: 0 <= i < |a| ==> TrimSpace(a[i]) == TrimSpace(b[i])
  }

  lemma {:induction false} TrimLeftPieces(s: string)
    ensures SamePieces(Split(TrimLeft(s), ','), Split(s, ','))
  {
    if s != [] && IsSpace(s[0]) {
      TrimLeftPieces(s[1..]);
      assert s == [s[0]] + s[1..];
      SplitConsSpace(s[0], s[1..], ',');
      TrimSpaceLeft(Split(s[1..], ',')[0], s[0]);
    }
  }

  lemma {:induction false} TrimRightPieces(s: string)
    ensures SamePieces(Split(TrimRight(s), ','), Split(s, ','))
    decreases |s|
  {
    if s != [] && IsSpace(s[|s| - 1]) {
      var n := |s| - 1;
      TrimRightPieces(s[..n]);
      assert s == s[..n] + [s[n]];
      SplitSnocSpace(s[..n], s[n], ',');
      var p := Split(s[..n], ',');
      TrimSpaceRight(p[|p| - 1], s[n]);
    }
  }

  lemma SamePiecesMean(a: seq<string>, b: seq<string>)
    requires SamePieces(a, b)
    ensures Faulty(a) <==> Faulty(b)
    ensures forall port :: Covered(a, port) <==> Covered(b, port)
  {
    assert forall i :: 0 <= i < |a| ==> ReadPiece(a[i]) == ReadPiece(b[i]);
    if Faulty(a) { var i :| 0 <= i < |a| && ReadPiece(a[i]).Bad?; assert ReadPiece(b[i]).Bad?; }
    if Faulty(b) { var i :| 0 <= i < |b| && ReadPiece(b[i]).Bad?; assert ReadPiece(a[i]).Bad?; }
    forall port ensures Covered(a, port) <==> Covered(b, port) {
      if Covered(a, port) {
        var i :| 0 <= i < |a| && Covers(ReadPiece(a[i]), port);
        assert Covers(ReadPiece(b[i]), port);
      }
      if Covered(b, port) {
        var i :| 0 <= i < |b| && Covers(ReadPiece(b[i]), port);
        assert Covers(ReadPiece(a[i]), port);
      }
    }
  }

  /** What a spec says is what its comma-separated pieces say, wherever the white space is. */
  lemma ParseMeaning(spec: string)
    requires !IsAll(spec)
    ensures ParseSpec(spec).Some? <==> !Faulty(Split(spec, ','))
    ensures ParseSpec(spec).Some? ==> !ParseSpec(spec).value.all && WellFormed(ParseSpec(spec).value)
    ensures ParseSpec(spec).Some? ==>
              forall port :: Permits(ParseSpec(spec).value, port) <==> Covered(Split(spec, ','), port)
  {
    var t := TrimSpace(spec);
    TrimLeftPieces(spec);
    TrimRightPieces(TrimLeft(spec));
    SamePiecesMean(Split(TrimLeft(spec), ','), Split(spec, ','));
    SamePiecesMean(Split(t, ','), Split(TrimLeft(spec), ','));
    if t == "" {
      assert Split(t, ',') == [""];
      assert ReadPiece("").Blank?;
    } else if !Faulty(Split(t, ',')) {
      CollectSays(Split(t, ','));
    }
  }

  // ---------------------------------------------------------------- joining specs

  predicate Letter(c: char, low: char, cap: char) { c == low || c == cap }

  /** The word "all" in any case, with white space around it. */
  ghost predicate SpellsAll(spec: string) {
    exists a: string, t: string, b: string :: AllSpace(a) && AllSpace(b) && spec == a + t + b && AllWord(t)
  }

  predicate AllWord(t: string) {
    |t| == 3 && Letter(t[0], 'a', 'A') && Letter(t[1], 'l', 'L') && Letter(t[2], 'l', 'L')
  }

  lemma LowerIsAll(t: string)
    ensures Lower(t) == "all" <==> AllWord(t)
  {
    assert Lower(t) == "all" ==> Lower(t)[0] == 'a' && Lower(t)[1] == 'l' && Lower(t)[2] == 'l';
  }

  lemma AllIsSpelled(spec: string)
    ensures IsAll(spec) <==> SpellsAll(spec)
  {
    LowerIsAll(TrimSpace(spec));
    if IsAll(spec) {
      var a, b := TrimShape(spec);
    }
    if SpellsAll(spec) {
      var a: string, t: string, b: string :| AllSpace(a) && AllSpace(b) && spec == a + t + b && AllWord(t);
      TrimmedExactly(a, t, b);
    }
  }

  /** The word "all", in any case and with white space around it, permits every port; any other spec that
      parses permits ports between 1 and 65535 only. */
  lemma AllPermitsEverything(spec: string)
    ensures SpellsAll(spec) ==> ParseSpec(spec).Some? && forall port :: Permits(ParseSpec(spec).value, port)
    ensures !SpellsAll(spec) && ParseSpec(spec).Some? ==>
              forall port :: Permits(ParseSpec(spec).value, port) ==> 1 <= port <= 65535
  {
    AllIsSpelled(spec);
    if !IsAll(spec) && ParseSpec(spec).Some? {
      ParseMeaning(spec);
      forall port | Permits(ParseSpec(spec).value, port) ensures 1 <= port <= 65535 {
        var raws := Split(spec, ',');
        var i :| 0 <= i < |raws| && Covers(ReadPiece(raws[i]), port);
        ReadPieceInRange(raws[i]);
      }
    }
  }

  /** Every port can be asked for by its number, and a range by its two ends. */
  lemma NumbersParse(lo: nat, hi: nat, port: int)
    requires 1 <= lo <= hi <= 65535
    ensures ParseSpec(Itoa(lo)).Some? && (Permits(ParseSpec(Itoa(lo)).value, port) <==> port == lo)
    ensures var text := Itoa(lo) + "-" + Itoa(hi);
            ParseSpec(text).Some? && (Permits(ParseSpec(text).value, port) <==> lo <= port <= hi)
  {
    NumberPiece(lo);
    OnePiece(Itoa(lo), port);
    RangePiece(lo, hi);
    OnePiece(Itoa(lo) + "-" + Itoa(hi), port);
  }

  lemma NumberThenSpace(n: nat, b: string)
    requires 1 <= n <= 65535 && AllSpace(b)
    ensures ParsePort(Itoa(n) + b) == Some(n)
  {
    assert IsDigit(Itoa(n)[0]) && IsDigit(Itoa(n)[|Itoa(n)| - 1]);
    TrimmedExactly("", Itoa(n), b);
    assert "" + Itoa(n) + b == Itoa(n) + b;
    AtoiItoa(n);
  }

  lemma SpaceThenNumber(n: nat, c: string)
    requires 1 <= n <= 65535 && AllSpace(c)
    ensures ParsePort(c + Itoa(n)) == Some(n)
  {
    assert IsDigit(Itoa(n)[0]) && IsDigit(Itoa(n)[|Itoa(n)| - 1]);
    TrimmedExactly(c, Itoa(n), "");
    assert c + Itoa(n) + "" == c + Itoa(n);
    AtoiItoa(n);
  }

  lemma DashSplits(left: string, right: string)
    requires '-' !in left && left != "" && right != ""
    ensures ReadTrimmed(left + ['-'] + right) == MakeRange(ParsePort(left), ParsePort(right))
  {
    var t := left + ['-'] + right;
    IndexAtFirst(left, '-', right);
    assert t[..|left|] == left && t[|left| + 1..] == right;
  }

  lemma PaddedPiece(a: string, t: string, d: string)
    requires AllSpace(a) && AllSpace(d) && Tight(t)
    ensures ReadPiece(a + t + d) == ReadTrimmed(t)
  {
    TrimmedExactly(a, t, d);
  }

  lemma RangeOf(left: string, right: string, lo: int, hi: int, a: string, d: string)
    requires ParsePort(left) == Some(lo) && ParsePort(right) == Some(hi) && lo <= hi
    requires '-' !in left && left != "" && right != "" && Tight(left + ['-'] + right) && AllSpace(a) && AllSpace(d)
    ensures ReadPiece(a + (left + ['-'] + right) + d) == Range(lo, hi)
  {
    DashSplits(left, right);
    PaddedPiece(a, left + ['-'] + right, d);
  }

  /** White space around a range and around its ends does not matter. */
  lemma SpacedRange(lo: nat, hi: nat, left: string, right: string, a: string, b: string, c: string, d: string)
    requires 1 <= lo <= hi <= 65535 && AllSpace(a) && AllSpace(b) && AllSpace(c) && AllSpace(d)
    requires left == Itoa(lo) + b && right == c + Itoa(hi)
    ensures ReadPiece(a + (left + ['-'] + right) + d) == Range(lo, hi)
  {
    NumberThenSpace(lo, b);
    SpaceThenNumber(hi, c);
    NoDash(Itoa(lo), b);
    TightRange(Itoa(lo), b, c, Itoa(hi));
    RangeOf(left, right, lo, hi, a, d);
  }

  lemma NoDash(digits: string, b: string)
    requires AllDigits(digits) && AllSpace(b)
    ensures '-' !in digits + b
  {}

  lemma TightRange(lo: string, b: string, c: string, hi: string)
    requires AllDigits(lo) && AllDigits(hi) && lo != "" && hi != ""
    ensures Tight(lo + b + ['-'] + (c + hi))
  {
    var t := lo + b + ['-'] + (c + hi);
    assert t[0] == lo[0] && t[|t| - 1] == hi[|hi| - 1];
  }

  lemma OnePiece(text: string, port: int)
    requires ',' !in text && text != "" && IsDigit(text[0]) && !ReadPiece(text).Bad?
    ensures ParseSpec(text).Some? && (Permits(ParseSpec(text).value, port) <==> Covers(ReadPiece(text), port))
  {
    AllIsSpelled(text);
    LowerIsAll(TrimSpace(text));
    assert Split(text, ',') == [text];
    assert [text][0] == text;
    assert TrimSpace(text) != "" && TrimSpace(text)[0] == text[0] by { DigitStays(text); }
    ParseMeaning(text);
  }

  lemma DigitStays(text: string)
    requires text != "" && IsDigit(text[0])
    ensures TrimSpace(text) != "" && TrimSpace(text)[0] == text[0]
  {
    TrimRightStart(text);
  }

  /** Joining two specs with a comma permits exactly the union, and fails iff either fails. */
  lemma JoinIsUnion(a: string, b: string, port: int)
    requires !IsAll(a) && !IsAll(b)
    ensures var j := ParseSpec(a + "," + b);
            && (j.Some? <==> ParseSpec(a).Some? && ParseSpec(b).Some?)
            && (j.Some? ==> (Permits(j.value, port) <==>
                 Permits(ParseSpec(a).value, port) || Permits(ParseSpec(b).value, port)))
  {
    assert a + "," + b == a + [','] + b;
    CommaIsNotAll(a, b);
    SplitConcat(a, ',', b);
    CoveredConcat(Split(a, ','), Split(b, ','), port);
    ParseMeaning(a);
    ParseMeaning(b);
    ParseMeaning(a + "," + b);
  }

  lemma {:induction false} TrimKeeps(s: string, c: char)
    requires !IsSpace(c) && c in s
    ensures c in TrimSpace(s)
  {
    TrimLeftKeeps(s, c);
    TrimRightKeeps(TrimLeft(s), c);
  }

  lemma TrimLeftKeeps(s: string, c: char)
    requires !IsSpace(c) && c in s
    ensures c in TrimLeft(s)
  {}

  lemma TrimRightKeeps(s: string, c: char)
    requires !IsSpace(c) && c in s
    ensures c in TrimRight(s)
    decreases |s|
  {
    if IsSpace(s[|s| - 1]) {
      assert s == s[..|s| - 1] + [s[|s| - 1]];
      TrimRightKeeps(s[..|s| - 1], c);
    }
  }

  lemma AllHasNoComma(s: string)
    requires IsAll(s)
    ensures ',' !in s
  {
    if ',' in s {
      TrimKeeps(s, ',');
      LowerKeeps(TrimSpace(s), ',');
    }
  }

  lemma LowerKeeps(s: string, c: char)
    requires c in s && LowerChar(c) == c
    ensures c in Lower(s)
  {
    var i :| 0 <= i < |s| && s[i] == c;
    assert Lower(s)[i] == c;
  }

  lemma CommaIsNotAll(a: string, b: string)
    ensures !IsAll(a + [','] + b)
  {
    var s := a + [','] + b;
    assert s[|a|] == ',';
    if IsAll(s) { AllHasNoComma(s); }
  }

  // ---------------------------------------------------------------- printing and parsing back

  function RangeText(r: (int, int)): string
    requires r.0 >= 0 && r.1 >= 0
  {
    Itoa(r.0) + ['-'] + Itoa(r.1)
  }

  function PartAt(single: seq<int>, ranges: seq<(int, int)>, i: nat): string
    requires PortsInRange(single) && RangesInRange(ranges) && i < |single| + |ranges|
  {
    if i < |single| then Itoa(single[i]) else RangeText(ranges[i - |single|])
  }

  function Parts(single: seq<int>, ranges: seq<(int, int)>): seq<string>
    requires PortsInRange(single) && RangesInRange(ranges)
  {
    seq(|single| + |ranges|, i requires 0 <= i < |single| + |ranges| => PartAt(single, ranges, i))
  }

  /** `order` lists the single ports in the order map iteration happens to give them. */
  ghost predicate Lists(order: seq<int>, single: set<int>) {
    forall n :: n in order <==> n in single
  }

  const ALL_TEXT := "all ports (unrestricted)"
  const EMPTY_TEXT := "deny-all (empty policy)"

  function Text(p: Policy, order: seq<int>): string
    requires WellFormed(p) && PortsInRange(order)
  {
    if p.all then ALL_TEXT
    else if order == [] && p.ranges == [] then EMPTY_TEXT
    else Join(Parts(order, p.ranges), ',')
  }

  lemma NumberPiece(n: int)
    requires IsPort(n)
    ensures ReadPiece(Itoa(n)) == Port(n) && ',' !in Itoa(n) && '-' !in Itoa(n) && ParsePort(Itoa(n)) == Some(n)
  {
    var s := Itoa(n);
    assert IsDigit(s[0]) && IsDigit(s[|s| - 1]);
    TrimDigits(s);
    AtoiItoa(n);
    assert '-' !in s && ',' !in s;
  }

  /** A text with a dash after its first character, and no space around, reads as a range. */
  lemma DashReads(a: string, b: string)
    requires a != [] && b != [] && '-' !in a && !IsSpace(a[0]) && !IsSpace(b[|b| - 1])
    ensures ReadPiece(a + ['-'] + b) == MakeRange(ParsePort(a), ParsePort(b))
  {
    var s := a + ['-'] + b;
    assert s[0] == a[0] && s[|s| - 1] == b[|b| - 1];
    TrimDigits(s);
    IndexAtFirst(a, '-', b);
    assert s[..|a|] == a && s[|a| + 1..] == b;
  }

  lemma RangePiece(lo: int, hi: int)
    requires IsPort(lo) && IsPort(hi) && lo <= hi
    ensures ReadPiece(RangeText((lo, hi))) == Range(lo, hi) && ',' !in RangeText((lo, hi))
  {
    var a, b := Itoa(lo), Itoa(hi);
    assert IsDigit(a[0]) && IsDigit(b[|b| - 1]);
    NumberPiece(lo);
    NumberPiece(hi);
    DashReads(a, b);
  }

  /** Printing a policy and parsing the text gives a policy that permits the same ports, for
      any iteration order, exactly when the policy is not `all` and not empty. */
  lemma PrintThenParse(p: Policy, order: seq<int>)
    requires WellFormed(p) && Lists(order, p.single) && PortsInRange(order)
    ensures ParseSpec(Text(p, order)).Some? <==> !p.all && (p.single != {} || p.ranges != [])
    ensures ParseSpec(Text(p, order)).Some? ==>
              forall port :: Permits(ParseSpec(Text(p, order)).value, port) <==> Permits(p, port)
  {
    assert forall i :: 0 <= i < |order| ==> order[i] in order;
    if p.all {
      AllTextFails();
    } else if order == [] && p.ranges == [] {
      assert forall n :: n in p.single ==> n in order;
      assert p.single == {};
      EmptyTextFails();
    } else {
      assert order != [] ==> order[0] in p.single;
      PrintParts(p, order);
    }
  }

  lemma PrintParts(p: Policy, order: seq<int>)
    requires WellFormed(p) && !p.all && Lists(order, p.single) && (order != [] || p.ranges != [])
    requires PortsInRange(order)
    ensures ParseSpec(Text(p, order)).Some?
    ensures forall port :: Permits(ParseSpec(Text(p, order)).value, port) <==> Permits(p, port)
  {
    var parts := Parts(order, p.ranges);
    var spec := Join(parts, ',');
    forall i: nat | i < |parts| ensures ',' !in parts[i] && ReadPiece(parts[i]) == PieceAt(order, p.ranges, i) {
      PartReads(order, p.ranges, i);
    }
    SplitJoin(parts, ',');
    NotAllText(parts);
    ParseMeaning(spec);
    forall port ensures Covered(parts, port) <==> Permits(p, port) {
      PartsCover(parts, order, p.ranges, port);
      PiecesPermit(p, order, port);
    }
  }

  /** The pieces a policy is printed from. */
  function PieceAt(order: seq<int>, ranges: seq<(int, int)>, i: nat): Piece
    requires i < |order| + |ranges|
  {
    if i < |order| then Port(order[i]) else Range(ranges[i - |order|].0, ranges[i - |order|].1)
  }

  /** Every printed part reads back as the piece it was printed from. */
  lemma PartReads(order: seq<int>, ranges: seq<(int, int)>, i: nat)
    requires PortsInRange(order) && RangesInRange(ranges) && i < |order| + |ranges|
    ensures ',' !in PartAt(order, ranges, i) && ReadPiece(PartAt(order, ranges, i)) == PieceAt(order, ranges, i)
  {
    if i < |order| { NumberPiece(order[i]); } else { RangePiece(ranges[i - |order|].0, ranges[i - |order|].1); }
  }

  lemma {:induction false} InRangesIndex(ranges: seq<(int, int)>, port: int) returns (i: nat)
    requires InRanges(ranges, port)
    ensures i < |ranges| && ranges[i].0 <= port <= ranges[i].1
  {
    var n := |ranges| - 1;
    if ranges[n].0 <= port <= ranges[n].1 { i := n; } else { i := InRangesIndex(ranges[..n], port); }
  }

  lemma {:induction false} InRangesAt(ranges: seq<(int, int)>, port: int, i: nat)
    requires i < |ranges| && ranges[i].0 <= port <= ranges[i].1
    ensures InRanges(ranges, port)
  {
    if i < |ranges| - 1 { InRangesAt(ranges[..|ranges| - 1], port, i); }
  }

  /** Some piece of the policy covers the port. */
  ghost predicate PieceCovers(order: seq<int>, ranges: seq<(int, int)>, port: int) {
    exists i: nat :: i < |order| + |ranges| && Covers(PieceAt(order, ranges, i), port)
  }

  lemma PiecesPermit(p: Policy, order: seq<int>, port: int)
    requires !p.all && Lists(order, p.single)
    ensures PieceCovers(order, p.ranges, port) <==> Permits(p, port)
  {
    if PieceCovers(order, p.ranges, port) {
      var i: nat :| i < |order| + |p.ranges| && Covers(PieceAt(order, p.ranges, i), port);
      if i < |order| { assert order[i] in order; } else { InRangesAt(p.ranges, port, i - |order|); }
    }
    if port in p.single {
      assert port in order;
      var i: nat :| i < |order| && order[i] == port;
      assert Covers(PieceAt(order, p.ranges, i), port);
    }
    if InRanges(p.ranges, port) {
      var i := InRangesIndex(p.ranges, port);
      assert Covers(PieceAt(order, p.ranges, |order| + i), port);
    }
  }

  /** Parts that read as the pieces cover what the pieces cover. */
  lemma PartsCover(parts: seq<string>, order: seq<int>, ranges: seq<(int, int)>, port: int)
    requires |parts| == |order| + |ranges|
    requires forall i: nat :: i < |parts| ==> ReadPiece(parts[i]) == PieceAt(order, ranges, i)
    ensures Covered(parts, port) <==> PieceCovers(order, ranges, port)
  {
    if Covered(parts, port) {
      var i :| 0 <= i < |parts| && Covers(ReadPiece(parts[i]), port);
      assert Covers(PieceAt(order, ranges, i), port);
    }
    if PieceCovers(order, ranges, port) {
      var i: nat :| i < |order| + |ranges| && Covers(PieceAt(order, ranges, i), port);
      assert Covers(ReadPiece(parts[i]), port);
    }
  }

  /** A printed list starts with a digit, so it is neither blank nor `all`. */
  lemma NotAllText(parts: seq<string>)
    requires parts != [] && forall i :: 0 <= i < |parts| ==>
             ',' !in parts[i] && (ReadPiece(parts[i]).Port? || ReadPiece(parts[i]).Range?)
    ensures !IsAll(Join(parts, ','))
  {
    if |parts| == 1 {
      if IsAll(parts[0]) { AllIsNoPiece(parts[0]); }
    } else {
      CommaIsNotAll(parts[0], Join(parts[1..], ','));
    }
  }

  lemma AllIsNoPiece(s: string)
    requires IsAll(s)
    ensures ReadPiece(s).Bad?
  {
    var t := TrimSpace(s);
    assert Lower(t)[0] == 'a' && Lower(t)[1] == 'l' && Lower(t)[2] == 'l';
    assert LowerChar(t[0]) == 'a' && LowerChar(t[1]) == 'l' && LowerChar(t[2]) == 'l';
    assert !IsSpace(t[0]) && !IsSpace(t[2]);
    TrimDigits(t);
    assert !IsDigit(t[0]);
  }

  lemma AllTextFails()
    ensures ParseSpec(ALL_TEXT).None?
  {
    OneBadWord(ALL_TEXT);
  }

  lemma EmptyTextFails()
    ensures ParseSpec(EMPTY_TEXT).None?
  {
    OneBadWord(EMPTY_TEXT);
  }

  /** A longer text without commas that starts with a letter is not a spec. */
  lemma OneBadWord(s: string)
    requires |s| > 4 && ',' !in s && 'a' <= s[0] <= 'z' && !IsSpace(s[|s| - 1])
    ensures ParseSpec(s).None?
  {
    TrimDigits(s);
    assert |Lower(s)| != 3;
    assert Split(s, ',') == [s];
    WordIsBad(s);
    assert ReadPiece(Split(s, ',')[0]).Bad?;
  }

  lemma WordIsBad(s: string)
    requires |s| > 0 && 'a' <= s[0] <= 'z' && !IsSpace(s[|s| - 1])
    ensures ReadPiece(s).Bad?
  {
    TrimDigits(s);
    var dash := IndexOf(s, '-');
    if dash > 0 {
      WordIsNoPort(s[..dash]);
    } else {
      WordIsNoPort(s);
    }
  }

  lemma WordIsNoPort(s: string)
    requires |s| > 0 && 'a' <= s[0] <= 'z'
    ensures ParsePort(s).None?
  {
    assert TrimLeft(s) == s;
    TrimRightStart(s);
    assert !IsDigit(TrimSpace(s)[0]);
  }

  lemma {:induction false} TrimRightStart(s: string)
    requires |s| > 0 && !IsSpace(s[0])
    ensures TrimRight(s) != [] && TrimRight(s)[0] == s[0]
    decreases |s|
  {
    if IsSpace(s[|s| - 1]) { TrimRightStart(s[..|s| - 1]); }
  }
}
