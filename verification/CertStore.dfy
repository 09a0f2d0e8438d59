/** The in-memory certificate table of internal/cert/store.go: entries by base name, with an
    exact and a wildcard index for picking a certificate by SNI. */
module CertStore {
  import opened Naming
  import opened Strings
  import H = Routing

  /** A loaded certificate: an identity, the DNS names it lists, the base name of its files. */
  datatype Entry = Entry(cert: nat, dnsNames: seq<string>, baseName: string)

  datatype Store = Store(entries: map<string, Entry>, exact: map<string, Entry>, wildcard: map<string, Entry>)

  const EMPTY := Store(map[], map[], map[])

  predicate IsWild(name: string) { |name| >= 2 && name[0] == '*' && name[1] == '.' }

  // ---------------------------------------------------------------- what an entry covers

  /** The entry lists `name` itself, as its certificate spells names once lower-cased. */
  predicate ListsExact(e: Entry, name: string) {
    !IsWild(name) && exists i :: 0 <= i < |e.dnsNames| && Lower(e.dnsNames[i]) == name
  }

  /** The entry lists "*." + `parent`. */
  predicate ListsWild(e: Entry, parent: string) {
    exists i :: 0 <= i < |e.dnsNames| && Lower(e.dnsNames[i]) == "*." + parent
  }

  // ---------------------------------------------------------------- the loops over SANs

  function IndexName(s: Store, e: Entry, name: string): Store {
    if IsWild(name) then s.(wildcard := s.wildcard[name[2..] := e]) else s.(exact := s.exact[name := e])
  }

  function Unindex(m: map<string, Entry>, e: Entry, name: string): map<string, Entry> {
    if name in m && m[name] == e then m - {name} else m
  }

  function UnindexName(s: Store, e: Entry, name: string): Store {
    if IsWild(name) then s.(wildcard := Unindex(s.wildcard, e, name[2..])) else s.(exact := Unindex(s.exact, e, name))
  }

  function IndexAll(s: Store, e: Entry, n: nat): Store
    requires n <= |e.dnsNames|
  {
    if n == 0 then s else IndexName(IndexAll(s, e, n - 1), e, Lower(e.dnsNames[n - 1]))
  }

  function UnindexAll(s: Store, e: Entry, n: nat): Store
    requires n <= |e.dnsNames|
  {
    if n == 0 then s else UnindexName(UnindexAll(s, e, n - 1), e, Lower(e.dnsNames[n - 1]))
  }

  /** addEntry: replaces the entry of the same base name and rebuilds the indexes. */
  function AddEntry(s: Store, e: Entry): Store {
    var cleared :=
      if e.baseName in s.entries then UnindexAll(s, s.entries[e.baseName], |s.entries[e.baseName].dnsNames|) else s;
    IndexAll(cleared.(entries := s.entries[e.baseName := e]), e, |e.dnsNames|)
  }

  // ---------------------------------------------------------------- what the loops do, pointwise

  predicate ListsExactIn(e: Entry, name: string, n: nat)
    requires n <= |e.dnsNames|
  {
    !IsWild(name) && exists i :: 0 <= i < n && Lower(e.dnsNames[i]) == name
  }

  predicate ListsWildIn(e: Entry, parent: string, n: nat)
    requires n <= |e.dnsNames|
  {
    exists i :: 0 <= i < n && Lower(e.dnsNames[i]) == "*." + parent
  }

  lemma WildName(name: string, parent: string)
    ensures name == "*." + parent <==> IsWild(name) && name[2..] == parent
  {
    if IsWild(name) { assert name == "*." + name[2..]; }
  }

  function Get(m: map<string, Entry>, name: string): Option<Entry> { if name in m then Some(m[name]) else None }

  lemma {:induction false} IndexAllLooks(s: Store, e: Entry, n: nat, name: string)
    requires n <= |e.dnsNames|
    ensures IndexAll(s, e, n).entries == s.entries
    ensures Get(IndexAll(s, e, n).exact, name) == if ListsExactIn(e, name, n) then Some(e) else Get(s.exact, name)
    ensures Get(IndexAll(s, e, n).wildcard, name) == if ListsWildIn(e, name, n) then Some(e) else Get(s.wildcard, name)
  {
    if n > 0 {
      IndexAllLooks(s, e, n - 1, name);
      WildName(Lower(e.dnsNames[n - 1]), name);
    }
  }

  lemma {:induction false} UnindexAllLooks(s: Store, e: Entry, n: nat, name: string)
    requires n <= |e.dnsNames|
    ensures UnindexAll(s, e, n).entries == s.entries
    ensures Get(UnindexAll(s, e, n).exact, name) ==
            if ListsExactIn(e, name, n) && Get(s.exact, name) == Some(e) then None else Get(s.exact, name)
    ensures Get(UnindexAll(s, e, n).wildcard, name) ==
            if ListsWildIn(e, name, n) && Get(s.wildcard, name) == Some(e) then None else Get(s.wildcard, name)
  {
    if n > 0 {
      UnindexAllLooks(s, e, n - 1, name);
      WildName(Lower(e.dnsNames[n - 1]), name);
    }
  }

  /** The entry that `e` replaces, if any. */
  function Old(s: Store, e: Entry): Option<Entry> { Get(s.entries, e.baseName) }

  /** One addEntry, name by name. */
  lemma AddEntryLooks(s: Store, e: Entry, name: string)
    ensures AddEntry(s, e).entries == s.entries[e.baseName := e]
    ensures Get(AddEntry(s, e).exact, name) ==
            if ListsExact(e, name) then Some(e)
            else if Old(s, e).Some? && ListsExact(Old(s, e).value, name) && Get(s.exact, name) == Old(s, e) then None
            else Get(s.exact, name)
    ensures Get(AddEntry(s, e).wildcard, name) ==
            if ListsWild(e, name) then Some(e)
            else if Old(s, e).Some? && ListsWild(Old(s, e).value, name) && Get(s.wildcard, name) == Old(s, e) then None
            else Get(s.wildcard, name)
  {
    var cleared := s;
    if Old(s, e).Some? {
      var o := Old(s, e).value;
      UnindexAllLooks(s, o, |o.dnsNames|, name);
      cleared := UnindexAll(s, o, |o.dnsNames|);
    }
    IndexAllLooks(cleared.(entries := s.entries[e.baseName := e]), e, |e.dnsNames|, name);
  }

  // ---------------------------------------------------------------- soundness

  /** Every index hit points to a current entry whose certificate lists the name. */
  ghost predicate Sound(s: Store) {
    && (forall b :: b in s.entries ==> s.entries[b].baseName == b)
    && (forall name :: name in s.exact ==> Current(s, s.exact[name]) && ListsExact(s.exact[name], name))
    && (forall name :: name in s.wildcard ==> Current(s, s.wildcard[name]) && ListsWild(s.wildcard[name], name))
  }

  predicate Current(s: Store, e: Entry) { e.baseName in s.entries && s.entries[e.baseName] == e }

  lemma SoundStep(s: Store, e: Entry)
    requires Sound(s)
    ensures Sound(AddEntry(s, e))
  {
    var s' := AddEntry(s, e);
    AddEntryLooks(s, e, "");
    forall name | name in s'.exact ensures Current(s', s'.exact[name]) && ListsExact(s'.exact[name], name) {
      AddEntryLooks(s, e, name);
    }
    forall name | name in s'.wildcard ensures Current(s', s'.wildcard[name]) && ListsWild(s'.wildcard[name], name) {
      AddEntryLooks(s, e, name);
    }
  }

  function AddAll(es: seq<Entry>): Store {
    if es == [] then EMPTY else AddEntry(AddAll(es[..|es| - 1]), es[|es| - 1])
  }

  /** After any sequence of addEntry calls the indexes are sound. */
  lemma {:induction false} AlwaysSound(es: seq<Entry>)
    ensures Sound(AddAll(es))
  {
    if es != [] {
      AlwaysSound(es[..|es| - 1]);
      SoundStep(AddAll(es[..|es| - 1]), es[|es| - 1]);
    }
  }

  // ---------------------------------------------------------------- completeness

  /** Every name a current entry lists is found through the indexes. */
  ghost predicate Complete(s: Store) {
    && (forall b, name :: b in s.entries && ListsExact(s.entries[b], name) ==> name in s.exact)
    && (forall b, name :: b in s.entries && ListsWild(s.entries[b], name) ==> name in s.wildcard)
  }

  /** The replaced entry holds `name` in an index, its successor does not list it, and the
      entry under `b` does. */
  predicate OrphansName(s: Store, e: Entry, b: string, name: string) {
    && Old(s, e).Some? && b in s.entries && b != e.baseName
    && ((ListsExact(s.entries[b], name) && !ListsExact(e, name) && Get(s.exact, name) == Old(s, e)) ||
        (ListsWild(s.entries[b], name) && !ListsWild(e, name) && Get(s.wildcard, name) == Old(s, e)))
  }

  ghost predicate Orphans(s: Store, e: Entry) {
    exists b, name :: OrphansName(s, e, b, name)
  }

  lemma OrphanIsLost(s: Store, e: Entry, b: string, name: string)
    requires Sound(s) && OrphansName(s, e, b, name)
    ensures !Complete(AddEntry(s, e))
  {
    AddEntryLooks(s, e, name);
    var s' := AddEntry(s, e);
    assert b in s'.entries && s'.entries[b] == s.entries[b];
  }

  lemma NoOrphanIsFound(s: Store, e: Entry, b: string, name: string)
    requires Complete(s) && b in AddEntry(s, e).entries && !OrphansName(s, e, b, name)
    ensures ListsExact(AddEntry(s, e).entries[b], name) ==> name in AddEntry(s, e).exact
    ensures ListsWild(AddEntry(s, e).entries[b], name) ==> name in AddEntry(s, e).wildcard
  {
    AddEntryLooks(s, e, name);
    if b != e.baseName { assert b in s.entries && s.entries[b] == AddEntry(s, e).entries[b]; }
  }

  /** addEntry keeps the indexes complete exactly when it orphans no name. */
  lemma CompleteStep(s: Store, e: Entry)
    requires Sound(s) && Complete(s)
    ensures Complete(AddEntry(s, e)) <==> !Orphans(s, e)
  {
    var s' := AddEntry(s, e);
    if Orphans(s, e) {
      var b, name :| OrphansName(s, e, b, name);
      OrphanIsLost(s, e, b, name);
    } else {
      forall b, name | b in s'.entries && ListsExact(s'.entries[b], name) ensures name in s'.exact {
        NoOrphanIsFound(s, e, b, name);
      }
      forall b, name | b in s'.entries && ListsWild(s'.entries[b], name) ensures name in s'.wildcard {
        NoOrphanIsFound(s, e, b, name);
      }
    }
  }

  /** Certificates under different base names list different names. */
  ghost predicate Disjoint(es: seq<Entry>) {
    forall i, j, name :: 0 <= i < |es| && 0 <= j < |es| && es[i].baseName != es[j].baseName ==>
      !(ListsExact(es[i], name) && ListsExact(es[j], name)) && !(ListsWild(es[i], name) && ListsWild(es[j], name))
  }

  /** Every current entry is one that was added. */
  lemma {:induction false} EntriesWereAdded(es: seq<Entry>, b: string)
    requires b in AddAll(es).entries
    ensures AddAll(es).entries[b] in es && AddAll(es).entries[b].baseName == b
  {
    if es != [] {
      var n := |es| - 1;
      AddEntryLooks(AddAll(es[..n]), es[n], "");
      if b != es[n].baseName { EntriesWereAdded(es[..n], b); }
    }
  }

  ghost predicate Shares(a: Entry, b: Entry, name: string) {
    (ListsExact(a, name) && ListsExact(b, name)) || (ListsWild(a, name) && ListsWild(b, name))
  }

  lemma OrphanIsShared(es: seq<Entry>, e: Entry, b: string, name: string)
    requires OrphansName(AddAll(es), e, b, name)
    ensures var s := AddAll(es);
            && e.baseName in s.entries && s.entries[b] in es && s.entries[e.baseName] in es
            && s.entries[b].baseName != s.entries[e.baseName].baseName
            && Shares(s.entries[b], s.entries[e.baseName], name)
  {
    EntriesWereAdded(es, b);
    EntriesWereAdded(es, e.baseName);
    AlwaysSound(es);
  }

  lemma DisjointNamesNotShared(es: seq<Entry>, a: Entry, b: Entry, name: string)
    requires Disjoint(es) && a in es && b in es && a.baseName != b.baseName
    ensures !Shares(a, b, name)
  {
    var i :| 0 <= i < |es| && es[i] == a;
    var j :| 0 <= j < |es| && es[j] == b;
  }

  lemma DisjointPrefix(es: seq<Entry>, n: nat)
    requires Disjoint(es) && n <= |es|
    ensures Disjoint(es[..n])
  {}

  /** With disjoint names the indexes are always complete. */
  lemma {:induction false} AlwaysComplete(es: seq<Entry>)
    requires Disjoint(es)
    ensures Complete(AddAll(es))
  {
    if es != [] {
      var n := |es| - 1;
      DisjointPrefix(es, n);
      AlwaysComplete(es[..n]);
      AlwaysSound(es[..n]);
      var s, e := AddAll(es[..n]), es[n];
      forall b, name ensures !OrphansName(s, e, b, name) {
        if OrphansName(s, e, b, name) {
          OrphanIsShared(es[..n], e, b, name);
          DisjointNamesNotShared(es[..n], s.entries[b], s.entries[e.baseName], name);
        }
      }
      CompleteStep(s, e);
    }
  }

  /** Names that overlap can be lost: the certificate under "a" still lists "x", but after the
      one under "b" took the name over and was then replaced by one for "y", "x" is found nowhere. */
  lemma OverlapLosesName()
    ensures var es := [Entry(1, ["x"], "a"), Entry(2, ["x"], "b"), Entry(3, ["y"], "b")];
            !Complete(AddAll(es)) && "x" !in AddAll(es).exact
  {
    var a, b, c := Entry(1, ["x"], "a"), Entry(2, ["x"], "b"), Entry(3, ["y"], "b");
    var es := [a, b, c];
    assert es[..2] == [a, b] && [a, b][..1] == [a] && [a][..0] == [];
    var s1 := AddEntry(EMPTY, a);
    assert AddAll([a]) == s1;
    var s2 := AddEntry(s1, b);
    assert AddAll([a, b]) == s2;
    var s3 := AddEntry(s2, c);
    assert AddAll(es) == s3;
    assert Lower("x") == "x" && !IsWild("x");
    assert ListsExact(a, "x") && ListsExact(b, "x") by {
      assert Lower(a.dnsNames[0]) == "x" && Lower(b.dnsNames[0]) == "x";
    }
    assert Lower("y") == "y" && "x" != "y" by { assert "x"[0] != "y"[0]; }
    assert !ListsExact(c, "x") by { assert Lower(c.dnsNames[0]) == "y"; }
    AddEntryLooks(EMPTY, a, "x");
    AddEntryLooks(s1, b, "x");
    AddEntryLooks(s2, c, "x");
    assert "a" != "b" by { assert "a"[0] != "b"[0]; }
    assert s3.entries["a"] == a;
  }

  // ---------------------------------------------------------------- picking a certificate

  /** The text after the first dot, if there is one. */
  function Parent(name: string): Option<string> {
    var i := IndexOf(name, '.');
    if i < 0 then None else Some(name[i + 1..])
  }

  /** getCertificate: exact, then one-label wildcard, then the apex both ways. */
  function Lookup(s: Store, apex: string, sni: string): Option<Entry> {
    var name := H.NormalizeHost(sni);
    if name in s.exact then Some(s.exact[name])
    else if Parent(name).Some? && Parent(name).value in s.wildcard then Some(s.wildcard[Parent(name).value])
    else if apex in s.exact then Some(s.exact[apex])
    else Get(s.wildcard, apex)
  }

  function Has(s: Store, fqdn: string): bool {
    var name := H.NormalizeHost(fqdn);
    name in s.exact || (Parent(name).Some? && Parent(name).value in s.wildcard)
  }

  ghost predicate AnyExact(s: Store, name: string) { exists b :: b in s.entries && ListsExact(s.entries[b], name) }

  ghost predicate AnyWild(s: Store, parent: string) { exists b :: b in s.entries && ListsWild(s.entries[b], parent) }

  /** A loaded certificate covers the name, exactly or by a wildcard for its first label
      (section 6.4.3 of RFC 6125). */
  ghost predicate Covered(s: Store, name: string) {
    AnyExact(s, name) || (Parent(name).Some? && AnyWild(s, Parent(name).value))
  }

  /** What a scan of all entries would answer: an entry listing the name; failing that, one
      with the wildcard for its parent; failing that, the apex; failing that, nothing. */
  ghost predicate Scan(s: Store, apex: string, sni: string, r: Option<Entry>) {
    var name := H.NormalizeHost(sni);
    if AnyExact(s, name) then r.Some? && Current(s, r.value) && ListsExact(r.value, name)
    else if Parent(name).Some? && AnyWild(s, Parent(name).value)
    then r.Some? && Current(s, r.value) && ListsWild(r.value, Parent(name).value)
    else if AnyExact(s, apex) then r.Some? && Current(s, r.value) && ListsExact(r.value, apex)
    else if AnyWild(s, apex) then r.Some? && Current(s, r.value) && ListsWild(r.value, apex)
    else r == None
  }

  lemma IndexIsAny(s: Store, name: string)
    requires Sound(s) && Complete(s)
    ensures name in s.exact <==> AnyExact(s, name)
    ensures name in s.wildcard <==> AnyWild(s, name)
  {
    if name in s.exact { assert ListsExact(s.entries[s.exact[name].baseName], name); }
    if name in s.wildcard { assert ListsWild(s.entries[s.wildcard[name].baseName], name); }
  }

  lemma HitIsCovered(s: Store, name: string)
    requires Sound(s)
    ensures name in s.exact || (Parent(name).Some? && Parent(name).value in s.wildcard) ==> Covered(s, name)
  {
    if name in s.exact { assert ListsExact(s.entries[s.exact[name].baseName], name); }
    if Parent(name).Some? && Parent(name).value in s.wildcard {
      assert ListsWild(s.entries[s.wildcard[Parent(name).value].baseName], Parent(name).value);
    }
  }

  /** The indexed lookup answers what the scan answers. */
  lemma LookupIsScan(s: Store, apex: string, sni: string)
    requires Sound(s) && Complete(s)
    ensures Scan(s, apex, sni, Lookup(s, apex, sni))
    ensures Has(s, sni) <==> Covered(s, H.NormalizeHost(sni))
  {
    var name := H.NormalizeHost(sni);
    IndexIsAny(s, name);
    IndexIsAny(s, apex);
    if Parent(name).Some? { IndexIsAny(s, Parent(name).value); }
  }

  /** The listed name or wildcard parent that decides the scan. */
  ghost function Answers(s: Store, apex: string, sni: string): Option<string> {
    var name := H.NormalizeHost(sni);
    if AnyExact(s, name) then Some(name)
    else if Parent(name).Some? && AnyWild(s, Parent(name).value) then Parent(name)
    else if AnyExact(s, apex) || AnyWild(s, apex) then Some(apex)
    else None
  }

  /** With disjoint names, after any additions, getCertificate is the linear scan: it gives the
      scan's answer and the scan has no other; in particular the apex certificate is served
      only when no loaded certificate covers the SNI. */
  lemma GetCertificateIsScan(es: seq<Entry>, apex: string, sni: string, r: Option<Entry>)
    requires Disjoint(es)
    ensures Scan(AddAll(es), apex, sni, r) <==> r == Lookup(AddAll(es), apex, sni)
    ensures Has(AddAll(es), sni) <==> Covered(AddAll(es), H.NormalizeHost(sni))
  {
    var s := AddAll(es);
    AlwaysSound(es);
    AlwaysComplete(es);
    LookupIsScan(s, apex, sni);
    var q := Lookup(s, apex, sni);
    if Scan(s, apex, sni, r) && r.Some? {
      var name := if Answers(s, apex, sni).Some? then Answers(s, apex, sni).value else "";
      EntriesWereAdded(es, r.value.baseName);
      EntriesWereAdded(es, q.value.baseName);
      if r.value.baseName != q.value.baseName { DisjointNamesNotShared(es, r.value, q.value, name); }
    }
  }

  // ---------------------------------------------------------------- the names the manager asks for

  /** A certificate that Ensure or EnsureName asked for: `parent` and its wildcard, stored under
      "_." + `parent`, where `parent` is the apex or a label below it, in lower case. */
  predicate IssuedFor(e: Entry, parent: string) {
    Lower(parent) == parent && !IsWild(parent) && e.baseName == "_." + parent && e.dnsNames == [parent, "*." + parent]
  }

  lemma IssuedLists(e: Entry, parent: string, name: string)
    requires IssuedFor(e, parent)
    ensures ListsExact(e, name) <==> name == parent
    ensures ListsWild(e, name) <==> name == parent
  {
    WildName(parent, name);
    assert Lower("*." + parent) == "*." + parent by {
      forall i | 0 <= i < |parent| ensures LowerChar(parent[i]) == parent[i] { assert Lower(parent)[i] == parent[i]; }
    }
    assert Lower(e.dnsNames[0]) == parent && Lower(e.dnsNames[1]) == "*." + parent;
    WildName("*." + parent, name);
    assert ("*." + parent)[2..] == parent;
  }

  /** The manager's own certificates never share a name, so for them `GetCertificateIsScan`
      needs no further condition. */
  lemma IssuedAreDisjoint(es: seq<Entry>, parents: seq<string>)
    requires |parents| == |es| && forall i :: 0 <= i < |es| ==> IssuedFor(es[i], parents[i])
    ensures Disjoint(es)
  {
    forall i, j, name | 0 <= i < |es| && 0 <= j < |es| && es[i].baseName != es[j].baseName
      ensures !(ListsExact(es[i], name) && ListsExact(es[j], name)) &&
              !(ListsWild(es[i], name) && ListsWild(es[j], name))
    {
      IssuedLists(es[i], parents[i], name);
      IssuedLists(es[j], parents[j], name);
    }
  }

  /** A loaded certificate for `parent` answers every host one label below it. */
  lemma IssuedServesItsHosts(es: seq<Entry>, parents: seq<string>, apex: string, sni: string, parent: string)
    requires |parents| == |es| && forall i :: 0 <= i < |es| ==> IssuedFor(es[i], parents[i])
    requires Parent(H.NormalizeHost(sni)) == Some(parent) && H.NormalizeHost(sni) !in parents
    requires "_." + parent in AddAll(es).entries
    ensures Lookup(AddAll(es), apex, sni) == Some(AddAll(es).entries["_." + parent])
  {
    var s, name := AddAll(es), H.NormalizeHost(sni);
    IssuedAreDisjoint(es, parents);
    var e := s.entries["_." + parent];
    assert IssuedFor(e, parent) by { IssuedUnder(es, parents, parent); }
    IssuedLists(e, parent, parent);
    if AnyExact(s, name) {
      var b :| b in s.entries && ListsExact(s.entries[b], name);
      EntriesWereAdded(es, b);
      var i :| 0 <= i < |es| && es[i] == s.entries[b];
      IssuedLists(es[i], parents[i], name);
    }
    GetCertificateIsScan(es, apex, sni, Some(e));
  }

  lemma IssuedUnder(es: seq<Entry>, parents: seq<string>, parent: string)
    requires |parents| == |es| && forall i :: 0 <= i < |es| ==> IssuedFor(es[i], parents[i])
    requires "_." + parent in AddAll(es).entries
    ensures IssuedFor(AddAll(es).entries["_." + parent], parent)
  {
    EntriesWereAdded(es, "_." + parent);
    var i :| 0 <= i < |es| && es[i] == AddAll(es).entries["_." + parent];
    assert ("_." + parents[i])[2..] == parents[i] && ("_." + parent)[2..] == parent;
  }
}
