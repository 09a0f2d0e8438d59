/** certStore as the server holds it: three maps updated in place by loops over SANs. */
module CertTable {
  import opened Naming
  import opened Strings
  import opened CertStore
  import H = Routing

  class Table {
    const apex: string
    var entries: map<string, Entry>
    var exact: map<string, Entry>
    var wildcard: map<string, Entry>

    /** The three maps as one value. */
    ghost function View(): Store
      reads this
    {
      Store(entries, exact, wildcard)
    }

    constructor (apex: string)
      ensures View() == EMPTY && this.apex == apex
    {
      this.apex := apex;
      entries, exact, wildcard := map[], map[], map[];
    }

    method RemoveFromIndex(e: Entry)
      modifies this
      ensures View() == UnindexAll(old(View()), e, |e.dnsNames|)
      ensures entries == old(entries)
    {
      for i := 0 to |e.dnsNames|
        invariant View() == UnindexAll(old(View()), e, i) && entries == old(entries)
      {
        var name := Lower(e.dnsNames[i]);
        if IsWild(name) {
          if name[2..] in wildcard && wildcard[name[2..]] == e { wildcard := wildcard - {name[2..]}; }
        } else {
          if name in exact && exact[name] == e { exact := exact - {name}; }
        }
      }
    }

    /** Keeps the indexes sound, and complete exactly when no name is orphaned. */
    method AddEntry(e: Entry)
      requires Sound(View())
      modifies this
      ensures View() == CertStore.AddEntry(old(View()), e)
      ensures Sound(View())
      ensures old(Complete(View())) ==> (Complete(View()) <==> !Orphans(old(View()), e))
    {
      ghost var before := View();
      SoundStep(before, e);
      if Complete(before) { CompleteStep(before, e); }
      if e.baseName in entries { RemoveFromIndex(entries[e.baseName]); }
      entries := entries[e.baseName := e];
      ghost var cleared := View();
      for i := 0 to |e.dnsNames|
        invariant View() == IndexAll(cleared, e, i)
      {
        var name := Lower(e.dnsNames[i]);
        if IsWild(name) { wildcard := wildcard[name[2..] := e]; } else { exact := exact[name := e]; }
      }
    }

    /** `LookupIsScan` and `GetCertificateIsScan` say which entry this is. */
    method GetCertificate(sni: string) returns (r: Option<Entry>)
      ensures r == Lookup(View(), apex, sni)
    {
      var name := H.NormalizeHost(sni);
      if name in exact { return Some(exact[name]); }
      var i := IndexOf(name, '.');
      if i >= 0 && name[i + 1..] in wildcard { return Some(wildcard[name[i + 1..]]); }
      if apex in exact { return Some(exact[apex]); }
      if apex in wildcard { return Some(wildcard[apex]); }
      return None;
    }

    method HasName(fqdn: string) returns (r: bool)
      requires Sound(View())
      ensures r == Has(View(), fqdn)
      ensures r ==> Covered(View(), H.NormalizeHost(fqdn))
      ensures Complete(View()) ==> (r <==> Covered(View(), H.NormalizeHost(fqdn)))
    {
      var name := H.NormalizeHost(fqdn);
      HitIsCovered(View(), name);
      if Complete(View()) { LookupIsScan(View(), apex, fqdn); }
      if name in exact { return true; }
      var i := IndexOf(name, '.');
      return i >= 0 && name[i + 1..] in wildcard;
    }
  }
}
