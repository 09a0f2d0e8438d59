/** Safety of the registration protocol over every interleaving of handlers.

    "Earlier in the run" is said by predicates that look back along the run, so nothing here
    relies on bookkeeping inside the machine. */
module ProtocolSafety {
  import opened Bytes
  import opened Signing
  import opened Naming
  import opened Protocol

  // ---------------------------------------------------------------- looking back along a run

  ghost predicate At(w: World, a: Action, id: nat) {
    a.Step? && a.id == id && id in w.hs
  }

  /** Handler `id` is let through the signature, clock, and peer-certificate checks here. */
  ghost predicate AuthStep(w: World, a: Action, id: nat, u: Str, k: Key) {
    At(w, a, id) && var h := w.hs[id];
    && h.pc == Authenticate && h.unique == u && ValidUnique(u) && h.pubkey == Some(k)
    && SkewOk(w.sh.now, h.ts) && (k, Register(k, u, h.ts)) in w.sh.signed
    && (h.peerCert.None? || h.peerCert == Some(k))
  }

  /** ... and through the allowlist, as it stands here. */
  ghost predicate AllowStep(w: World, a: Action, id: nat, k: Key) {
    At(w, a, id) && w.hs[id].pc == AllowGate && KeyOf(w.hs[id]) == k && Allows(w.sh.allow, k)
  }

  ghost predicate Passed(cfg: Config, r: Run, id: nat, u: Str, k: Key) {
    r.Then? && (AuthStep(Exec(cfg, r.prior), r.act, id, u, k) || Passed(cfg, r.prior, id, u, k))
  }

  ghost predicate Allowed(cfg: Config, r: Run, id: nat, k: Key) {
    r.Then? && (AllowStep(Exec(cfg, r.prior), r.act, id, k) || Allowed(cfg, r.prior, id, k))
  }

  /** Handler `id` passed every gate with key `k` for the name `u`. */
  ghost predicate Admitted(cfg: Config, r: Run, id: nat, u: Str, k: Key) {
    Passed(cfg, r, id, u, k) && Allowed(cfg, r, id, k)
  }

  /** EnsureName succeeded for the label of `u`. */
  ghost predicate Ensured(cfg: Config, r: Run, u: Str) {
    r.Then? &&
    (Ensured(cfg, r.prior, u) ||
     (var w, a := Exec(cfg, r.prior), r.act;
      a.Step? && a.ev == Do && a.id in w.hs && w.hs[a.id].pc == Ensure && w.hs[a.id].unique == u))
  }

  /** Handler `id` read the row of `u` as `k`. */
  ghost predicate ReadRow(cfg: Config, r: Run, id: nat, u: Str, k: Key) {
    r.Then? &&
    (ReadRow(cfg, r.prior, id, u, k) ||
     (var w, a := Exec(cfg, r.prior), r.act;
      && At(w, a, id) && a.ev == Do && w.hs[id].pc == Lookup && w.hs[id].unique == u
      && u in w.sh.store && w.sh.store[u] == k))
  }

  /** The holder of `k` signed the nonce while `id` was waiting for that very proof. */
  ghost predicate ProvedTo(cfg: Config, r: Run, id: nat, k: Key, nonce: seq<byte>) {
    r.Then? &&
    (ProvedTo(cfg, r.prior, id, k, nonce) ||
     (var w := Exec(cfg, r.prior);
      r.act == Sign(k, Proof(nonce)) && id in w.hs && w.hs[id].pc == AwaitProof(k, nonce)))
  }

  /** The step at which handleRegister returns ok. */
  ghost predicate ReturnsOk(sh: Shared, h: Handler, ev: Event) {
    || (h.pc.Claim? && ev == Do && h.unique !in sh.store)
    || h.pc.Touching?
    || (h.pc.Rotating? && ev == Do)
  }

  /** handleRegister returned ok to connection `id`, for the name `u` with key `k`. */
  ghost predicate Returned(cfg: Config, r: Run, id: nat, u: Str, k: Key) {
    r.Then? &&
    (Returned(cfg, r.prior, id, u, k) ||
     (var w := Exec(cfg, r.prior);
      && At(w, r.act, id) && ReturnsOk(w.sh, w.hs[id], r.act.ev)
      && w.hs[id].unique == u && KeyOf(w.hs[id]) == k))
  }

  // ---------------------------------------------------------------- what a program counter implies

  predicate PastAuth(pc: Pc) {
    !(pc.AwaitRegister? || pc.IpGate? || pc.IpHint? || pc.Authenticate? || pc.SkewBudget? || pc.SkewCancel? ||
      pc.Ended?)
  }

  predicate InSession(pc: Pc) {
    pc.Joining? || pc.Greeting? || pc.Serving? || pc.Deleting? || pc.Draining? || pc.Leaving?
  }

  predicate HoldsLabel(pc: Pc) { InSession(pc) && !pc.Joining? }

  ghost predicate GatesOk(cfg: Config, r: Run, id: nat, h: Handler) {
    && (!h.pc.AwaitRegister? && !h.pc.Ended? ==> ValidUnique(h.unique))
    && (PastAuth(h.pc) ==> h.pubkey.Some? && Passed(cfg, r, id, h.unique, KeyOf(h)))
    && (PastAuth(h.pc) && !h.pc.AllowGate? ==> Allowed(cfg, r, id, KeyOf(h)))
    && (h.pc.Claim? ==> Ensured(cfg, r, h.unique))
    && (InSession(h.pc) ==> Returned(cfg, r, id, h.unique, KeyOf(h)))
  }

  ghost predicate SigOk(signed: set<(Key, Statement)>, h: Handler) {
    h.sig.Some? ==> Made(signed, h.sig.value)
  }

  ghost predicate ProofOk(cfg: Config, r: Run, signed: set<(Key, Statement)>, id: nat, h: Handler) {
    match h.pc
    case Drawing(k) => ReadRow(cfg, r, id, h.unique, k)
    case AwaitProof(k, n) =>
      ReadRow(cfg, r, id, h.unique, k) && ((k, Proof(n)) in signed ==> ProvedTo(cfg, r, id, k, n))
    case Rotating(k, n) => ReadRow(cfg, r, id, h.unique, k) && ProvedTo(cfg, r, id, k, n)
    case Deleting(ts, at) => (KeyOf(h), Deregister(h.unique, ts)) in signed && SkewOk(at, ts)
    case _ => true
  }

  ghost predicate HandlerOk(cfg: Config, r: Run, signed: set<(Key, Statement)>, id: nat, h: Handler) {
    GatesOk(cfg, r, id, h) && SigOk(signed, h) && ProofOk(cfg, r, signed, id, h)
  }

  ghost predicate HandlersOk(cfg: Config, r: Run) {
    var w := Exec(cfg, r);
    forall id :: id in w.hs ==> HandlerOk(cfg, r, w.sh.signed, id, w.hs[id])
  }

  // ---------------------------------------------------------------- one step of one handler

  /** Only the Register frame sets the fields a connection is judged by. */
  ghost predicate Same(h: Handler, h': Handler) {
    && h'.ip == h.ip && h'.peerCert == h.peerCert && !h.pc.Ended?
    && (!h.pc.AwaitRegister? ==> h'.unique == h.unique && h'.pubkey == h.pubkey && h'.ts == h.ts && h'.sig == h.sig)
  }

  lemma FieldsKept(cfg: Config, sh: Shared, h: Handler, ev: Event)
    requires Can(sh, h, ev)
    ensures Same(h, Moved(cfg, sh, h, ev))
  {}

  /** What a step can and cannot do to its handler. */
  ghost predicate StepFacts(sh: Shared, h: Handler, ev: Event, h': Handler) {
    && Same(h, h')
    && (h.pc.AwaitRegister? && !h'.pc.Ended? ==> h'.pc.IpGate? && ValidUnique(h'.unique))
    && (PastAuth(h'.pc) && !PastAuth(h.pc) ==> h.pc.Authenticate? && h'.pc.AllowGate? && Authentic(sh, h))
    && (h.pc.AllowGate? && !h'.pc.Ended? ==> h'.pc.Lookup? && Allows(sh.allow, KeyOf(h)))
    && (h'.pc.Claim? ==> h.pc.Ensure? && ev == Do)
    && (h'.pc.Drawing? ==> h.pc.Lookup? && ev == Do)
    && (InSession(h'.pc) && !InSession(h.pc) ==> h'.pc.Joining? && ReturnsOk(sh, h, ev))
  }

  ghost predicate Authentic(sh: Shared, h: Handler) {
    && h.pubkey.Some? && SkewOk(sh.now, h.ts)
    && (KeyOf(h), Register(KeyOf(h), h.unique, h.ts)) in sh.signed
    && (h.peerCert.None? || h.peerCert == h.pubkey)
  }

  ghost predicate ProofFacts(sh: Shared, h: Handler, h': Handler) {
    match h'.pc
    case Drawing(k) => h.pc.Lookup? && h.unique in sh.store && sh.store[h.unique] == k
    case AwaitProof(k, n) => h.pc == Drawing(k) && NeverProved(sh.signed, n)
    case Rotating(k, n) => h.pc == AwaitProof(k, n) && (k, Proof(n)) in sh.signed
    case Deleting(ts, at) =>
      h.pc.Serving? && at == sh.now && SkewOk(at, ts) && (KeyOf(h), Deregister(h.unique, ts)) in sh.signed
    case _ => true
  }

  lemma AuthenticateFacts(cfg: Config, sh: Shared, h: Handler, ev: Event)
    requires h.pc.Authenticate? && Can(sh, h, ev) && SigOk(sh.signed, h)
    ensures StepFacts(sh, h, ev, Moved(cfg, sh, h, ev))
  {
    FieldsKept(cfg, sh, h, ev);
    if Moved(cfg, sh, h, ev).pc.AllowGate? {
      VerifiedMeansSigned(sh.signed, h.sig.value, KeyOf(h), Register(KeyOf(h), h.unique, h.ts));
    }
  }

  lemma OtherFacts(cfg: Config, sh: Shared, h: Handler, ev: Event)
    requires !h.pc.Authenticate? && Can(sh, h, ev) && Same(h, Moved(cfg, sh, h, ev))
    ensures StepFacts(sh, h, ev, Moved(cfg, sh, h, ev))
  {}

  lemma AwaitProofFacts(cfg: Config, sh: Shared, h: Handler, ev: Event)
    requires h.pc.AwaitProof? && Can(sh, h, ev)
    ensures ProofFacts(sh, h, Moved(cfg, sh, h, ev))
  {
    if Moved(cfg, sh, h, ev).pc.Rotating? {
      VerifiedMeansSigned(sh.signed, ev.f.sig.value, h.pc.existing, Proof(h.pc.nonce));
    }
  }

  lemma ServingFacts(cfg: Config, sh: Shared, h: Handler, ev: Event)
    requires h.pc.Serving? && Can(sh, h, ev)
    ensures ProofFacts(sh, h, Moved(cfg, sh, h, ev))
  {
    if Moved(cfg, sh, h, ev).pc.Deleting? {
      VerifiedMeansSigned(sh.signed, ev.f.sig.value, KeyOf(h), Deregister(h.unique, ev.f.ts));
    }
  }

  lemma OtherProofFacts(cfg: Config, sh: Shared, h: Handler, ev: Event)
    requires !h.pc.AwaitProof? && !h.pc.Serving? && Can(sh, h, ev)
    ensures ProofFacts(sh, h, Moved(cfg, sh, h, ev))
  {}

  lemma SigFacts(cfg: Config, sh: Shared, h: Handler, ev: Event)
    requires Can(sh, h, ev) && SigOk(sh.signed, h)
    ensures SigOk(sh.signed, Moved(cfg, sh, h, ev))
  {
    FieldsKept(cfg, sh, h, ev);
  }

  lemma StepHasFacts(cfg: Config, sh: Shared, h: Handler, ev: Event, h': Handler)
    requires Can(sh, h, ev) && SigOk(sh.signed, h) && h' == Moved(cfg, sh, h, ev)
    ensures StepFacts(sh, h, ev, h') && ProofFacts(sh, h, h') && SigOk(sh.signed, h')
  {
    FieldsKept(cfg, sh, h, ev);
    if h.pc.Authenticate? { AuthenticateFacts(cfg, sh, h, ev); } else { OtherFacts(cfg, sh, h, ev); }
    if h.pc.AwaitProof? { AwaitProofFacts(cfg, sh, h, ev); }
    else if h.pc.Serving? { ServingFacts(cfg, sh, h, ev); }
    else { OtherProofFacts(cfg, sh, h, ev); }
    SigFacts(cfg, sh, h, ev);
  }

  /** The facts carry what a program counter implies from one state to the next. */
  lemma EarnedStep(cfg: Config, r: Run, w: World, id: nat, ev: Event, h': Handler)
    requires w == Exec(cfg, r) && id in w.hs && HandlerOk(cfg, r, w.sh.signed, id, w.hs[id])
    requires StepFacts(w.sh, w.hs[id], ev, h') && ProofFacts(w.sh, w.hs[id], h')
    ensures GatesOk(cfg, Then(r, Step(id, ev)), id, h')
    ensures ProofOk(cfg, Then(r, Step(id, ev)), w.sh.signed, id, h')
  {}

  lemma MadeStays(signed: set<(Key, Statement)>, more: set<(Key, Statement)>, sig: Signature)
    requires Made(signed, sig) && signed <= more
    ensures Made(more, sig)
  {}

  /** A step taken by somebody else keeps what is known about a handler. */
  lemma EarnedKept(cfg: Config, r: Run, w: World, a: Action, signed: set<(Key, Statement)>, id: nat)
    requires w == Exec(cfg, r) && id in w.hs && HandlerOk(cfg, r, w.sh.signed, id, w.hs[id])
    requires w.sh.signed <= signed <= w.sh.signed + (if a.Sign? then {(a.key, a.st)} else {})
    ensures HandlerOk(cfg, Then(r, a), signed, id, w.hs[id])
  {
    if w.hs[id].sig.Some? { MadeStays(w.sh.signed, signed, w.hs[id].sig.value); }
  }

  lemma SignedAfter(cfg: Config, w: World, a: Action)
    ensures Next(cfg, w, a).sh.signed == w.sh.signed + (if a.Sign? then {(a.key, a.st)} else {})
  {}

  /** In every reachable state, every handler has earned its program counter. */
  lemma {:induction false} HandlersEarned(cfg: Config, r: Run)
    requires Valid(cfg, r)
    ensures HandlersOk(cfg, r)
  {
    if r.Then? {
      HandlersEarned(cfg, r.prior);
      EarnedNext(cfg, r.prior, r.act, Exec(cfg, r.prior), Exec(cfg, r));
    }
  }

  lemma EarnedNext(cfg: Config, r: Run, a: Action, w: World, w': World)
    requires HandlersOk(cfg, r) && w == Exec(cfg, r) && w' == Next(cfg, w, a) && Enabled(w, a)
    ensures HandlersOk(cfg, Then(r, a))
  {
    SignedAfter(cfg, w, a);
    forall id | id in w'.hs ensures HandlerOk(cfg, Then(r, a), w'.sh.signed, id, w'.hs[id]) {
      if a.Step? && a.id == id {
        StepHasFacts(cfg, w.sh, w.hs[id], a.ev, w'.hs[id]);
        EarnedStep(cfg, r, w, id, a.ev, w'.hs[id]);
      } else if !(a.Accept? && a.id == id) {
        EarnedKept(cfg, r, w, a, w'.sh.signed, id);
      }
    }
  }

  // ---------------------------------------------------------------- why a row changes

  function Row(w: World, u: Str): Option<Key> {
    if u in w.sh.store then Some(w.sh.store[u]) else None
  }

  function NextStore(w: World, a: Action): map<Str, Key> {
    match a
    case OperatorDelete(u) => w.sh.store - {u}
    case Step(id, ev) => if id in w.hs then StoreAfter(w.sh.store, w.hs[id], ev) else w.sh.store
    case _ => w.sh.store
  }

  lemma StoreChanges(cfg: Config, w: World, a: Action)
    ensures Next(cfg, w, a).sh.store == NextStore(w, a)
  {}

  /** An admitted key takes a free name whose certificate was issued. */
  ghost predicate Inserted(cfg: Config, r: Run, w: World, w': World, a: Action, u: Str) {
    && u !in w.sh.store && u in w'.sh.store
    && a.Step? && Admitted(cfg, r, a.id, u, w'.sh.store[u]) && Ensured(cfg, r, u)
  }

  /** An admitted key takes over a name, after the key that this same handler had read for
      the name signed this handler's nonce, after the nonce was sent. */
  ghost predicate Rotated(cfg: Config, r: Run, w: World, w': World, a: Action, u: Str) {
    && u in w.sh.store && u in w'.sh.store
    && a.Step? && Admitted(cfg, r, a.id, u, w'.sh.store[u])
    && a.id in w.hs && w.hs[a.id].pc.Rotating?
    && ReadRow(cfg, r, a.id, u, w.hs[a.id].pc.existing)
    && ProvedTo(cfg, r, a.id, w.hs[a.id].pc.existing, w.hs[a.id].pc.nonce)
  }

  /** A session authenticated as the name gives it up with a signature of its own key. */
  ghost predicate Released(cfg: Config, r: Run, w: World, w': World, a: Action, u: Str) {
    && u in w.sh.store && u !in w'.sh.store
    && a.Step? && a.id in w.hs && var h := w.hs[a.id];
    && h.pc.Deleting? && Returned(cfg, r, a.id, u, KeyOf(h))
    && (KeyOf(h), Deregister(u, h.pc.ts)) in w.sh.signed && SkewOk(h.pc.at, h.pc.ts)
  }

  /** Every change of a row, in every interleaving, has one of four causes. */
  lemma RowChanges(cfg: Config, r: Run, a: Action, u: Str)
    requires Valid(cfg, Then(r, a))
    requires Row(Exec(cfg, r), u) != Row(Exec(cfg, Then(r, a)), u)
    ensures var w, w' := Exec(cfg, r), Exec(cfg, Then(r, a));
            || Inserted(cfg, r, w, w', a, u)
            || Rotated(cfg, r, w, w', a, u)
            || Released(cfg, r, w, w', a, u)
            || (a == OperatorDelete(u) && u in w.sh.store && u !in w'.sh.store)
  {
    HandlersEarned(cfg, r);
    StoreChanges(cfg, Exec(cfg, r), a);
    RowChangeCause(cfg, r, Exec(cfg, r), Exec(cfg, Then(r, a)), a, u);
  }

  lemma RowChangeCause(cfg: Config, r: Run, w: World, w': World, a: Action, u: Str)
    requires w == Exec(cfg, r) && HandlersOk(cfg, r) && w'.sh.store == NextStore(w, a)
    requires Row(w, u) != Row(w', u)
    ensures || Inserted(cfg, r, w, w', a, u)
            || Rotated(cfg, r, w, w', a, u)
            || Released(cfg, r, w, w', a, u)
            || (a == OperatorDelete(u) && u in w.sh.store && u !in w'.sh.store)
  {
    if a.Step? && a.id in w.hs { assert HandlerOk(cfg, r, w.sh.signed, a.id, w.hs[a.id]); }
  }

  /** Every stored key passed the signature, clock, peer-certificate and allowlist gates for
      that very name, and the name's certificate was issued first. */
  ghost predicate StoreJustified(cfg: Config, r: Run, store: map<Str, Key>) {
    forall u :: u in store ==> Ensured(cfg, r, u) && exists id :: Admitted(cfg, r, id, u, store[u])
  }

  lemma {:induction false} StoredKeysAdmitted(cfg: Config, r: Run)
    requires Valid(cfg, r)
    ensures StoreJustified(cfg, r, Exec(cfg, r).sh.store)
  {
    if r.Then? {
      StoredKeysAdmitted(cfg, r.prior);
      var w, w' := Exec(cfg, r.prior), Exec(cfg, r);
      forall u | u in w'.sh.store
        ensures Ensured(cfg, r, u) && exists id :: Admitted(cfg, r, id, u, w'.sh.store[u])
      {
        if Row(w, u) != Row(w', u) {
          RowChanges(cfg, r.prior, r.act, u);
          AdmittedStays(cfg, r.prior, r.act, r.act.id, u, w'.sh.store[u]);
        } else {
          var id :| Admitted(cfg, r.prior, id, u, w.sh.store[u]);
          AdmittedStays(cfg, r.prior, r.act, id, u, w.sh.store[u]);
        }
      }
    }
  }

  lemma AdmittedStays(cfg: Config, r: Run, a: Action, id: nat, u: Str, k: Key)
    requires Admitted(cfg, r, id, u, k)
    ensures Admitted(cfg, Then(r, a), id, u, k)
  {}

  // ---------------------------------------------------------------- claims are conserved

  /** handleRegister returns newRegistration=true for `u` here. */
  ghost predicate NewHere(w: World, a: Action, u: Str) {
    a.Step? && a.id in w.hs && w.hs[a.id].pc.Claim? && ReturnsOk(w.sh, w.hs[a.id], a.ev) && w.hs[a.id].unique == u
  }

  ghost predicate DeletedHere(w: World, a: Action, u: Str) {
    u in w.sh.store && u !in NextStore(w, a)
  }

  ghost function NewRegistrations(cfg: Config, r: Run, u: Str): nat {
    if r.Start? then 0
    else NewRegistrations(cfg, r.prior, u) + (if NewHere(Exec(cfg, r.prior), r.act, u) then 1 else 0)
  }

  ghost function Deletions(cfg: Config, r: Run, u: Str): nat {
    if r.Start? then 0
    else Deletions(cfg, r.prior, u) + (if DeletedHere(Exec(cfg, r.prior), r.act, u) then 1 else 0)
  }

  lemma ClaimStep(w: World, a: Action, u: Str)
    ensures (if u in NextStore(w, a) then 1 else 0) ==
            (if u in w.sh.store then 1 else 0)
            + (if NewHere(w, a, u) then 1 else 0)
            - (if DeletedHere(w, a, u) then 1 else 0)
  {}

  /** Each name's new registrations balance its deletions, up to the row that is there now. */
  lemma {:induction false} ClaimsConserved(cfg: Config, r: Run, u: Str)
    requires Valid(cfg, r)
    ensures NewRegistrations(cfg, r, u) == Deletions(cfg, r, u) + (if u in Exec(cfg, r).sh.store then 1 else 0)
  {
    if r.Then? {
      ClaimsConserved(cfg, r.prior, u);
      StoreChanges(cfg, Exec(cfg, r.prior), r.act);
      ClaimStep(Exec(cfg, r.prior), r.act, u);
    }
  }

  ghost predicate Extends(r': Run, r: Run) {
    r' == r || (r'.Then? && Extends(r'.prior, r))
  }

  lemma {:induction false} ExtendsValid(cfg: Config, r': Run, r: Run)
    requires Valid(cfg, r') && Extends(r', r)
    ensures Valid(cfg, r)
  {
    if r' != r { ExtendsValid(cfg, r'.prior, r); }
  }

  lemma {:induction false} ExtendsTrans(r2: Run, r1: Run, r0: Run)
    requires Extends(r2, r1) && Extends(r1, r0)
    ensures Extends(r2, r0)
  {
    if r2 != r1 { ExtendsTrans(r2.prior, r1, r0); }
  }

  /** However many handlers race for one name, at most one of them is told it is new between
      two deletions of that name. */
  lemma OneClaimBetweenDeletes(cfg: Config, r: Run, r': Run, u: Str)
    requires Valid(cfg, r') && Extends(r', r) && Deletions(cfg, r', u) == Deletions(cfg, r, u)
    ensures NewRegistrations(cfg, r', u) <= NewRegistrations(cfg, r, u) + 1
  {
    ExtendsValid(cfg, r', r);
    ClaimsConserved(cfg, r, u);
    ClaimsConserved(cfg, r', u);
  }

  // ---------------------------------------------------------------- results of handleRegister

  ghost predicate WroteHere(w: World, a: Action, id: nat) {
    At(w, a, id) && NextStore(w, a) != w.sh.store
  }

  ghost predicate Wrote(cfg: Config, r: Run, id: nat) {
    r.Then? && (WroteHere(Exec(cfg, r.prior), r.act, id) || Wrote(cfg, r.prior, id))
  }

  lemma {:induction false} WroteStays(cfg: Config, r': Run, r: Run, id: nat)
    requires Extends(r', r) && Wrote(cfg, r, id)
    ensures Wrote(cfg, r', id)
  {
    if r' != r { WroteStays(cfg, r'.prior, r, id); }
  }

  /** A connection whose handleRegister has not returned ok has left every row as it was. */
  lemma {:induction false} OnlyOkWrites(cfg: Config, r: Run, id: nat)
    requires Valid(cfg, r) && Wrote(cfg, r, id)
    ensures exists u, k :: Returned(cfg, r, id, u, k)
  {
    var w := Exec(cfg, r.prior);
    if WroteHere(w, r.act, id) {
      HandlersEarned(cfg, r.prior);
      var h := w.hs[id];
      assert HandlerOk(cfg, r.prior, w.sh.signed, id, h);
      assert Returned(cfg, r, id, h.unique, KeyOf(h));
    } else {
      OnlyOkWrites(cfg, r.prior, id);
      var u, k :| Returned(cfg, r.prior, id, u, k);
      assert Returned(cfg, r, id, u, k);
    }
  }

  // ---------------------------------------------------------------- live sessions

  ghost predicate SessionOk(w: World, name: Str) {
    name in w.sh.live && var s := w.sh.live[name];
    && s.owner in w.hs && HoldsLabel(w.hs[s.owner].pc)
    && name == TunnelLabel(w.hs[s.owner].unique) && ValidUnique(w.hs[s.owner].unique)
    && s.key == KeyOf(w.hs[s.owner])
  }

  ghost predicate LiveOk(w: World) {
    forall name :: name in w.sh.live ==> SessionOk(w, name)
  }

  lemma LabelKept(cfg: Config, sh: Shared, h: Handler, ev: Event)
    requires Can(sh, h, ev)
    ensures HoldsLabel(h.pc) && !h.pc.Leaving? ==> HoldsLabel(Moved(cfg, sh, h, ev).pc)
    ensures h.pc.Joining? && TunnelLabel(h.unique) !in sh.live ==> Moved(cfg, sh, h, ev).pc.Greeting?
  {}

  lemma LiveAfterStep(cfg: Config, w: World, id: nat, ev: Event, h': Handler, live': map<Str, Session>)
    requires LiveOk(w) && id in w.hs && (w.hs[id].pc.Joining? ==> ValidUnique(w.hs[id].unique))
    requires var h := w.hs[id];
             && (HoldsLabel(h.pc) && !h.pc.Leaving? ==> HoldsLabel(h'.pc))
             && Same(h, h')
             && (h.pc.Joining? && TunnelLabel(h.unique) !in w.sh.live ==> h'.pc.Greeting?)
             && live' == LiveAfter(w.sh.live, id, h)
    ensures LiveOk(World(w.sh.(live := live'), w.hs[id := h']))
  {
    var v := World(w.sh.(live := live'), w.hs[id := h']);
    forall name | name in live' ensures SessionOk(v, name) {
      if name in w.sh.live { assert SessionOk(w, name); }
    }
  }

  /** The same sessions under the same labels, some perhaps closed. */
  predicate SameSessions(live: map<Str, Session>, live': map<Str, Session>) {
    && live'.Keys == live.Keys
    && forall name :: name in live ==> live'[name].key == live[name].key && live'[name].owner == live[name].owner
  }

  lemma LiveOkFrame(w: World, w': World)
    requires LiveOk(w) && SameSessions(w.sh.live, w'.sh.live)
    requires forall id :: id in w.hs ==> id in w'.hs && w'.hs[id] == w.hs[id]
    ensures LiveOk(w')
  {
    forall name | name in w'.sh.live ensures SessionOk(w', name) { assert SessionOk(w, name); }
  }

  /** Every live label is the label of a valid name, held by the connection that claimed it,
      under the key that connection authenticated with. */
  lemma {:induction false} LiveSessionsOwned(cfg: Config, r: Run)
    requires Valid(cfg, r)
    ensures LiveOk(Exec(cfg, r))
  {
    if r.Then? {
      LiveSessionsOwned(cfg, r.prior);
      HandlersEarned(cfg, r.prior);
      LiveNext(cfg, r.prior, Exec(cfg, r.prior), r.act, Exec(cfg, r));
    }
  }

  lemma LiveNext(cfg: Config, r: Run, w: World, a: Action, w': World)
    requires LiveOk(w) && w == Exec(cfg, r) && HandlersOk(cfg, r) && Enabled(w, a) && w' == Next(cfg, w, a)
    ensures LiveOk(w')
  {
    if a.Step? {
      var h := w.hs[a.id];
      assert HandlerOk(cfg, r, w.sh.signed, a.id, h);
      LabelKept(cfg, w.sh, h, a.ev);
      FieldsKept(cfg, w.sh, h, a.ev);
      LiveAfterStep(cfg, w, a.id, a.ev, w'.hs[a.id], w'.sh.live);
      LiveOkFrame(World(w.sh.(live := w'.sh.live), w.hs[a.id := w'.hs[a.id]]), w');
    } else {
      LiveOkFrame(w, w');
    }
  }
}
