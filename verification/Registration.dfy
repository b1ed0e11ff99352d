/** Key registration under every interleaving. Registering is two Redis commands, HSETNX for the public key
    and then HSET for its fingerprint; looking up and deleting are one each. `fp` is the fingerprint function. */
module Registration {
  import opened Ascii
  import opened Redis
  import opened RelayStore

  /** The key a request won the handle with, its fingerprint not yet written. */
  datatype Claim = Claim(handle: string, publicKey: string)

  datatype World = World(db: Db, pending: map<nat, Claim>)

  /** `request` names the request that issues the command. */
  datatype Step =
    | Begin(request: nat, handle: string, publicKey: string)
    | Finish(request: nat)
    | Lookup(handle: string)
    | Delete(handle: string)
    | Flush

  datatype Reply = Rejected | Taken | Won | Registered | Record(result: Result<KeyRecord, StoreError>) | Done

  function Apply(fp: string -> string, w: World, s: Step): (World, Reply) {
    match s
    case Begin(q, h, pk) =>
      if pk == "" || q in w.pending then (w, Rejected)
      else
        var (after, ok) := HSetNX(w.db, KEY + h, PUBLIC_KEY, pk);
        if ok then (World(after, w.pending[q := Claim(h, pk)]), Won) else (w, Taken)
    case Finish(q) =>
      if q !in w.pending then (w, Rejected)
      else
        var c := w.pending[q];
        (World(HSet(w.db, KEY + c.handle, FINGERPRINT, fp(c.publicKey)), w.pending - {q}), Registered)
    case Lookup(h) => (w, Record(KeyAt(w.db, h)))
    case Delete(h) => (w.(db := Del(w.db, KEY + h)), Done)
    case Flush => (w.(db := FlushDB(w.db)), Done)
  }

  function Run(fp: string -> string, w: World, ss: seq<Step>): World
    decreases ss
  {
    if ss == [] then w else Run(fp, Apply(fp, w, ss[0]).0, ss[1..])
  }

  lemma KeyNames(a: string, b: string)
    ensures KEY + a == KEY + b <==> a == b
  {
    assert (KEY + a)[|KEY|..] == a && (KEY + b)[|KEY|..] == b;
  }

  // ---- One winner, one key ----

  predicate Held(db: Db, h: string) {
    PUBLIC_KEY in HGetAll(db, KEY + h)
  }

  function One(b: bool): nat {
    if b then 1 else 0
  }

  function Wins(fp: string -> string, w: World, ss: seq<Step>, h: string): nat
    decreases ss
  {
    if ss == [] then 0
    else One(ss[0].Begin? && ss[0].handle == h && Apply(fp, w, ss[0]).1 == Won) + Wins(fp, Apply(fp, w, ss[0]).0, ss[1..], h)
  }

  /** Removals that took the handle away from somebody. */
  function Removals(fp: string -> string, w: World, ss: seq<Step>, h: string): nat
    decreases ss
  {
    if ss == [] then 0
    else One(Removes(ss[0], h) && Held(w.db, h)) + Removals(fp, Apply(fp, w, ss[0]).0, ss[1..], h)
  }

  predicate Removes(s: Step, h: string) {
    s.Flush? || (s.Delete? && s.handle == h)
  }

  lemma StepOnHandle(fp: string -> string, w: World, s: Step, h: string)
    ensures var (after, reply) := Apply(fp, w, s);
            && (Held(after.db, h) <==> (Held(w.db, h) && !Removes(s, h)) || (s.Begin? && s.handle == h && reply == Won))
            && (Held(after.db, h) && Held(w.db, h) ==> HGetAll(after.db, KEY + h)[PUBLIC_KEY] == HGetAll(w.db, KEY + h)[PUBLIC_KEY])
            && (s.Begin? && s.handle == h && reply == Won ==> !Held(w.db, h) && HGetAll(after.db, KEY + h)[PUBLIC_KEY] == s.publicKey)
  {
    assert PUBLIC_KEY[0] != FINGERPRINT[0];
    match s {
      case Begin(_, g, _) => KeyNames(g, h);
      case Finish(q) => if q in w.pending { KeyNames(w.pending[q].handle, h); }
      case Lookup(_) =>
      case Delete(g) => KeyNames(g, h);
      case Flush =>
    }
  }

  /** In every run, deletions and flushes included, registrations of a handle balance: it is won once for
      every time it was free, so between two removals at most one registrar succeeds. */
  lemma {:induction false} WinsBalance(fp: string -> string, w: World, ss: seq<Step>, h: string)
    ensures One(Held(w.db, h)) + Wins(fp, w, ss, h) == One(Held(Run(fp, w, ss).db, h)) + Removals(fp, w, ss, h)
    decreases ss
  {
    if ss != [] {
      StepOnHandle(fp, w, ss[0], h);
      WinsBalance(fp, Apply(fp, w, ss[0]).0, ss[1..], h);
    }
  }

  /** Until it is removed, a handle keeps the public key of the request that won it, and nobody else wins. */
  lemma {:induction false} KeyNeverChanges(fp: string -> string, w: World, ss: seq<Step>, h: string)
    requires Held(w.db, h) && forall s :: s in ss ==> !Removes(s, h)
    ensures Held(Run(fp, w, ss).db, h)
    ensures HGetAll(Run(fp, w, ss).db, KEY + h)[PUBLIC_KEY] == HGetAll(w.db, KEY + h)[PUBLIC_KEY]
    ensures Wins(fp, w, ss, h) == 0
    decreases ss
  {
    if ss != [] {
      StepOnHandle(fp, w, ss[0], h);
      KeyNeverChanges(fp, Apply(fp, w, ss[0]).0, ss[1..], h);
    }
  }

  // ---- Refinement of the atomic registry ----

  /** The test double's registry: registering writes the whole record at once. */
  type Registry = map<string, KeyRecord>

  function Atomic(fp: string -> string, pending: map<nat, Claim>, reg: Registry, s: Step): (Registry, Reply) {
    match s
    case Begin(q, h, pk) =>
      if pk == "" || q in pending then (reg, Rejected)
      else if h in reg then (reg, Taken)
      else (reg[h := KeyRecord(h, pk, fp(pk))], Won)
    case Finish(q) => (reg, if q in pending then Registered else Rejected)
    case Lookup(h) => (reg, Record(if h in reg then Ok(reg[h]) else Err(NotFound)))
    case Delete(h) => (reg - {h}, Done)
    case Flush => (map[], Done)
  }

  predicate BusyWith(w: World, h: string) {
    exists q :: q in w.pending && w.pending[q].handle == h
  }

  /** The hash of a handle stands for its record; the fingerprint may be missing, while its winner is busy. */
  predicate Stands(fp: string -> string, w: World, reg: Registry, h: string) {
    var hash := HGetAll(w.db, KEY + h);
    if h !in reg then hash == map[]
    else
      && PUBLIC_KEY in hash && hash[PUBLIC_KEY] != ""
      && reg[h] == KeyRecord(h, hash[PUBLIC_KEY], fp(hash[PUBLIC_KEY]))
      && (FINGERPRINT in hash ==> hash[FINGERPRINT] == fp(hash[PUBLIC_KEY]))
      && (FINGERPRINT in hash <==> !BusyWith(w, h))
  }

  /** A busy registrar holds the key that is stored, and is the only one for its handle. */
  predicate Claims(w: World, reg: Registry) {
    && (forall q :: q in w.pending ==> w.pending[q].handle in reg && reg[w.pending[q].handle].publicKey == w.pending[q].publicKey)
    && (forall q, r :: q in w.pending && r in w.pending && w.pending[q].handle == w.pending[r].handle ==> q == r)
  }

  ghost predicate Refines(fp: string -> string, w: World, reg: Registry) {
    Claims(w, reg) && forall h :: Stands(fp, w, reg, h)
  }

  /** The same answer, except that a lookup may find the fingerprint still empty. */
  predicate Matches(concrete: Reply, atomic: Reply) {
    || concrete == atomic
    || (concrete.Record? && atomic.Record? && concrete.result.Ok? && atomic.result.Ok?
        && concrete.result.value == atomic.result.value.(fingerprint := ""))
  }

  /** A removal that does not hit a handle somebody is registering right now. */
  predicate Quiet(w: World, s: Step) {
    && (s.Delete? ==> !BusyWith(w, s.handle))
    && (s.Flush? ==> w.pending == map[])
  }

  lemma StandsAfterBegin(fp: string -> string, w: World, reg: Registry, s: Step, h: string)
    requires Refines(fp, w, reg) && s.Begin? && Apply(fp, w, s).1 == Won
    ensures Stands(fp, Apply(fp, w, s).0, Atomic(fp, w.pending, reg, s).0, h)
  {
    var after := Apply(fp, w, s).0;
    KeyNames(s.handle, h);
    assert PUBLIC_KEY[0] != FINGERPRINT[0];
    assert Stands(fp, w, reg, s.handle) && Stands(fp, w, reg, h);
    if h == s.handle {
      assert s.request in after.pending && after.pending[s.request].handle == h;
    } else {
      assert BusyWith(after, h) <==> BusyWith(w, h) by {
        if BusyWith(w, h) {
          var q :| q in w.pending && w.pending[q].handle == h;
          assert q in after.pending && after.pending[q].handle == h;
        }
      }
    }
  }

  lemma StandsAfterFinish(fp: string -> string, w: World, reg: Registry, s: Step, h: string)
    requires Refines(fp, w, reg) && s.Finish? && s.request in w.pending
    ensures Stands(fp, Apply(fp, w, s).0, reg, h)
  {
    var after, c := Apply(fp, w, s).0, w.pending[s.request];
    KeyNames(c.handle, h);
    assert PUBLIC_KEY[0] != FINGERPRINT[0];
    assert Stands(fp, w, reg, c.handle) && Stands(fp, w, reg, h);
    if h != c.handle {
      assert BusyWith(after, h) <==> BusyWith(w, h) by {
        if BusyWith(w, h) {
          var q :| q in w.pending && w.pending[q].handle == h;
          assert q in after.pending && after.pending[q].handle == h;
        }
      }
    }
  }

  lemma StandsAfterRemoval(fp: string -> string, w: World, reg: Registry, s: Step, h: string)
    requires Refines(fp, w, reg) && (s.Delete? || s.Flush?) && Quiet(w, s)
    ensures Stands(fp, Apply(fp, w, s).0, Atomic(fp, w.pending, reg, s).0, h)
  {
    assert Stands(fp, w, reg, h);
    if s.Delete? {
      KeyNames(s.handle, h);
      assert BusyWith(Apply(fp, w, s).0, h) <==> BusyWith(w, h);
    }
  }

  /** One command of the relay is one operation of the atomic registry, taking effect at the HSETNX. */
  lemma StepRefines(fp: string -> string, w: World, reg: Registry, s: Step)
    requires Refines(fp, w, reg) && Quiet(w, s)
    ensures Refines(fp, Apply(fp, w, s).0, Atomic(fp, w.pending, reg, s).0)
    ensures Matches(Apply(fp, w, s).1, Atomic(fp, w.pending, reg, s).1)
  {
    var (after, reply) := Apply(fp, w, s);
    var reg' := Atomic(fp, w.pending, reg, s).0;
    match s {
      case Begin(_, g, _) =>
        assert Stands(fp, w, reg, g);
        if reply == Won {
          forall h ensures Stands(fp, after, reg', h) { StandsAfterBegin(fp, w, reg, s, h); }
        }
      case Finish(q) =>
        if q in w.pending {
          forall h ensures Stands(fp, after, reg', h) { StandsAfterFinish(fp, w, reg, s, h); }
        }
      case Lookup(g) => assert Stands(fp, w, reg, g);
      case Delete(g) =>
        forall h ensures Stands(fp, after, reg', h) { StandsAfterRemoval(fp, w, reg, s, h); }
        assert forall q :: q in w.pending ==> w.pending[q].handle != g;
      case Flush =>
        forall h ensures Stands(fp, after, reg', h) { StandsAfterRemoval(fp, w, reg, s, h); }
    }
  }

  predicate AllQuiet(fp: string -> string, w: World, ss: seq<Step>)
    decreases ss
  {
    ss == [] || (Quiet(w, ss[0]) && AllQuiet(fp, Apply(fp, w, ss[0]).0, ss[1..]))
  }

  /** Does the atomic registry, run on the same commands, give matching answers throughout? */
  predicate AnswersMatch(fp: string -> string, w: World, reg: Registry, ss: seq<Step>)
    decreases ss
  {
    ss == []
    || (Matches(Apply(fp, w, ss[0]).1, Atomic(fp, w.pending, reg, ss[0]).1)
        && AnswersMatch(fp, Apply(fp, w, ss[0]).0, Atomic(fp, w.pending, reg, ss[0]).0, ss[1..]))
  }

  function AtomicRun(fp: string -> string, w: World, reg: Registry, ss: seq<Step>): Registry
    decreases ss
  {
    if ss == [] then reg else AtomicRun(fp, Apply(fp, w, ss[0]).0, Atomic(fp, w.pending, reg, ss[0]).0, ss[1..])
  }

  /** Any number of registrars, lookups, and removals of handles nobody is registering, interleaved command
      by command, cannot be told from the atomic registry, but for a fingerprint that may come late. */
  lemma {:induction false} RunRefines(fp: string -> string, w: World, reg: Registry, ss: seq<Step>)
    requires Refines(fp, w, reg) && AllQuiet(fp, w, ss)
    ensures Refines(fp, Run(fp, w, ss), AtomicRun(fp, w, reg, ss)) && AnswersMatch(fp, w, reg, ss)
    decreases ss
  {
    if ss != [] {
      StepRefines(fp, w, reg, ss[0]);
      RunRefines(fp, Apply(fp, w, ss[0]).0, Atomic(fp, w.pending, reg, ss[0]).0, ss[1..]);
    }
  }

  // ---- What lookups see, and when a deletion is safe ----

  /** A record a client can rely on: a real key, with its own fingerprint or none yet. */
  predicate Sound(fp: string -> string, rec: KeyRecord) {
    rec.publicKey != "" && (rec.fingerprint == "" || rec.fingerprint == fp(rec.publicKey))
  }

  predicate SoundReply(fp: string -> string, r: Reply) {
    r.Record? && r.result.Ok? ==> Sound(fp, r.result.value)
  }

  predicate AllSound(fp: string -> string, w: World, ss: seq<Step>)
    decreases ss
  {
    ss == [] || (SoundReply(fp, Apply(fp, w, ss[0]).1) && AllSound(fp, Apply(fp, w, ss[0]).0, ss[1..]))
  }

  lemma {:induction false} LookupsSound(fp: string -> string, w: World, reg: Registry, ss: seq<Step>)
    requires Refines(fp, w, reg) && AllQuiet(fp, w, ss)
    ensures AllSound(fp, w, ss)
    decreases ss
  {
    if ss != [] {
      if ss[0].Lookup? {
        assert Stands(fp, w, reg, ss[0].handle);
      }
      StepRefines(fp, w, reg, ss[0]);
      LookupsSound(fp, Apply(fp, w, ss[0]).0, Atomic(fp, w.pending, reg, ss[0]).0, ss[1..]);
    }
  }

  predicate NoRemoval(ss: seq<Step>) {
    forall s :: s in ss ==> !s.Delete? && !s.Flush?
  }

  lemma {:induction false} NoRemovalIsQuiet(fp: string -> string, w: World, ss: seq<Step>)
    requires NoRemoval(ss)
    ensures AllQuiet(fp, w, ss)
    decreases ss
  {
    if ss != [] {
      assert ss[0] in ss && forall s :: s in ss[1..] ==> s in ss;
      NoRemovalIsQuiet(fp, Apply(fp, w, ss[0]).0, ss[1..]);
    }
  }

  /** Starting from nothing and without removals, every lookup in every run is sound. */
  lemma RegistrationsOnly(fp: string -> string, ss: seq<Step>)
    requires NoRemoval(ss)
    ensures AllSound(fp, World(EMPTY, map[]), ss)
    ensures forall h :: Wins(fp, World(EMPTY, map[]), ss, h) <= 1
  {
    var w := World(EMPTY, map[]);
    NoRemovalIsQuiet(fp, w, ss);
    LookupsSound(fp, w, map[], ss);
    forall h ensures Wins(fp, w, ss, h) <= 1 {
      WinsBalance(fp, w, ss, h);
      NoRemovals(fp, w, ss, h);
    }
  }

  lemma {:induction false} NoRemovals(fp: string -> string, w: World, ss: seq<Step>, h: string)
    requires NoRemoval(ss)
    ensures Removals(fp, w, ss, h) == 0
    decreases ss
  {
    if ss != [] {
      assert ss[0] in ss && forall s :: s in ss[1..] ==> s in ss;
      NoRemovals(fp, Apply(fp, w, ss[0]).0, ss[1..], h);
    }
  }

  /** Whatever registrars and lookups do after a deletion, every lookup is sound: true exactly when nobody
      was registering the handle at that moment. */
  lemma DeleteIsSafeIff(fp: string -> string, w: World, reg: Registry, h: string)
    requires Refines(fp, w, reg)
    ensures (forall ss | NoRemoval(ss) :: AllSound(fp, Apply(fp, w, Delete(h)).0, ss)) <==> !BusyWith(w, h)
  {
    var after := Apply(fp, w, Delete(h)).0;
    if BusyWith(w, h) {
      var q :| q in w.pending && w.pending[q].handle == h;
      var ss := [Finish(q), Lookup(h)];
      LateFingerprint(fp, w, h, q);
      assert NoRemoval(ss) && !AllSound(fp, after, ss);
    } else {
      StepRefines(fp, w, reg, Delete(h));
      forall ss | NoRemoval(ss) ensures AllSound(fp, after, ss) {
        NoRemovalIsQuiet(fp, after, ss);
        LookupsSound(fp, after, reg - {h}, ss);
      }
    }
  }

  /** And so with a flush, which takes every handle away: safe exactly when nobody was registering anything. */
  lemma FlushIsSafeIff(fp: string -> string, w: World, reg: Registry)
    requires Refines(fp, w, reg)
    ensures (forall ss | NoRemoval(ss) :: AllSound(fp, Apply(fp, w, Flush).0, ss)) <==> w.pending == map[]
  {
    var after := Apply(fp, w, Flush).0;
    if w.pending != map[] {
      var q :| q in w.pending;
      var h := w.pending[q].handle;
      FinishAlone(fp, after, h, q);
      assert NoRemoval([Finish(q), Lookup(h)]);
    } else {
      StepRefines(fp, w, reg, Flush);
      forall ss | NoRemoval(ss) ensures AllSound(fp, after, ss) {
        NoRemovalIsQuiet(fp, after, ss);
        LookupsSound(fp, after, map[], ss);
      }
    }
  }

  /** A registrar that finishes on a handle that is gone revives it, without a public key. */
  lemma FinishAlone(fp: string -> string, after: World, h: string, q: nat)
    requires q in after.pending && after.pending[q].handle == h && HGetAll(after.db, KEY + h) == map[]
    ensures KeyAt(Run(fp, after, [Finish(q)]).db, h) == Ok(KeyRecord(h, "", fp(after.pending[q].publicKey)))
    ensures !AllSound(fp, after, [Finish(q), Lookup(h)])
  {
    var ss := [Finish(q), Lookup(h)];
    var late := Apply(fp, after, Finish(q)).0;
    assert HGetAll(late.db, KEY + h) == map[FINGERPRINT := fp(after.pending[q].publicKey)];
    assert PUBLIC_KEY[0] != FINGERPRINT[0];
    assert FINGERPRINT in HGetAll(late.db, KEY + h);
    assert KeyAt(late.db, h) == Ok(KeyRecord(h, "", fp(after.pending[q].publicKey)));
    assert !SoundReply(fp, Apply(fp, late, Lookup(h)).1);
    RunOn(fp, after, Finish(q), []);
    assert ss[1..] == [Lookup(h)] && !AllSound(fp, late, ss[1..]);
  }

  /** The registrar that was busy revives the deleted handle, without a public key. */
  lemma LateFingerprint(fp: string -> string, w: World, h: string, q: nat)
    requires q in w.pending && w.pending[q].handle == h
    ensures var after := Apply(fp, w, Delete(h)).0;
            && KeyAt(Run(fp, after, [Finish(q)]).db, h) == Ok(KeyRecord(h, "", fp(w.pending[q].publicKey)))
            && !AllSound(fp, after, [Finish(q), Lookup(h)])
  {
    FinishAlone(fp, Apply(fp, w, Delete(h)).0, h, q);
  }

  /** Or it leaves its own fingerprint beside the key of whoever registered the handle next, for good. */
  lemma ForeignFingerprint(fp: string -> string, w: World, h: string, q: nat, r: nat, pk: string)
    requires q in w.pending && w.pending[q].handle == h && r !in w.pending && pk != ""
    ensures KeyAt(Run(fp, w, [Delete(h), Begin(r, h, pk), Finish(r), Finish(q)]).db, h)
         == Ok(KeyRecord(h, pk, fp(w.pending[q].publicKey)))
  {
    var w2 := Apply(fp, Apply(fp, w, Delete(h)).0, Begin(r, h, pk)).0;
    assert HGetAll(w2.db, KEY + h) == map[PUBLIC_KEY := pk] && w2.pending == w.pending[r := Claim(h, pk)];
    LastFingerprintStays(fp, w2, h, r, q);
    RunFour(fp, w, Delete(h), Begin(r, h, pk), Finish(r), Finish(q));
  }

  /** Of two registrars busy with one handle, the one that finishes last decides the fingerprint. */
  lemma LastFingerprintStays(fp: string -> string, w: World, h: string, r: nat, q: nat)
    requires q in w.pending && r in w.pending && q != r
    requires w.pending[q].handle == h && w.pending[r].handle == h && Held(w.db, h)
    ensures KeyAt(Apply(fp, Apply(fp, w, Finish(r)).0, Finish(q)).0.db, h)
         == Ok(KeyRecord(h, HGetAll(w.db, KEY + h)[PUBLIC_KEY], fp(w.pending[q].publicKey)))
  {
    assert PUBLIC_KEY[0] != FINGERPRINT[0];
    var w1 := Apply(fp, w, Finish(r)).0;
    assert q in w1.pending && w1.pending[q] == w.pending[q];
    var w2 := Apply(fp, w1, Finish(q)).0;
    assert HGetAll(w2.db, KEY + h) ==
           HGetAll(w.db, KEY + h)[FINGERPRINT := fp(w.pending[r].publicKey)][FINGERPRINT := fp(w.pending[q].publicKey)];
    assert FINGERPRINT in HGetAll(w2.db, KEY + h);
  }

  lemma RunOn(fp: string -> string, w: World, s: Step, ss: seq<Step>)
    ensures Run(fp, w, [s] + ss) == Run(fp, Apply(fp, w, s).0, ss)
  {
    assert ([s] + ss)[1..] == ss;
  }

  lemma RunFour(fp: string -> string, w: World, a: Step, b: Step, c: Step, d: Step)
    ensures Run(fp, w, [a, b, c, d]) == Apply(fp, Apply(fp, Apply(fp, Apply(fp, w, a).0, b).0, c).0, d).0
  {
    var w1 := Apply(fp, w, a).0;
    var w2 := Apply(fp, w1, b).0;
    var w3 := Apply(fp, w2, c).0;
    RunOn(fp, w, a, [b, c, d]);
    RunOn(fp, w1, b, [c, d]);
    RunOn(fp, w2, c, [d]);
    RunOn(fp, w3, d, []);
    assert [a, b, c, d] == [a] + [b, c, d] && [b, c, d] == [b] + [c, d] && [c, d] == [c] + [d] && [d] == [d] + [];
  }
}
