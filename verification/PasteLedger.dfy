/** Pastes under every interleaving. Putting and reading a paste are one Redis command each, so a run of
    any number of clients is any sequence of these events. */
module PasteLedger {
  import opened Ascii
  import opened Base64
  import opened ShareIds
  import opened Redis
  import opened RelayStore

  /** `Other` stands for any command on keys of another kind: it may do anything to those. */
  datatype Event =
    | Put(id: string, ciphertext: bytes, ttl: int)
    | Read(id: string)
    | Tick(t: int)
    | Flush
    | Other(lists: map<string, Cell<seq<Envelope>>>, sets: map<string, Cell<set<string>>>,
            hashes: map<string, map<string, string>>)

  datatype Reply = Stored | Collision | Found(ciphertext: bytes) | Missing | Done

  function Apply(db: Db, e: Event): (Db, Reply) {
    match e
    case Put(id, c, ttl) =>
      var (after, ok) := SetNX(db, PASTE + id, c, ttl);
      (after, if ok then Stored else Collision)
    case Read(id) =>
      var (after, v) := if IsBurnAfterReading(id) then GetDel(db, PASTE + id) else (db, Get(db, PASTE + id));
      (after, if v.Some? then Found(v.value) else Missing)
    case Tick(t) => (if t < db.now then db else Advance(db, t), Done)
    case Flush => (FlushDB(db), Done)
    case Other(lists, sets, hashes) => (db.(lists := lists, sets := sets, hashes := hashes), Done)
  }

  function Run(db: Db, es: seq<Event>): Db
    decreases es
  {
    if es == [] then db else Run(Apply(db, es[0]).0, es[1..])
  }

  predicate Present(db: Db, id: string) {
    PASTE + id in db.strings
  }

  /** What a run did to one ID, counted from the replies and from what vanished. */
  datatype Tally = Tally(stored: nat, fetched: nat, expired: nat, flushed: nat)

  /** What one event does to it. */
  function Outcome(db: Db, e: Event, id: string): Tally {
    var (after, reply) := Apply(db, e);
    match e
    case Put(i, _, _) => Tally(One(i == id && reply == Stored), 0, 0, 0)
    case Read(i) => Tally(0, One(i == id && reply.Found?), 0, 0)
    case Tick(_) => Tally(0, 0, One(Present(db, id) && !Present(after, id)), 0)
    case Flush => Tally(0, 0, 0, One(Present(db, id)))
    case Other(_, _, _) => Tally(0, 0, 0, 0)
  }

  function Plus(a: Tally, b: Tally): Tally {
    Tally(a.stored + b.stored, a.fetched + b.fetched, a.expired + b.expired, a.flushed + b.flushed)
  }

  function Count(db: Db, es: seq<Event>, id: string): Tally
    decreases es
  {
    if es == [] then Tally(0, 0, 0, 0) else Plus(Outcome(db, es[0], id), Count(Apply(db, es[0]).0, es[1..], id))
  }

  function One(b: bool): nat {
    if b then 1 else 0
  }

  lemma PasteNamesDiffer(a: string, b: string)
    ensures PASTE + a == PASTE + b <==> a == b
  {
    assert (PASTE + a)[|PASTE|..] == a && (PASTE + b)[|PASTE|..] == b;
  }

  /** What must have gone, for what was there and what was put not to be there any more. */
  function Spent(c: Tally, id: string): nat {
    (if IsBurnAfterReading(id) then c.fetched else 0) + c.expired + c.flushed
  }

  lemma StepBalances(db: Db, e: Event, id: string)
    ensures var c := Outcome(db, e, id);
            One(Present(db, id)) + c.stored == One(Present(Apply(db, e).0, id)) + Spent(c, id)
  {
    if e.Put? || e.Read? {
      PasteNamesDiffer(e.id, id);
    }
  }

  /** The ledger balances in every run: what was put and is not there any more was read (if reading burns
      it), expired or flushed; and reading a persistent paste removes nothing. */
  lemma {:induction false} Ledger(db: Db, es: seq<Event>, id: string)
    ensures var c := Count(db, es, id);
            One(Present(db, id)) + c.stored == One(Present(Run(db, es), id)) + Spent(c, id)
    decreases es
  {
    if es != [] {
      StepBalances(db, es[0], id);
      Ledger(Apply(db, es[0]).0, es[1..], id);
    }
  }

  lemma CountedByEvent(db: Db, e: Event, id: string)
    ensures var t := Outcome(db, e, id);
            && (t.expired > 0 ==> e.Tick?) && (t.flushed > 0 ==> e.Flush?)
            && (t.stored > 0 ==> e.Put? && e.id == id) && (t.fetched > 0 ==> e.Read? && e.id == id)
  {
  }

  /** Only the clock expires, only a flush flushes, only puts store and only reads fetch. */
  lemma {:induction false} CountedByKind(db: Db, es: seq<Event>, id: string)
    ensures Count(db, es, id).expired > 0 ==> exists e :: e in es && e.Tick?
    ensures Count(db, es, id).flushed > 0 ==> exists e :: e in es && e.Flush?
    ensures Count(db, es, id).stored > 0 ==> exists e :: e in es && e.Put? && e.id == id
    ensures Count(db, es, id).fetched > 0 ==> exists e :: e in es && e.Read? && e.id == id
    decreases es
  {
    if es != [] {
      CountedByEvent(db, es[0], id);
      CountedByKind(Apply(db, es[0]).0, es[1..], id);
      assert es[0] in es && forall e :: e in es[1..] ==> e in es;
    }
  }

  /** However many readers race for one burn paste that was put once, at most one of them gets it; exactly
      one, if it is gone by the end without having expired or been flushed. */
  lemma BurnOnce(db: Db, es: seq<Event>, id: string)
    requires IsBurnAfterReading(id) && !Present(db, id)
    ensures var c := Count(db, es, id);
            c.stored == 1 ==>
              && c.fetched <= 1
              && (c.expired == c.flushed == 0 ==> c.fetched == One(!Present(Run(db, es), id)))
  {
    Ledger(db, es, id);
  }

  /** The ciphertext of the last put of an ID that was accepted, with its deadline. */
  function LastPut(db: Db, es: seq<Event>, id: string, before: Option<Cell<bytes>>): Option<Cell<bytes>>
    decreases es
  {
    if es == [] then before
    else
      var (after, reply) := Apply(db, es[0]);
      LastPut(after, es[1..], id,
        if es[0].Put? && es[0].id == id && reply == Stored
        then Some(Cell(es[0].ciphertext, if es[0].ttl > 0 then Some(db.now + es[0].ttl) else None))
        else before)
  }

  /** Whatever is there is what the last accepted put stored: bytes and deadline, untouched since. */
  lemma {:induction false} ContentsAreLastPut(db: Db, es: seq<Event>, id: string, before: Option<Cell<bytes>>)
    requires Present(db, id) ==> before == Some(db.strings[PASTE + id])
    ensures Present(Run(db, es), id) ==> LastPut(db, es, id, before) == Some(Run(db, es).strings[PASTE + id])
    decreases es
  {
    if es != [] {
      var (after, reply) := Apply(db, es[0]);
      if es[0].Put? || es[0].Read? {
        PasteNamesDiffer(es[0].id, id);
      }
      ContentsAreLastPut(after, es[1..], id,
        if es[0].Put? && es[0].id == id && reply == Stored
        then Some(Cell(es[0].ciphertext, if es[0].ttl > 0 then Some(db.now + es[0].ttl) else None))
        else before);
    }
  }

  /** A paste that is read at the end of any run from an empty store gives exactly the bytes of the last
      accepted put of its ID. */
  lemma ReadsGiveLastPut(es: seq<Event>, id: string)
    ensures var reply := Apply(Run(EMPTY, es), Read(id)).1;
            reply.Found? ==> LastPut(EMPTY, es, id, None).Some? && LastPut(EMPTY, es, id, None).value.value == reply.ciphertext
  {
    ContentsAreLastPut(EMPTY, es, id, None);
  }

  /** When the clock moves on, a paste is gone from its deadline on and there before; a clock that runs back is
      not followed. */
  lemma GoneAtDeadline(db: Db, id: string, t: int)
    requires Present(db, id)
    ensures var after := Apply(db, Tick(t)).0;
            && after.now == (if t < db.now then db.now else t)
            && (t < db.now ==> after == db)
            && (t >= db.now ==> (Present(after, id) <==>
                  db.strings[PASTE + id].deadline == None || t < db.strings[PASTE + id].deadline.value))
  {
  }

  /** No paste outlives the policy: with lifetimes from `min` to `max`, one that is present was put at some
      time `at`, has its deadline between `at + min` and `at + max`, and that deadline is still to come. */
  lemma NothingLivesForever(es: seq<Event>, id: string, min: int, max: int)
    requires 0 < min && forall e :: e in es && e.Put? ==> min <= e.ttl <= max
    requires Present(Run(EMPTY, es), id)
    ensures exists at :: PutWithin(EMPTY, es, id, at, min, max) && Run(EMPTY, es).now < at + max
  {
    DeadlineFromPut(EMPTY, es, id, min, max);
    StillPending(EMPTY, es);
  }

  lemma {:induction false} StillPending(db: Db, es: seq<Event>)
    requires forall k :: k in db.strings ==> Pending(db.strings[k].deadline, db.now)
    ensures forall k :: k in Run(db, es).strings ==> Pending(Run(db, es).strings[k].deadline, Run(db, es).now)
    decreases es
  {
    if es != [] {
      StillPending(Apply(db, es[0]).0, es[1..]);
    }
  }

  /** An accepted put of `id` at time `at`. */
  ghost predicate PutAt(db: Db, es: seq<Event>, id: string, at: int)
    decreases es
  {
    es != []
    && ((es[0].Put? && es[0].id == id && Apply(db, es[0]).1 == Stored && db.now == at)
        || PutAt(Apply(db, es[0]).0, es[1..], id, at))
  }

  ghost predicate DeadlineWithin(db: Db, id: string, at: int, min: int, max: int) {
    Present(db, id) && db.strings[PASTE + id].deadline.Some?
    && at + min <= db.strings[PASTE + id].deadline.value <= at + max
  }

  /** An accepted put at `at` explains the deadline that the paste has at the end of the run. */
  ghost predicate PutWithin(db: Db, es: seq<Event>, id: string, at: int, min: int, max: int) {
    PutAt(db, es, id, at) && DeadlineWithin(Run(db, es), id, at, min, max)
  }

  /** Only an accepted put can change what a present ID holds. */
  lemma KeptWhilePresent(db: Db, e: Event, id: string)
    requires Present(Apply(db, e).0, id) && !(e.Put? && e.id == id && !Present(db, id))
    ensures Present(db, id) && Apply(db, e).0.strings[PASTE + id] == db.strings[PASTE + id]
  {
    if e.Put? || e.Read? {
      PasteNamesDiffer(e.id, id);
    }
  }

  lemma {:induction false} DeadlineFromPut(db: Db, es: seq<Event>, id: string, min: int, max: int)
    requires 0 < min && forall e :: e in es && e.Put? ==> min <= e.ttl <= max
    requires Present(Run(db, es), id)
    ensures || (exists at :: PutWithin(db, es, id, at, min, max))
            || (Present(db, id) && Run(db, es).strings[PASTE + id] == db.strings[PASTE + id])
    decreases es
  {
    if es != [] {
      var e := es[0];
      var after := Apply(db, e).0;
      if e.Put? || e.Read? {
        PasteNamesDiffer(e.id, id);
      }
      assert e in es && forall f :: f in es[1..] ==> f in es;
      DeadlineFromPut(after, es[1..], id, min, max);
      if exists at :: PutWithin(after, es[1..], id, at, min, max) {
        var at :| PutWithin(after, es[1..], id, at, min, max);
        assert PutWithin(db, es, id, at, min, max);
      } else if e.Put? && e.id == id && !Present(db, id) {
        assert PutWithin(db, es, id, db.now, min, max);
      } else {
        KeptWhilePresent(db, e, id);
      }
    }
  }

  // ---- The mode in the ID, against the flag beside the ciphertext ----

  /** MockClient's pastes: the burn flag is stored with the ciphertext. */
  type Mock = map<string, (bytes, bool)>

  function MockPut(m: Mock, id: string, c: bytes, burn: bool): Mock {
    m[id := (c, burn)]
  }

  function MockGet(m: Mock, id: string): (Mock, Option<bytes>) {
    if id !in m then (m, None)
    else (if m[id].1 then m - {id} else m, Some(m[id].0))
  }

  /** Puts and gets as a client sees them. */
  datatype Op = Post(id: string, burn: bool, ciphertext: bytes) | Fetch(id: string)

  function RelayAnswers(db: Db, ops: seq<Op>, ttl: int): seq<Option<bytes>>
    decreases ops
  {
    if ops == [] then []
    else if ops[0].Post? then
      RelayAnswers(SetNX(db, PASTE + ops[0].id, ops[0].ciphertext, ttl).0, ops[1..], ttl)
    else
      var (after, reply) := Apply(db, Read(ops[0].id));
      [if reply.Found? then Some(reply.ciphertext) else None] + RelayAnswers(after, ops[1..], ttl)
  }

  function MockAnswers(m: Mock, ops: seq<Op>): seq<Option<bytes>>
    decreases ops
  {
    if ops == [] then []
    else if ops[0].Post? then MockAnswers(MockPut(m, ops[0].id, ops[0].ciphertext, ops[0].burn), ops[1..])
    else
      var (after, v) := MockGet(m, ops[0].id);
      [v] + MockAnswers(after, ops[1..])
  }

  /** Posted IDs are new, and each was generated for the mode it was posted with. */
  ghost predicate Generated(used: set<string>, ops: seq<Op>)
    decreases ops
  {
    ops == [] || (if ops[0].Post?
                  then ops[0].id !in used && MadeBy(ops[0].id, ops[0].burn) && Generated(used + {ops[0].id}, ops[1..])
                  else Generated(used, ops[1..]))
  }

  ghost predicate MadeBy(id: string, burn: bool) {
    exists buf: bytes :: |buf| == RANDOM_LENGTH && id == New(burn, buf)
  }

  /** Both stores hold the same pastes, and each flag says what the ID says. */
  ghost predicate Agree(db: Db, m: Mock) {
    && (forall id :: id in m <==> Present(db, id))
    && (forall id :: id in m ==> m[id] == (db.strings[PASTE + id].value, IsBurnAfterReading(id)))
  }

  lemma ModeOfMade(id: string, burn: bool)
    requires MadeBy(id, burn)
    ensures IsBurnAfterReading(id) == burn
  {
    var buf: bytes :| |buf| == RANDOM_LENGTH && id == New(burn, buf);
    NewIsBijective(burn, buf, id);
  }

  lemma AgreeAfterPut(db: Db, m: Mock, id: string, c: bytes, burn: bool, ttl: int)
    requires Agree(db, m) && !Present(db, id) && IsBurnAfterReading(id) == burn
    ensures Agree(SetNX(db, PASTE + id, c, ttl).0, MockPut(m, id, c, burn))
  {
    forall x ensures PASTE + x == PASTE + id <==> x == id {
      PasteNamesDiffer(x, id);
    }
  }

  lemma AgreeAfterGet(db: Db, m: Mock, id: string)
    requires Agree(db, m)
    ensures Agree(Apply(db, Read(id)).0, MockGet(m, id).0)
    ensures Apply(db, Read(id)).1 == (if MockGet(m, id).1.Some? then Found(MockGet(m, id).1.value) else Missing)
  {
    forall x ensures PASTE + x == PASTE + id <==> x == id {
      PasteNamesDiffer(x, id);
    }
  }

  /** Deciding GET or GETDEL from the ID alone answers every sequence of posts and fetches, of known and of
      unknown IDs, as the store that keeps the burn flag does. */
  lemma {:induction false} ModeInIdRefines(db: Db, m: Mock, used: set<string>, ops: seq<Op>, ttl: int)
    requires Generated(used, ops) && Agree(db, m)
    requires forall id :: id in m ==> id in used
    ensures RelayAnswers(db, ops, ttl) == MockAnswers(m, ops)
    decreases ops
  {
    if ops != [] {
      var op := ops[0];
      if op.Post? {
        ModeOfMade(op.id, op.burn);
        AgreeAfterPut(db, m, op.id, op.ciphertext, op.burn, ttl);
        ModeInIdRefines(SetNX(db, PASTE + op.id, op.ciphertext, ttl).0, MockPut(m, op.id, op.ciphertext, op.burn),
                        used + {op.id}, ops[1..], ttl);
      } else {
        AgreeAfterGet(db, m, op.id);
        ModeInIdRefines(Apply(db, Read(op.id)).0, MockGet(m, op.id).0, used, ops[1..], ttl);
      }
    }
  }

  /** From empty stores. */
  lemma ModeInIdRefinesFlag(ops: seq<Op>, ttl: int)
    requires Generated({}, ops)
    ensures RelayAnswers(EMPTY, ops, ttl) == MockAnswers(map[], ops)
  {
    ModeInIdRefines(EMPTY, map[], {}, ops, ttl);
  }
}
