/** The two layers agree: the commands of one push or one drain, with nobody else about, do what the whole
    operation of RelayStore does, in whatever order a drain's loops visit senders and keys. */
module InboxAlone {
  import opened Ascii
  import opened Redis
  import opened RelayStore
  import opened InboxSteps

  ghost predicate Good(db: Db) {
    WellNamed(db) && Live(db)
  }

  /** The four commands of a push. */
  lemma PushAlone(w: World, p: nat, r: string, s: string, m: Envelope, ttl: int, pick: string)
    requires Good(w.db) && p !in w.pcs && ttl > 0
    ensures var w1 := Apply(w, Push(p, r, s, m, ttl));
            var w2 := Apply(w1, Next(p, pick));
            var w3 := Apply(w2, Next(p, pick));
            var w4 := Apply(w3, Next(p, pick));
            w4.db == Pushed(w.db, r, s, m, ttl) && w4.pcs == w.pcs[p := Stop]
  {
    var w1 := Apply(w, Push(p, r, s, m, ttl));
    assert w1.db == RPush(w.db, InboxName(r, s), m) && w1.pcs == w.pcs[p := Timing(r, s, ttl)];
    PushRest(w1, p, r, s, ttl, pick);
    PushPipeline(w.db, r, s, m, ttl);
    SetTwice(w.pcs, p, Timing(r, s, ttl), Stop);
  }

  lemma SetTwice(pcs: map<nat, Pc>, p: nat, a: Pc, b: Pc)
    ensures pcs[p := a][p := b] == pcs[p := b]
  {
  }

  lemma PushRest(w: World, p: nat, r: string, s: string, ttl: int, pick: string)
    requires p in w.pcs && w.pcs[p] == Timing(r, s, ttl)
    ensures var w2 := Apply(w, Next(p, pick));
            var w3 := Apply(w2, Next(p, pick));
            var w4 := Apply(w3, Next(p, pick));
            && w4.db == Expire(SAdd(Expire(w.db, InboxName(r, s), ttl), SENDERS + r, s), SENDERS + r, ttl)
            && w4.pcs == w.pcs[p := Stop]
  {
  }

  /** The three commands of draining one sender's queue, or the one command if it is empty. */
  lemma DrainOneAlone(w: World, p: nat, r: string, s: string, pick: string)
    requires Good(w.db) && p !in w.pcs
    ensures var w1 := Apply(w, DrainOne(p, r, s));
            if LRange(w.db, InboxName(r, s)) == [] then w1.db == ClearOne(w.db, r, s) && w1.pcs[p] == Stop
            else
              var w2 := Apply(w1, Next(p, pick));
              var w3 := Apply(w2, Next(p, pick));
              var k := InboxName(r, s);
              var t := At(w, k);
              && w3.db == ClearOne(w.db, r, s) && w3.pcs == w.pcs[p := Stop]
              && At(w3, k).spans == t.spans + [Span(|t.fate|, |t.pushed|, LRange(w.db, k))]
  {
  }

  // ---- Draining everything ----

  /** Where a drain of `r` stands between its commands, having emptied the queues in `order`. */
  ghost predicate AtLoop(start: Db, sets: map<string, Cell<set<string>>>, pc: Pc, r: string, order: seq<string>) {
    var senders := SMembers(start, SENDERS + r);
    match pc
    case Serving(r', todo) => r' == r && todo <= senders && Indexed(start, r, senders - todo, order)
    case Unindexing(r', _, after) => r' == r && after.Serving? && AtLoop(start, sets, after, r, order)
    case Listing(r') => r' == r && SENDERS + r !in sets && Indexed(start, r, senders, order)
    case Scanning(keys) =>
      && SENDERS + r !in sets && Indexed(start, r, senders, order) && Scanned(start, r, keys, order)
      && forall k :: k in keys ==> Glob(ScanPattern(r), k)
    case _ => false
  }

  ghost predicate AtPc(start: Db, db: Db, pc: Pc, r: string, order: seq<string>) {
    if pc.Clearing? then pc.key in db.lists && Reached(start, r, pc.key) && AtLoop(start, db.sets, pc.after, r, order + [pc.key])
    else AtLoop(start, db.sets, pc, r, order)
  }

  ghost predicate Draining(start: Db, w: World, p: nat, r: string, order: seq<string>, msgs: seq<Envelope>) {
    Good(w.db) && p in w.pcs && Partway(start, w.db, r, order, msgs) && AtPc(start, w.db, w.pcs[p], r, order)
  }

  lemma ServeStep(start: Db, w: World, p: nat, r: string, order: seq<string>, msgs: seq<Envelope>, pick: string)
    requires Draining(start, w, p, r, order, msgs) && w.pcs[p].Serving? && pick in w.pcs[p].senders
    ensures Draining(start, NextStep(w, p, pick), p, r, order, msgs)
  {
    var senders, todo := SMembers(start, SENDERS + r), w.pcs[p].senders;
    IndexedOneMore(start, w.db, r, senders - todo, order, msgs, pick);
    assert senders - (todo - {pick}) == senders - todo + {pick};
    var k, rest := InboxName(r, pick), Serving(r, todo - {pick});
    if LRange(w.db, k) != [] {
      assert Reached(start, r, k);
      assert AtLoop(start, w.db.sets, rest, r, order + [k]);
      assert AtLoop(start, w.db.sets, Unindexing(r, pick, rest), r, order + [k]);
    } else {
      assert k !in w.db.lists;
      assert AtLoop(start, w.db.sets, rest, r, order);
    }
  }

  lemma IndexStep(start: Db, w: World, p: nat, r: string, order: seq<string>, msgs: seq<Envelope>, pick: string)
    requires Draining(start, w, p, r, order, msgs)
    requires (w.pcs[p].Serving? && w.pcs[p].senders == {}) || w.pcs[p].Unindexing?
    ensures Draining(start, NextStep(w, p, pick), p, r, order, msgs)
  {
    var senders := SMembers(start, SENDERS + r);
    if w.pcs[p].Serving? {
      RemoveIndex(w.db, SENDERS + r);
      assert senders - {} == senders;
      assert w.db.sets - {SENDERS + r} - {SENDERS + r} == w.db.sets - {SENDERS + r};
    } else {
      var s, after := w.pcs[p].sender, w.pcs[p].after;
      RemoveSender(w.db, SENDERS + r, s);
      assert AtLoop(start, w.db.sets, after, r, order);
      assert AtLoop(start, SRem(w.db, SENDERS + r, s).sets, after, r, order);
    }
  }

  lemma ScanStep(start: Db, w: World, p: nat, r: string, order: seq<string>, msgs: seq<Envelope>, pick: string)
    requires Draining(start, w, p, r, order, msgs) && (w.pcs[p].Listing? || w.pcs[p].Scanning?)
    ensures Draining(start, NextStep(w, p, pick), p, r, order, msgs)
  {
    if w.pcs[p].Listing? {
      var keys := Keys(w.db, ScanPattern(r));
      forall k | k in start.lists && Glob(ScanPattern(r), k) ensures k in order || k in keys {
        assert k !in order ==> k in w.db.lists;
      }
      assert AtLoop(start, w.db.sets, Scanning(keys), r, order);
    } else if pick in w.pcs[p].keys {
      var rest := Scanning(w.pcs[p].keys - {pick});
      if LRange(w.db, pick) == [] {
        assert AtLoop(start, w.db.sets, rest, r, order);
      } else {
        assert Reached(start, r, pick);
        assert AtLoop(start, w.db.sets, rest, r, order + [pick]);
      }
    }
  }

  lemma ClearStep(start: Db, w: World, p: nat, r: string, order: seq<string>, msgs: seq<Envelope>, pick: string)
    requires Draining(start, w, p, r, order, msgs) && w.pcs[p].Clearing?
    ensures Draining(start, NextStep(w, p, pick), p, r, order + [w.pcs[p].key], msgs + LRange(w.db, w.pcs[p].key))
  {
    var k := w.pcs[p].key;
    RemoveQueue(w.db, k);
    PartwayStep(start, w.db, Del(w.db, k), r, order, msgs, k);
  }

  /** What a request has read and not yet deleted. */
  function Unread(w: World, p: nat): seq<Envelope> {
    if p in w.pcs && w.pcs[p].Clearing? then LRange(w.db, w.pcs[p].key) else []
  }

  /** What a step of request `p` adds to its answer: the queue it has just read. */
  function Answered(w: World, s: Step, p: nat): seq<Envelope> {
    if p in w.pcs && w.pcs[p].Clearing? then [] else Unread(Apply(w, s), p)
  }

  /** The answer that the steps of `p` put together, batch by batch. */
  function Answer(w: World, ss: seq<Step>, p: nat): seq<Envelope>
    decreases ss
  {
    if ss == [] then [] else Answered(w, ss[0], p) + Answer(Apply(w, ss[0]), ss[1..], p)
  }

  /** One step: what has been read is what has been deleted and what is about to be. */
  lemma AnyStep(start: Db, w: World, p: nat, r: string, order: seq<string>, msgs: seq<Envelope>, pick: string)
    returns (order': seq<string>, msgs': seq<Envelope>)
    requires Draining(start, w, p, r, order, msgs)
    ensures Draining(start, NextStep(w, p, pick), p, r, order', msgs')
    ensures msgs' + Unread(NextStep(w, p, pick), p) == msgs + Unread(w, p) + Answered(w, Next(p, pick), p)
  {
    order', msgs' := order, msgs;
    match w.pcs[p] {
      case Clearing(k, _, _) =>
        ClearStep(start, w, p, r, order, msgs, pick);
        order', msgs' := order + [k], msgs + LRange(w.db, k);
        assert !NextStep(w, p, pick).pcs[p].Clearing?;
      case Serving(_, senders) =>
        if senders == {} { IndexStep(start, w, p, r, order, msgs, pick); }
        else if pick in senders { ServeStep(start, w, p, r, order, msgs, pick); }
      case Unindexing(_, _, _) => IndexStep(start, w, p, r, order, msgs, pick);
      case _ => ScanStep(start, w, p, r, order, msgs, pick);
    }
  }

  predicate Only(ss: seq<Step>, p: nat) {
    forall s :: s in ss ==> s.Next? && s.p == p
  }

  lemma JoinAnswers(a: seq<Envelope>, b: seq<Envelope>, c: seq<Envelope>, d: seq<Envelope>)
    ensures a + b + c + d == a + b + (c + d)
  {
  }

  lemma {:induction false} AnyRun(start: Db, w: World, p: nat, r: string, order: seq<string>, msgs: seq<Envelope>, ss: seq<Step>)
    returns (order': seq<string>, msgs': seq<Envelope>)
    requires Draining(start, w, p, r, order, msgs) && Only(ss, p)
    ensures Draining(start, Run(w, ss), p, r, order', msgs')
    ensures msgs' + Unread(Run(w, ss), p) == msgs + Unread(w, p) + Answer(w, ss, p)
    decreases ss
  {
    order', msgs' := order, msgs;
    if ss != [] {
      assert ss[0] in ss && forall s :: s in ss[1..] ==> s in ss;
      var order1, msgs1 := AnyStep(start, w, p, r, order, msgs, ss[0].pick);
      order', msgs' := AnyRun(start, Apply(w, ss[0]), p, r, order1, msgs1, ss[1..]);
      JoinAnswers(msgs, Unread(w, p), Answered(w, ss[0], p), Answer(Apply(w, ss[0]), ss[1..], p));
    }
  }

  /** A drain of everything that runs alone to its end, whatever it picks next in its two loops, leaves
      behind what the whole operation does, and its answer is what the whole operation returns: the
      queues it took, each whole and once, in the order it took them. */
  lemma DrainAllAlone(w: World, p: nat, r: string, ss: seq<Step>) returns (order: seq<string>)
    requires Good(w.db) && p !in w.pcs && Only(ss, p)
    requires var end := Run(Apply(w, DrainAll(p, r)), ss); p in end.pcs && end.pcs[p] == Scanning({})
    ensures IsDrainOrder(w.db, r, order) && Run(Apply(w, DrainAll(p, r)), ss).db == ClearAll(w.db, r, order)
    ensures Answer(Apply(w, DrainAll(p, r)), ss, p) == Concat(order, w.db.lists)
  {
    var w1, senders := Apply(w, DrainAll(p, r)), SMembers(w.db, SENDERS + r);
    assert senders - senders == {};
    assert Remove(w.db.lists, []) == w.db.lists;
    assert AtLoop(w.db, w.db.sets, Serving(r, senders), r, []);
    var msgs: seq<Envelope>;
    order, msgs := AnyRun(w.db, w1, p, r, [], [], ss);
    var end := Run(w1, ss);
    assert AtLoop(w.db, end.db.sets, Scanning({}), r, order);
    DrainDone(w.db, end.db, r, order, msgs);
    assert end.db.sets - {SENDERS + r} == end.db.sets;
    assert msgs + [] == msgs && [] + [] + Answer(w1, ss, p) == Answer(w1, ss, p);
  }

  // ---- Requests finish ----

  /** Before its first loop is over, between the loops, and after. */
  function Stage(pc: Pc): nat {
    match pc
    case Clearing(_, _, after) => Stage(after)
    case Unindexing(_, _, after) => Stage(after)
    case Serving(_, _) => 2
    case Listing(_) => 1
    case _ => 0
  }

  /** The commands still to come in that stage, at most. */
  function Commands(pc: Pc): nat {
    match pc
    case Timing(_, _, _) => 3
    case Indexing(_, _, _) => 2
    case IndexTiming(_, _) => 1
    case Clearing(_, _, after) => 1 + Commands(after)
    case Unindexing(_, _, after) => 1 + Commands(after)
    case Serving(_, senders) => 3 * |senders|
    case Listing(_) => 0
    case Scanning(keys) => 2 * |keys|
    case Stop => 0
  }

  predicate Finished(pc: Pc) {
    pc == Stop || pc == Scanning({})
  }

  /** What a loop takes next. */
  ghost function Picked(pc: Pc): string {
    if pc.Serving? && pc.senders != {} then var s :| s in pc.senders; s
    else if pc.Scanning? && pc.keys != {} then var k :| k in pc.keys; k
    else ""
  }

  predicate Below(next: Pc, pc: Pc) {
    Stage(next) < Stage(pc) || (Stage(next) == Stage(pc) && Commands(next) < Commands(pc))
  }

  lemma ReadOrSkipped(w: World, p: nat, k: string, found: Pc, nothing: Pc)
    ensures var next := LRangeStep(w, p, k, found, nothing);
            p in next.pcs && (next.pcs[p] == nothing || (next.pcs[p].Clearing? && next.pcs[p].after == found))
  {
  }

  lemma ServingDown(w: World, p: nat)
    requires p in w.pcs && w.pcs[p].Serving? && w.pcs[p].senders != {}
    ensures var next := NextStep(w, p, Picked(w.pcs[p])); p in next.pcs && Below(next.pcs[p], w.pcs[p])
  {
    var pc, pick := w.pcs[p], Picked(w.pcs[p]);
    var rest := Serving(pc.recipient, pc.senders - {pick});
    var found := Unindexing(pc.recipient, pick, rest);
    assert pick in pc.senders && |pc.senders - {pick}| == |pc.senders| - 1;
    assert Commands(found) == 1 + Commands(rest) && Stage(found) == Stage(rest) == 2;
    ReadOrSkipped(w, p, InboxName(pc.recipient, pick), found, rest);
  }

  lemma ScanningDown(w: World, p: nat)
    requires p in w.pcs && w.pcs[p].Scanning? && w.pcs[p].keys != {}
    ensures var next := NextStep(w, p, Picked(w.pcs[p])); p in next.pcs && Below(next.pcs[p], w.pcs[p])
  {
    var pc, pick := w.pcs[p], Picked(w.pcs[p]);
    var rest := Scanning(pc.keys - {pick});
    assert pick in pc.keys && |pc.keys - {pick}| == |pc.keys| - 1;
    ReadOrSkipped(w, p, pick, rest, rest);
  }

  lemma StepsDown(w: World, p: nat)
    requires p in w.pcs && !Finished(w.pcs[p])
    ensures var next := NextStep(w, p, Picked(w.pcs[p])); p in next.pcs && Below(next.pcs[p], w.pcs[p])
  {
    if w.pcs[p].Serving? && w.pcs[p].senders != {} {
      ServingDown(w, p);
    } else if w.pcs[p].Scanning? {
      ScanningDown(w, p);
    }
  }

  /** No request is ever stuck: wherever it stands among others, its own next commands bring it to its end. */
  lemma {:induction false} RequestFinishes(w: World, p: nat) returns (ss: seq<Step>)
    requires p in w.pcs
    ensures Only(ss, p) && p in Run(w, ss).pcs && Finished(Run(w, ss).pcs[p])
    decreases Stage(w.pcs[p]), Commands(w.pcs[p])
  {
    ss := [];
    if !Finished(w.pcs[p]) {
      var s := Next(p, Picked(w.pcs[p]));
      StepsDown(w, p);
      var rest := RequestFinishes(Apply(w, s), p);
      ss := [s] + rest;
      assert ss[1..] == rest;
    }
  }

  /** So a full drain always has an uninterrupted run to its end. */
  lemma DrainFinishes(w: World, p: nat, r: string) returns (ss: seq<Step>)
    requires Good(w.db) && p !in w.pcs
    ensures var end := Run(Apply(w, DrainAll(p, r)), ss); Only(ss, p) && p in end.pcs && end.pcs[p] == Scanning({})
  {
    var w1, senders := Apply(w, DrainAll(p, r)), SMembers(w.db, SENDERS + r);
    ss := RequestFinishes(w1, p);
    assert senders - senders == {} && Remove(w.db.lists, []) == w.db.lists;
    assert AtLoop(w.db, w.db.sets, Serving(r, senders), r, []);
    var order, msgs := AnyRun(w.db, w1, p, r, [], [], ss);
  }
}
