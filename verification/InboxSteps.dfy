/** The offline inbox, command by command. Any number of pushes and drains run at once; each step of a run is
    one Redis command of one of them, or the clock, or a flush. Every queue is tracked by its history: all that
    was ever pushed to it, and what became of each message that left it. */
module InboxSteps {
  import opened Ascii
  import opened Redis
  import opened RelayStore

  /** How a message left its queue: deleted by a drain that had read it, deleted by one that had not, ... */
  datatype Fate = Delivered | Missed | Expired | Flushed

  /** A batch some drain read: positions lo to hi of the history. */
  datatype Span = Span(lo: nat, hi: nat, batch: seq<Envelope>)

  /** `calm` until something comes between the LRANGE and the DEL of a drain of this queue, or the queue
      expires or is flushed. */
  datatype Track = Track(pushed: seq<Envelope>, fate: seq<Fate>, spans: seq<Span>, calm: bool)

  const UNTOUCHED := Track([], [], [], true)

  /** What a request does next. A push: EXPIRE the list, SADD, EXPIRE the index. A drain that has read `key`
      up to position `hi`: DEL, then SREM if it came from the index. A drain of everything: the indexed
      senders in any order, DEL of the index, KEYS, then the keys in any order. */
  datatype Pc =
    | Timing(recipient: string, sender: string, ttl: int)
    | Indexing(recipient: string, sender: string, ttl: int)
    | IndexTiming(recipient: string, ttl: int)
    | Clearing(key: string, hi: nat, after: Pc)
    | Unindexing(recipient: string, sender: string, after: Pc)
    | Serving(recipient: string, senders: set<string>)
    | Listing(recipient: string)
    | Scanning(keys: set<string>)
    | Stop

  datatype World = World(db: Db, tracks: map<string, Track>, pcs: map<nat, Pc>)

  /** `p` names the request. `pick` says which sender or key a loop takes next. */
  datatype Step =
    | Push(p: nat, recipient: string, sender: string, m: Envelope, ttl: int)
    | DrainOne(p: nat, recipient: string, sender: string)
    | DrainAll(p: nat, recipient: string)
    | Next(p: nat, pick: string)
    | Tick(t: int)
    | Flush

  function At(w: World, k: string): Track {
    if k in w.tracks then w.tracks[k] else UNTOUCHED
  }

  predicate Reads(pc: Pc, k: string) {
    pc.Clearing? && pc.key == k
  }

  /** Some drain is between its LRANGE and its DEL of `k`. */
  predicate Reading(w: World, k: string) {
    exists p :: p in w.pcs && Reads(w.pcs[p], k)
  }

  // ---- The commands that touch a queue, and what they do to its history ----

  function Grown(t: Track, m: Envelope, reading: bool): Track {
    t.(pushed := t.pushed + [m], calm := t.calm && !reading)
  }

  function Served(t: Track, batch: seq<Envelope>, reading: bool): Track {
    t.(spans := t.spans + [Span(|t.fate|, |t.pushed|, batch)], calm := t.calm && !reading)
  }

  function Left(t: Track): nat {
    if |t.pushed| > |t.fate| then |t.pushed| - |t.fate| else 0
  }

  function Cleared(t: Track, hi: nat): Track {
    t.(fate := t.fate + seq(Left(t), i requires 0 <= i < Left(t) => if |t.fate| + i < hi then Delivered else Missed))
  }

  function Gone(t: Track, why: Fate): Track {
    t.(fate := t.fate + seq(Left(t), i requires 0 <= i < Left(t) => why), calm := false)
  }

  function RPushStep(w: World, p: nat, k: string, m: Envelope, pc: Pc): World {
    World(RPush(w.db, k, m), w.tracks[k := Grown(At(w, k), m, Reading(w, k))], w.pcs[p := pc])
  }

  function LRangeStep(w: World, p: nat, k: string, found: Pc, nothing: Pc): World {
    var batch := LRange(w.db, k);
    if batch == [] then w.(pcs := w.pcs[p := nothing])
    else World(w.db, w.tracks[k := Served(At(w, k), batch, Reading(w, k))], w.pcs[p := Clearing(k, |At(w, k).pushed|, found)])
  }

  function DelStep(w: World, p: nat, k: string, hi: nat, after: Pc): World {
    World(Del(w.db, k), w.tracks[k := Cleared(At(w, k), hi)], w.pcs[p := after])
  }

  /** All queues that are in `before` and not in `after` are gone. */
  function GoneStep(w: World, after: Db, why: Fate): World {
    World(after,
          map k | k in w.tracks :: if k in w.db.lists && k !in after.lists then Gone(w.tracks[k], why) else w.tracks[k],
          w.pcs)
  }

  function NextStep(w: World, p: nat, pick: string): World
    requires p in w.pcs
  {
    match w.pcs[p]
    case Timing(r, s, ttl) => World(Expire(w.db, InboxName(r, s), ttl), w.tracks, w.pcs[p := Indexing(r, s, ttl)])
    case Indexing(r, s, ttl) => World(SAdd(w.db, SENDERS + r, s), w.tracks, w.pcs[p := IndexTiming(r, ttl)])
    case IndexTiming(r, ttl) => World(Expire(w.db, SENDERS + r, ttl), w.tracks, w.pcs[p := Stop])
    case Clearing(k, hi, after) => DelStep(w, p, k, hi, after)
    case Unindexing(r, s, after) => World(SRem(w.db, SENDERS + r, s), w.tracks, w.pcs[p := after])
    case Serving(r, senders) =>
      if senders == {} then World(Del(w.db, SENDERS + r), w.tracks, w.pcs[p := Listing(r)])
      else if pick !in senders then w
      else
        var rest := Serving(r, senders - {pick});
        LRangeStep(w, p, InboxName(r, pick), Unindexing(r, pick, rest), rest)
    case Listing(r) => w.(pcs := w.pcs[p := Scanning(Keys(w.db, ScanPattern(r)))])
    case Scanning(keys) =>
      if pick !in keys then w else LRangeStep(w, p, pick, Scanning(keys - {pick}), Scanning(keys - {pick}))
    case Stop => w
  }

  /** A step that is not possible (a name in use, a lifetime the policy never grants, a clock going back)
      changes nothing. */
  function Apply(w: World, s: Step): World {
    match s
    case Push(p, r, sd, m, ttl) =>
      if p in w.pcs || ttl <= 0 then w else RPushStep(w, p, InboxName(r, sd), m, Timing(r, sd, ttl))
    case DrainOne(p, r, sd) =>
      if p in w.pcs then w else LRangeStep(w, p, InboxName(r, sd), Unindexing(r, sd, Stop), Stop)
    case DrainAll(p, r) =>
      if p in w.pcs then w else w.(pcs := w.pcs[p := Serving(r, SMembers(w.db, SENDERS + r))])
    case Next(p, pick) => if p in w.pcs then NextStep(w, p, pick) else w
    case Tick(t) => if t < w.db.now then w else GoneStep(w, Advance(w.db, t), Expired)
    case Flush => GoneStep(w, FlushDB(w.db), Flushed)
  }

  function Run(w: World, ss: seq<Step>): World
    decreases ss
  {
    if ss == [] then w else Run(Apply(w, ss[0]), ss[1..])
  }

  // ---- What every run keeps ----

  ghost predicate SpanOk(t: Track, s: Span) {
    s.lo < s.hi <= |t.pushed| && s.lo <= |t.fate| && s.batch == t.pushed[s.lo..s.hi]
  }

  ghost predicate InSpan(t: Track, i: nat) {
    exists j :: 0 <= j < |t.spans| && t.spans[j].lo <= i < t.spans[j].hi
  }

  /** The queue is a suffix of its history; every batch is a run of it, each starting and ending no earlier
      than the one before; and what counts as delivered was in a batch. */
  ghost predicate TrackOk(queue: seq<Envelope>, t: Track) {
    && |t.fate| <= |t.pushed|
    && queue == t.pushed[|t.fate|..]
    && (forall j :: 0 <= j < |t.spans| ==> SpanOk(t, t.spans[j]))
    && (forall i, j :: 0 <= i < j < |t.spans| ==> t.spans[i].lo <= t.spans[j].lo && t.spans[i].hi <= t.spans[j].hi)
    && (forall i :: 0 <= i < |t.fate| && t.fate[i] == Delivered ==> InSpan(t, i))
  }

  /** A drain about to delete up to `hi` has a batch that ends there. */
  ghost predicate HasRead(t: Track, hi: nat) {
    exists j :: 0 <= j < |t.spans| && t.spans[j].hi == hi
  }

  predicate ListsOk(db: Db) {
    forall k :: k in db.lists ==> INBOX <= k && db.lists[k].value != []
  }

  ghost predicate Coherent(w: World) {
    && ListsOk(w.db)
    && (forall k :: TrackOk(LRange(w.db, k), At(w, k)))
    && (forall p :: p in w.pcs && w.pcs[p].Clearing? ==> HasRead(At(w, w.pcs[p].key), w.pcs[p].hi))
  }

  lemma GrownOk(queue: seq<Envelope>, t: Track, m: Envelope, reading: bool)
    requires TrackOk(queue, t)
    ensures TrackOk(queue + [m], Grown(t, m, reading))
    ensures forall hi :: HasRead(t, hi) ==> HasRead(Grown(t, m, reading), hi)
  {
    var t' := Grown(t, m, reading);
    forall j | 0 <= j < |t'.spans| ensures SpanOk(t', t'.spans[j]) {
      assert SpanOk(t, t.spans[j]);
    }
    forall i | 0 <= i < |t'.fate| && t'.fate[i] == Delivered ensures InSpan(t', i) {
      assert InSpan(t, i);
    }
  }

  lemma ServedOk(queue: seq<Envelope>, t: Track, reading: bool)
    requires TrackOk(queue, t) && queue != []
    ensures TrackOk(queue, Served(t, queue, reading))
    ensures HasRead(Served(t, queue, reading), |t.pushed|)
    ensures forall hi :: HasRead(t, hi) ==> HasRead(Served(t, queue, reading), hi)
  {
    var t' := Served(t, queue, reading);
    var n := |t.spans|;
    assert t'.spans[n].hi == |t.pushed|;
    forall j | 0 <= j < |t'.spans| ensures SpanOk(t', t'.spans[j]) {
      if j < n { assert SpanOk(t, t.spans[j]); }
    }
    forall i, j | 0 <= i < j < |t'.spans| ensures t'.spans[i].lo <= t'.spans[j].lo && t'.spans[i].hi <= t'.spans[j].hi {
      assert SpanOk(t, t.spans[i]);
    }
    forall hi | HasRead(t, hi) ensures HasRead(t', hi) {
      var j :| 0 <= j < |t.spans| && t.spans[j].hi == hi;
      assert t'.spans[j].hi == hi;
    }
    forall i | 0 <= i < |t'.fate| && t'.fate[i] == Delivered ensures InSpan(t', i) {
      assert InSpan(t, i);
      var j :| 0 <= j < |t.spans| && t.spans[j].lo <= i < t.spans[j].hi;
      assert t'.spans[j].lo <= i < t'.spans[j].hi;
    }
  }

  lemma ClearedOk(queue: seq<Envelope>, t: Track, hi: nat)
    requires TrackOk(queue, t) && HasRead(t, hi)
    ensures TrackOk([], Cleared(t, hi))
    ensures forall h :: HasRead(t, h) ==> HasRead(Cleared(t, hi), h)
  {
    var t' := Cleared(t, hi);
    var j :| 0 <= j < |t.spans| && t.spans[j].hi == hi;
    assert SpanOk(t, t.spans[j]);
    forall i | 0 <= i < |t'.spans| ensures SpanOk(t', t'.spans[i]) {
      assert SpanOk(t, t.spans[i]);
    }
    forall i | 0 <= i < |t'.fate| && t'.fate[i] == Delivered ensures InSpan(t', i) {
      if i < |t.fate| {
        assert InSpan(t, i);
      } else {
        assert t'.spans[j].lo <= i < t'.spans[j].hi;
      }
    }
  }

  lemma GoneOk(queue: seq<Envelope>, t: Track, why: Fate)
    requires TrackOk(queue, t) && why != Delivered
    ensures TrackOk([], Gone(t, why))
    ensures forall h :: HasRead(t, h) ==> HasRead(Gone(t, why), h)
  {
    var t' := Gone(t, why);
    forall i | 0 <= i < |t'.spans| ensures SpanOk(t', t'.spans[i]) {
      assert SpanOk(t, t.spans[i]);
    }
    forall i | 0 <= i < |t'.fate| && t'.fate[i] == Delivered ensures InSpan(t', i) {
      assert i < |t.fate| && InSpan(t, i);
    }
  }

  lemma RPushKeeps(w: World, p: nat, k: string, m: Envelope, pc: Pc)
    requires Coherent(w) && INBOX <= k && !pc.Clearing?
    ensures Coherent(RPushStep(w, p, k, m, pc))
  {
    var after := RPushStep(w, p, k, m, pc);
    GrownOk(LRange(w.db, k), At(w, k), m, Reading(w, k));
    assert LRange(after.db, k) == LRange(w.db, k) + [m];
    forall x ensures TrackOk(LRange(after.db, x), At(after, x)) {
      assert TrackOk(LRange(w.db, x), At(w, x));
    }
  }

  lemma LRangeKeeps(w: World, p: nat, k: string, found: Pc, nothing: Pc)
    requires Coherent(w) && !nothing.Clearing?
    ensures Coherent(LRangeStep(w, p, k, found, nothing))
  {
    var after, batch := LRangeStep(w, p, k, found, nothing), LRange(w.db, k);
    if batch == [] {
      assert forall x :: At(after, x) == At(w, x);
    } else {
      ServedOk(batch, At(w, k), Reading(w, k));
      forall x ensures TrackOk(LRange(after.db, x), At(after, x)) {
        assert TrackOk(LRange(w.db, x), At(w, x));
      }
    }
  }

  lemma DelKeeps(w: World, p: nat, k: string, hi: nat, after: Pc)
    requires Coherent(w) && HasRead(At(w, k), hi) && !after.Clearing?
    ensures Coherent(DelStep(w, p, k, hi, after))
  {
    var w' := DelStep(w, p, k, hi, after);
    ClearedOk(LRange(w.db, k), At(w, k), hi);
    forall x ensures TrackOk(LRange(w'.db, x), At(w', x)) {
      assert TrackOk(LRange(w.db, x), At(w, x));
    }
  }

  lemma GoneKeeps(w: World, after: Db, why: Fate)
    requires Coherent(w) && why != Delivered
    requires forall k :: k in after.lists ==> k in w.db.lists && after.lists[k] == w.db.lists[k]
    ensures Coherent(GoneStep(w, after, why))
  {
    var w' := GoneStep(w, after, why);
    forall x ensures TrackOk(LRange(after, x), At(w', x)) {
      assert TrackOk(LRange(w.db, x), At(w, x));
      GoneOk(LRange(w.db, x), At(w, x), why);
    }
    forall p | p in w'.pcs && w'.pcs[p].Clearing? ensures HasRead(At(w', w'.pcs[p].key), w'.pcs[p].hi) {
      var x := w'.pcs[p].key;
      assert TrackOk(LRange(w.db, x), At(w, x));
      GoneOk(LRange(w.db, x), At(w, x), why);
    }
  }

  /** A command on an index, or a new deadline, leaves every queue alone. */
  predicate SameQueues(a: Db, b: Db) {
    a.lists.Keys == b.lists.Keys && forall k :: k in a.lists ==> a.lists[k].value == b.lists[k].value
  }

  lemma QuietKeeps(w: World, db: Db, p: nat, pc: Pc)
    requires Coherent(w) && SameQueues(w.db, db) && !pc.Clearing?
    ensures Coherent(World(db, w.tracks, w.pcs[p := pc]))
  {
    var w' := World(db, w.tracks, w.pcs[p := pc]);
    forall x ensures TrackOk(LRange(db, x), At(w', x)) {
      assert TrackOk(LRange(w.db, x), At(w, x)) && LRange(db, x) == LRange(w.db, x);
    }
  }

  lemma IndexCommands(db: Db, r: string, s: string, ttl: int)
    requires ListsOk(db) && ttl > 0
    ensures SENDERS + r !in db.lists
    ensures SameQueues(db, SAdd(db, SENDERS + r, s)) && SameQueues(db, SRem(db, SENDERS + r, s))
    ensures SameQueues(db, Del(db, SENDERS + r)) && SameQueues(db, Expire(db, SENDERS + r, ttl))
  {
    KeyNamesDiffer(SENDERS + r);
    assert SENDERS <= SENDERS + r;
  }

  predicate InDrain(pc: Pc) {
    pc.Unindexing? || pc.Serving? || pc.Scanning? || pc.Stop?
  }

  /** A drain does not plan a DEL without an LRANGE, and lifetimes are positive. */
  predicate Proper(pc: Pc) {
    match pc
    case Timing(_, _, ttl) => ttl > 0
    case Indexing(_, _, ttl) => ttl > 0
    case IndexTiming(_, ttl) => ttl > 0
    case Clearing(_, _, after) => InDrain(after) && Proper(after)
    case Unindexing(_, _, after) => InDrain(after) && Proper(after)
    case _ => true
  }

  predicate AllProper(w: World) {
    forall p :: p in w.pcs ==> Proper(w.pcs[p])
  }

  lemma ServingKeeps(w: World, p: nat, pick: string)
    requires Coherent(w) && p in w.pcs && w.pcs[p].Serving?
    ensures Coherent(NextStep(w, p, pick))
  {
    var r, senders := w.pcs[p].recipient, w.pcs[p].senders;
    if senders == {} {
      IndexCommands(w.db, r, r, 1);
      QuietKeeps(w, Del(w.db, SENDERS + r), p, Listing(r));
    } else if pick in senders {
      var rest := Serving(r, senders - {pick});
      LRangeKeeps(w, p, InboxName(r, pick), Unindexing(r, pick, rest), rest);
    }
  }

  lemma ScanKeeps(w: World, p: nat, pick: string)
    requires Coherent(w) && p in w.pcs && (w.pcs[p].Listing? || w.pcs[p].Scanning?)
    ensures Coherent(NextStep(w, p, pick))
  {
    match w.pcs[p] {
      case Listing(r) => QuietKeeps(w, w.db, p, Scanning(Keys(w.db, ScanPattern(r))));
      case Scanning(keys) =>
        if pick in keys { LRangeKeeps(w, p, pick, Scanning(keys - {pick}), Scanning(keys - {pick})); }
    }
  }

  lemma NextKeeps(w: World, p: nat, pick: string)
    requires Coherent(w) && AllProper(w) && p in w.pcs
    ensures Coherent(NextStep(w, p, pick))
  {
    match w.pcs[p] {
      case Timing(r, s, ttl) => QuietKeeps(w, Expire(w.db, InboxName(r, s), ttl), p, Indexing(r, s, ttl));
      case Indexing(r, s, ttl) =>
        IndexCommands(w.db, r, s, ttl);
        QuietKeeps(w, SAdd(w.db, SENDERS + r, s), p, IndexTiming(r, ttl));
      case IndexTiming(r, ttl) =>
        IndexCommands(w.db, r, r, ttl);
        QuietKeeps(w, Expire(w.db, SENDERS + r, ttl), p, Stop);
      case Clearing(k, hi, after) => DelKeeps(w, p, k, hi, after);
      case Unindexing(r, s, after) =>
        IndexCommands(w.db, r, s, 1);
        QuietKeeps(w, SRem(w.db, SENDERS + r, s), p, after);
      case Serving(_, _) => ServingKeeps(w, p, pick);
      case Stop =>
      case _ => ScanKeeps(w, p, pick);
    }
  }

  lemma StepKeeps(w: World, s: Step)
    requires Coherent(w) && AllProper(w)
    ensures Coherent(Apply(w, s))
  {
    match s {
      case Push(p, r, sd, m, ttl) =>
        InboxNameParts(r, sd);
        if p !in w.pcs && ttl > 0 { RPushKeeps(w, p, InboxName(r, sd), m, Timing(r, sd, ttl)); }
      case DrainOne(p, r, sd) =>
        if p !in w.pcs { LRangeKeeps(w, p, InboxName(r, sd), Unindexing(r, sd, Stop), Stop); }
      case DrainAll(p, r) =>
        if p !in w.pcs { QuietKeeps(w, w.db, p, Serving(r, SMembers(w.db, SENDERS + r))); }
      case Next(p, pick) => if p in w.pcs { NextKeeps(w, p, pick); }
      case Tick(t) => if t >= w.db.now { GoneKeeps(w, Advance(w.db, t), Expired); }
      case Flush => GoneKeeps(w, FlushDB(w.db), Flushed);
    }
  }

  lemma ProperKept(w: World, s: Step)
    requires AllProper(w)
    ensures AllProper(Apply(w, s))
  {
    match s {
      case DrainOne(_, r, sd) => assert Proper(Stop) && Proper(Unindexing(r, sd, Stop));
      case Next(p, pick) =>
        if p in w.pcs {
          assert Proper(w.pcs[p]);
          if w.pcs[p].Serving? {
            var rest := Serving(w.pcs[p].recipient, w.pcs[p].senders - {pick});
            assert Proper(rest) && Proper(Unindexing(w.pcs[p].recipient, pick, rest));
          }
        }
      case _ =>
    }
  }

  /** In every interleaving of pushes, drains, expiry and flushes, every queue is a suffix of its own push
      history, and every batch a run of it. */
  lemma {:induction false} RunKeeps(w: World, ss: seq<Step>)
    requires Coherent(w) && AllProper(w)
    ensures Coherent(Run(w, ss)) && AllProper(Run(w, ss))
    decreases ss
  {
    if ss != [] {
      StepKeeps(w, ss[0]);
      ProperKept(w, ss[0]);
      RunKeeps(Apply(w, ss[0]), ss[1..]);
    }
  }

  const START := World(EMPTY, map[], map[])

  /** Message `i` of a batch is where the batch says it is. */
  ghost predicate InBatch(t: Track, i: nat, m: Envelope) {
    exists j :: 0 <= j < |t.spans| && t.spans[j].lo <= i < t.spans[j].lo + |t.spans[j].batch| && t.spans[j].batch[i - t.spans[j].lo] == m
  }

  lemma Accounted(queue: seq<Envelope>, t: Track, i: nat)
    requires TrackOk(queue, t) && i < |t.pushed|
    ensures if i >= |t.fate| then i - |t.fate| < |queue| && queue[i - |t.fate|] == t.pushed[i]
            else t.fate[i] == Delivered ==> InBatch(t, i, t.pushed[i])
  {
    if i < |t.fate| && t.fate[i] == Delivered {
      assert InSpan(t, i);
      var j :| 0 <= j < |t.spans| && t.spans[j].lo <= i < t.spans[j].hi;
      assert SpanOk(t, t.spans[j]);
    }
  }

  /** Nothing is unaccounted for: after any run from the empty store, each message ever pushed to `k` is still
      queued, in its place, or was in a batch some drain read, or was deleted by a drain that had not read
      it, or expired, or was flushed. */
  lemma EveryMessage(ss: seq<Step>, k: string, i: nat)
    requires i < |At(Run(START, ss), k).pushed|
    ensures var w := Run(START, ss);
            var t, queue := At(w, k), LRange(w.db, k);
            if i >= |t.fate| then i - |t.fate| < |queue| && queue[i - |t.fate|] == t.pushed[i]
            else t.fate[i] == Delivered ==> InBatch(t, i, t.pushed[i])
  {
    RunKeeps(START, ss);
    Accounted(LRange(Run(START, ss).db, k), At(Run(START, ss), k), i);
  }

  // ---- The history is exactly the pushes ----

  function PushedBy(w: World, s: Step, k: string): seq<Envelope> {
    if s.Push? && s.p !in w.pcs && s.ttl > 0 && InboxName(s.recipient, s.sender) == k then [s.m] else []
  }

  /** The messages that the run's pushes appended to `k`, in order. */
  function Pushes(w: World, ss: seq<Step>, k: string): seq<Envelope>
    decreases ss
  {
    if ss == [] then [] else PushedBy(w, ss[0], k) + Pushes(Apply(w, ss[0]), ss[1..], k)
  }

  lemma PushedByStep(w: World, s: Step, k: string)
    ensures At(Apply(w, s), k).pushed == At(w, k).pushed + PushedBy(w, s, k)
  {
  }

  lemma {:induction false} HistoryIsPushes(w: World, ss: seq<Step>, k: string)
    ensures At(Run(w, ss), k).pushed == At(w, k).pushed + Pushes(w, ss, k)
    decreases ss
  {
    if ss != [] {
      PushedByStep(w, ss[0], k);
      HistoryIsPushes(Apply(w, ss[0]), ss[1..], k);
    }
  }

  // ---- The race between a push and a drain ----

  predicate Idle(ss: seq<Step>, p: nat) {
    forall s :: s in ss ==> !(s.Next? && s.p == p)
  }

  lemma {:induction false} PcStays(w: World, ss: seq<Step>, p: nat)
    requires p in w.pcs && Idle(ss, p)
    ensures p in Run(w, ss).pcs && Run(w, ss).pcs[p] == w.pcs[p]
    decreases ss
  {
    if ss != [] {
      assert ss[0] in ss && forall s :: s in ss[1..] ==> s in ss;
      PcStays(Apply(w, ss[0]), ss[1..], p);
    }
  }

  /** What a DEL removes without having read it. */
  ghost predicate Misses(before: Track, after: Track) {
    exists i :: |before.fate| <= i < |after.fate| && after.fate[i] == Missed
  }

  /** A drain has just read `k`; others run; then it deletes `k`. It drops a message nobody handed to it
      exactly when something was pushed to `k` in between and the queue is not empty when the DEL comes. */
  lemma DropsIff(w: World, p: nat, pick: string, ss: seq<Step>)
    requires Coherent(w) && AllProper(w) && p in w.pcs && w.pcs[p].Clearing? && Idle(ss, p)
    requires w.pcs[p].hi == |At(w, w.pcs[p].key).pushed|
    ensures var k, before := w.pcs[p].key, Run(w, ss);
            Misses(At(before, k), At(Apply(before, Next(p, pick)), k)) <==> Pushes(w, ss, k) != [] && LRange(before.db, k) != []
  {
    var k, hi, before := w.pcs[p].key, w.pcs[p].hi, Run(w, ss);
    PcStays(w, ss, p);
    HistoryIsPushes(w, ss, k);
    RunKeeps(w, ss);
    var t := At(before, k);
    assert TrackOk(LRange(before.db, k), t);
    var t' := Cleared(t, hi);
    assert At(Apply(before, Next(p, pick)), k) == t';
    if |t.pushed| > hi && |t.pushed| > |t.fate| {
      assert t'.fate[|t.pushed| - 1] == Missed;
    }
  }

  /** A message that left its queue before any drain had read it is never delivered afterwards. */
  lemma {:induction false} LostForGood(w: World, ss: seq<Step>, k: string, i: nat)
    requires Coherent(w) && AllProper(w)
    requires i < |At(w, k).fate| && !InSpan(At(w, k), i)
    ensures i < |At(Run(w, ss), k).fate| && !InSpan(At(Run(w, ss), k), i)
    decreases ss
  {
    if ss != [] {
      StepKeeps(w, ss[0]);
      ProperKept(w, ss[0]);
      StaysLost(w, ss[0], k, i);
      LostForGood(Apply(w, ss[0]), ss[1..], k, i);
    }
  }

  lemma StaysLost(w: World, s: Step, k: string, i: nat)
    requires i < |At(w, k).fate| && !InSpan(At(w, k), i)
    ensures i < |At(Apply(w, s), k).fate| && !InSpan(At(Apply(w, s), k), i)
  {
    var t, t' := At(w, k), At(Apply(w, s), k);
    OneTrackStep(w, s, k);
    forall j | 0 <= j < |t'.spans| ensures !(t'.spans[j].lo <= i < t'.spans[j].hi) {
      if j < |t.spans| {
        assert t'.spans[j] == t.spans[j];
      }
    }
  }

  /** The only things a step can do to a history. */
  lemma OneTrackStep(w: World, s: Step, k: string)
    ensures var t, t' := At(w, k), At(Apply(w, s), k);
            || t' == t
            || (exists m :: t' == Grown(t, m, Reading(w, k)))
            || t' == Served(t, LRange(w.db, k), Reading(w, k))
            || (exists hi :: t' == Cleared(t, hi))
            || (exists why :: t' == Gone(t, why))
  {
    var t' := At(Apply(w, s), k);
    if s.Tick? || s.Flush? {
      assert t' == At(w, k) || t' == Gone(At(w, k), Expired) || t' == Gone(At(w, k), Flushed);
    } else if s.Push? {
      assert t' == At(w, k) || t' == Grown(At(w, k), s.m, Reading(w, k));
    } else if s.Next? && s.p in w.pcs && w.pcs[s.p].Clearing? {
      assert t' == At(w, k) || t' == Cleared(At(w, k), w.pcs[s.p].hi);
    }
  }

  /** So a push that lands between the two commands of a drain is gone, whatever happens next. (Here the DEL follows
      at once; for any DEL and any queued message see `DeletedUnreadIff`.) */
  lemma PushInTheGapIsLost(w: World, p: nat, q: nat, r: string, s: string, m: Envelope, ttl: int, pick: string, ss: seq<Step>)
    requires Coherent(w) && AllProper(w) && p in w.pcs && Reads(w.pcs[p], InboxName(r, s)) && q !in w.pcs && ttl > 0
    requires w.pcs[p].hi == |At(w, InboxName(r, s)).pushed|
    ensures var k, n := InboxName(r, s), |At(w, InboxName(r, s)).pushed|;
            var end := At(Run(Apply(Apply(w, Push(q, r, s, m, ttl)), Next(p, pick)), ss), k);
            n < |end.fate| && n < |end.pushed| && end.pushed[n] == m && !InSpan(end, n)
  {
    var k, push := InboxName(r, s), Push(q, r, s, m, ttl);
    var n, w1 := |At(w, k).pushed|, Apply(w, push);
    var w2 := Apply(w1, Next(p, pick));
    StepKeeps(w, push);
    ProperKept(w, push);
    StepKeeps(w1, Next(p, pick));
    ProperKept(w1, Next(p, pick));
    GapTrack(w, k, m);
    assert At(w2, k) == Cleared(Grown(At(w, k), m, Reading(w, k)), n);
    LostForGood(w2, ss, k, n);
    HistoryIsPushes(w2, ss, k);
  }

  lemma GapTrack(w: World, k: string, m: Envelope)
    requires Coherent(w)
    ensures var t, n := Cleared(Grown(At(w, k), m, Reading(w, k)), |At(w, k).pushed|), |At(w, k).pushed|;
            n < |t.fate| && t.pushed[n] == m && !InSpan(t, n)
  {
    var t := At(w, k);
    assert TrackOk(LRange(w.db, k), t);
    forall j | 0 <= j < |t.spans| ensures t.spans[j].hi <= |t.pushed| {
      assert SpanOk(t, t.spans[j]);
    }
  }

  // ---- Exactly once, when nothing comes in between ----

  /** All batches, one after the other. */
  function Joined(spans: seq<Span>): seq<Envelope> {
    if spans == [] then [] else Joined(spans[..|spans| - 1]) + spans[|spans| - 1].batch
  }

  /** While a queue is calm its batches together are what has left it, or all of it while a drain is about
      to delete what it read; and at most one drain is. */
  ghost predicate CalmOk(w: World, k: string) {
    var t := At(w, k);
    t.calm ==>
      && |t.fate| <= |t.pushed|
      && Joined(t.spans) == (if Reading(w, k) then t.pushed else t.pushed[..|t.fate|])
      && (forall f :: f in t.fate ==> f == Delivered)
      && (forall p :: p in w.pcs && Reads(w.pcs[p], k) ==> w.pcs[p].hi == |t.pushed|)
      && (forall p, q :: p in w.pcs && q in w.pcs && Reads(w.pcs[p], k) && Reads(w.pcs[q], k) ==> p == q)
  }

  predicate NotReading(w: World, p: nat, k: string) {
    p in w.pcs ==> !Reads(w.pcs[p], k)
  }

  lemma CalmElsewhere(w: World, after: World, p: nat, k: string)
    requires CalmOk(w, k) && p in after.pcs && after.pcs == w.pcs[p := after.pcs[p]]
    requires NotReading(w, p, k) && NotReading(after, p, k)
    requires At(after, k) == At(w, k)
    ensures CalmOk(after, k)
  {
    assert Reading(after, k) <==> Reading(w, k) by {
      if Reading(w, k) {
        var q :| q in w.pcs && Reads(w.pcs[q], k);
        assert q in after.pcs && Reads(after.pcs[q], k);
      }
    }
  }

  lemma CalmRPush(w: World, p: nat, k: string, m: Envelope, pc: Pc, x: string)
    requires Coherent(w) && CalmOk(w, x) && p !in w.pcs && !pc.Clearing?
    ensures CalmOk(RPushStep(w, p, k, m, pc), x)
  {
    var after := RPushStep(w, p, k, m, pc);
    if x != k {
      CalmElsewhere(w, after, p, x);
    } else if !Reading(w, k) {
      assert TrackOk(LRange(w.db, k), At(w, k));
      assert !Reading(after, k);
      assert At(after, k).pushed[..|At(w, k).fate|] == At(w, k).pushed[..|At(w, k).fate|];
    }
  }

  lemma CalmLRange(w: World, p: nat, k: string, found: Pc, nothing: Pc, x: string)
    requires Coherent(w) && CalmOk(w, x) && NotReading(w, p, x) && !nothing.Clearing?
    ensures CalmOk(LRangeStep(w, p, k, found, nothing), x)
  {
    var after, t := LRangeStep(w, p, k, found, nothing), At(w, k);
    if LRange(w.db, k) == [] || x != k {
      CalmElsewhere(w, after, p, x);
    } else if !Reading(w, k) {
      assert TrackOk(LRange(w.db, k), t);
      assert Reading(after, k) by { assert Reads(after.pcs[p], k); }
      assert At(after, k).spans[..|t.spans|] == t.spans;
      assert t.pushed[..|t.fate|] + t.pushed[|t.fate|..] == t.pushed;
    }
  }

  lemma CalmDel(w: World, p: nat, k: string, hi: nat, pc: Pc, x: string)
    requires Coherent(w) && CalmOk(w, x) && p in w.pcs && w.pcs[p].Clearing? && w.pcs[p].key == k && w.pcs[p].hi == hi
    requires !pc.Clearing?
    ensures CalmOk(DelStep(w, p, k, hi, pc), x)
  {
    var after, t := DelStep(w, p, k, hi, pc), At(w, k);
    if x != k {
      CalmElsewhere(w, after, p, x);
    } else if t.calm {
      assert TrackOk(LRange(w.db, k), t);
      assert Reads(w.pcs[p], k) && hi == |t.pushed|;
      assert !Reading(after, k);
      var t' := At(after, k);
      assert t'.pushed[..|t'.fate|] == t.pushed;
    }
  }

  lemma CalmGone(w: World, after: Db, why: Fate, x: string)
    requires Coherent(w) && CalmOk(w, x)
    ensures CalmOk(GoneStep(w, after, why), x)
  {
    var w' := GoneStep(w, after, why);
    assert TrackOk(LRange(w.db, x), At(w, x));
    assert Reading(w', x) <==> Reading(w, x);
  }

  lemma CalmNext(w: World, p: nat, pick: string, x: string)
    requires Coherent(w) && AllProper(w) && CalmOk(w, x) && p in w.pcs
    ensures CalmOk(NextStep(w, p, pick), x)
  {
    var after := NextStep(w, p, pick);
    match w.pcs[p] {
      case Clearing(k, hi, pc) => CalmDel(w, p, k, hi, pc, x);
      case Serving(r, senders) =>
        if senders == {} {
          CalmElsewhere(w, after, p, x);
        } else if pick in senders {
          var rest := Serving(r, senders - {pick});
          CalmLRange(w, p, InboxName(r, pick), Unindexing(r, pick, rest), rest, x);
        }
      case Scanning(keys) =>
        if pick in keys { CalmLRange(w, p, pick, Scanning(keys - {pick}), Scanning(keys - {pick}), x); }
      case Stop =>
      case _ =>
        assert Proper(w.pcs[p]);
        CalmElsewhere(w, after, p, x);
    }
  }

  lemma CalmStep(w: World, s: Step, x: string)
    requires Coherent(w) && AllProper(w) && CalmOk(w, x)
    ensures CalmOk(Apply(w, s), x)
  {
    match s {
      case Push(p, r, sd, m, ttl) =>
        if p !in w.pcs && ttl > 0 { CalmRPush(w, p, InboxName(r, sd), m, Timing(r, sd, ttl), x); }
      case DrainOne(p, r, sd) =>
        if p !in w.pcs { CalmLRange(w, p, InboxName(r, sd), Unindexing(r, sd, Stop), Stop, x); }
      case DrainAll(p, r) =>
        if p !in w.pcs { CalmElsewhere(w, Apply(w, s), p, x); }
      case Next(p, pick) => if p in w.pcs { CalmNext(w, p, pick, x); }
      case Tick(t) => if t >= w.db.now { CalmGone(w, Advance(w.db, t), Expired, x); }
      case Flush => CalmGone(w, FlushDB(w.db), Flushed, x);
    }
  }

  lemma {:induction false} CalmRun(w: World, ss: seq<Step>, x: string)
    requires Coherent(w) && AllProper(w) && CalmOk(w, x)
    ensures CalmOk(Run(w, ss), x)
    decreases ss
  {
    if ss != [] {
      StepKeeps(w, ss[0]);
      ProperKept(w, ss[0]);
      CalmStep(w, ss[0], x);
      CalmRun(Apply(w, ss[0]), ss[1..], x);
    }
  }

  lemma SplitAt(s: seq<Envelope>, n: nat)
    requires n <= |s|
    ensures s[..n] + s[n..] == s && [] + s == s
  {
  }

  /** Where nothing ever came between a drain's LRANGE and its DEL, and nothing expired or was flushed, the
      pushes are exactly the batches, one after the other, and then what is still queued: each message
      is delivered once and in order. */
  lemma ExactlyOnce(ss: seq<Step>, k: string)
    requires At(Run(START, ss), k).calm && !Reading(Run(START, ss), k)
    ensures Pushes(START, ss, k) == Joined(At(Run(START, ss), k).spans) + LRange(Run(START, ss).db, k)
  {
    RunKeeps(START, ss);
    CalmRun(START, ss, k);
    HistoryIsPushes(START, ss, k);
    var w := Run(START, ss);
    var t := At(w, k);
    assert TrackOk(LRange(w.db, k), t);
    SplitAt(t.pushed, |t.fate|);
    SplitAt(Pushes(START, ss, k), 0);
  }

  // ---- No queue lives forever ----

  /** A push has appended to `k` and not yet given it a deadline. */
  predicate Untimed(w: World, k: string) {
    exists p :: p in w.pcs && w.pcs[p].Timing? && InboxName(w.pcs[p].recipient, w.pcs[p].sender) == k
  }

  predicate ShortLived(pc: Pc, max: int) {
    pc.Timing? ==> pc.ttl <= max
  }

  ghost predicate TimedOk(w: World, k: string, max: int) {
    k in w.db.lists ==>
      if w.db.lists[k].deadline.None? then Untimed(w, k) else w.db.lists[k].deadline.value <= w.db.now + max
  }

  ghost predicate AllTimed(w: World, max: int) {
    && (forall k :: TimedOk(w, k, max))
    && (forall p :: p in w.pcs ==> ShortLived(w.pcs[p], max))
  }

  lemma UntimedStays(w: World, after: World, p: nat, k: string)
    requires Untimed(w, k) && p in after.pcs && after.pcs == w.pcs[p := after.pcs[p]]
    requires p in w.pcs ==> !w.pcs[p].Timing?
    ensures Untimed(after, k)
  {
    var q :| q in w.pcs && w.pcs[q].Timing? && InboxName(w.pcs[q].recipient, w.pcs[q].sender) == k;
    assert q in after.pcs && after.pcs[q] == w.pcs[q];
  }

  /** Commands other than a push's first two keep the deadline of every list they keep. */
  predicate SameDeadlines(a: Db, b: Db) {
    b.now == a.now && forall k :: k in b.lists ==> k in a.lists && b.lists[k].deadline == a.lists[k].deadline
  }

  lemma TimedQuiet(w: World, after: World, p: nat, k: string, max: int)
    requires TimedOk(w, k, max) && SameDeadlines(w.db, after.db)
    requires p in after.pcs && after.pcs == w.pcs[p := after.pcs[p]]
    requires p in w.pcs ==> !w.pcs[p].Timing?
    ensures TimedOk(after, k, max)
  {
    if Untimed(w, k) {
      UntimedStays(w, after, p, k);
    }
  }

  lemma TimedPush(w: World, p: nat, r: string, s: string, m: Envelope, ttl: int, k: string, max: int)
    requires TimedOk(w, k, max) && p !in w.pcs
    ensures TimedOk(RPushStep(w, p, InboxName(r, s), m, Timing(r, s, ttl)), k, max)
  {
    var after := RPushStep(w, p, InboxName(r, s), m, Timing(r, s, ttl));
    if Untimed(w, k) {
      UntimedStays(w, after, p, k);
    }
    if k == InboxName(r, s) {
      assert after.pcs[p].Timing?;
    }
  }

  lemma TimedExpire(w: World, p: nat, r: string, s: string, ttl: int, k: string, max: int)
    requires TimedOk(w, k, max) && p in w.pcs && w.pcs[p] == Timing(r, s, ttl) && 0 < ttl <= max
    ensures TimedOk(World(Expire(w.db, InboxName(r, s), ttl), w.tracks, w.pcs[p := Indexing(r, s, ttl)]), k, max)
  {
    var after := World(Expire(w.db, InboxName(r, s), ttl), w.tracks, w.pcs[p := Indexing(r, s, ttl)]);
    if k != InboxName(r, s) && Untimed(w, k) {
      var q :| q in w.pcs && w.pcs[q].Timing? && InboxName(w.pcs[q].recipient, w.pcs[q].sender) == k;
      assert q in after.pcs && after.pcs[q] == w.pcs[q];
    }
  }

  lemma TimedIndex(db: Db, r: string, s: string, ttl: int)
    requires ListsOk(db) && ttl > 0
    ensures SameDeadlines(db, SAdd(db, SENDERS + r, s)) && SameDeadlines(db, SRem(db, SENDERS + r, s))
    ensures SameDeadlines(db, Del(db, SENDERS + r)) && SameDeadlines(db, Expire(db, SENDERS + r, ttl))
  {
    IndexCommands(db, r, s, ttl);
  }

  lemma TimedOnIndex(w: World, p: nat, pick: string, k: string, max: int)
    requires ListsOk(w.db) && AllProper(w) && TimedOk(w, k, max) && p in w.pcs
    requires w.pcs[p].Indexing? || w.pcs[p].IndexTiming? || w.pcs[p].Unindexing?
    ensures TimedOk(NextStep(w, p, pick), k, max)
  {
    assert Proper(w.pcs[p]);
    match w.pcs[p] {
      case Indexing(r, s, _) => TimedIndex(w.db, r, s, 1);
      case IndexTiming(r, ttl) => TimedIndex(w.db, r, r, ttl);
      case Unindexing(r, s, _) => TimedIndex(w.db, r, s, 1);
    }
    TimedQuiet(w, NextStep(w, p, pick), p, k, max);
  }

  lemma TimedInLoop(w: World, p: nat, pick: string, k: string, max: int)
    requires ListsOk(w.db) && TimedOk(w, k, max) && p in w.pcs
    requires w.pcs[p].Clearing? || w.pcs[p].Serving? || w.pcs[p].Listing? || w.pcs[p].Scanning?
    ensures TimedOk(NextStep(w, p, pick), k, max)
  {
    var after := NextStep(w, p, pick);
    if w.pcs[p].Serving? {
      TimedIndex(w.db, w.pcs[p].recipient, pick, 1);
    }
    if after != w {
      TimedQuiet(w, after, p, k, max);
    }
  }

  lemma TimedNext(w: World, p: nat, pick: string, k: string, max: int)
    requires ListsOk(w.db) && AllProper(w) && TimedOk(w, k, max) && p in w.pcs && ShortLived(w.pcs[p], max)
    ensures TimedOk(NextStep(w, p, pick), k, max)
  {
    match w.pcs[p] {
      case Timing(r, s, ttl) =>
        assert Proper(w.pcs[p]);
        TimedExpire(w, p, r, s, ttl, k, max);
      case Stop =>
      case Indexing(_, _, _) => TimedOnIndex(w, p, pick, k, max);
      case IndexTiming(_, _) => TimedOnIndex(w, p, pick, k, max);
      case Unindexing(_, _, _) => TimedOnIndex(w, p, pick, k, max);
      case _ => TimedInLoop(w, p, pick, k, max);
    }
  }

  lemma TimedStep(w: World, s: Step, k: string, max: int)
    requires ListsOk(w.db) && AllProper(w) && AllTimed(w, max) && (s.Push? ==> s.ttl <= max)
    ensures TimedOk(Apply(w, s), k, max)
  {
    assert TimedOk(w, k, max);
    match s {
      case Push(p, r, sd, m, ttl) =>
        if p !in w.pcs && ttl > 0 { TimedPush(w, p, r, sd, m, ttl, k, max); }
      case DrainOne(p, r, sd) => if p !in w.pcs { TimedQuiet(w, Apply(w, s), p, k, max); }
      case DrainAll(p, r) => if p !in w.pcs { TimedQuiet(w, Apply(w, s), p, k, max); }
      case Next(p, pick) => if p in w.pcs { TimedNext(w, p, pick, k, max); }
      case Tick(t) => assert Untimed(Apply(w, s), k) <==> Untimed(w, k);
      case Flush =>
    }
  }

  lemma ShortLivedKept(w: World, s: Step, max: int)
    requires forall p :: p in w.pcs ==> ShortLived(w.pcs[p], max)
    requires AllProper(w) && (s.Push? ==> s.ttl <= max)
    ensures forall p :: p in Apply(w, s).pcs ==> ShortLived(Apply(w, s).pcs[p], max)
  {
    if s.Next? && s.p in w.pcs {
      assert Proper(w.pcs[s.p]);
    }
  }

  lemma {:induction false} TimedRun(w: World, ss: seq<Step>, max: int)
    requires Coherent(w) && AllProper(w) && AllTimed(w, max) && forall s :: s in ss && s.Push? ==> s.ttl <= max
    ensures AllTimed(Run(w, ss), max)
    decreases ss
  {
    if ss != [] {
      assert ss[0] in ss && forall s :: s in ss[1..] ==> s in ss;
      StepKeeps(w, ss[0]);
      ProperKept(w, ss[0]);
      ShortLivedKept(w, ss[0], max);
      forall k ensures TimedOk(Apply(w, ss[0]), k, max) { TimedStep(w, ss[0], k, max); }
      TimedRun(Apply(w, ss[0]), ss[1..], max);
    }
  }

  /** When the clock moves on, a queue is gone from its deadline on and as it was before; a clock that runs back is
      not followed, and a flush takes everything. */
  lemma GoneAtDeadline(w: World, k: string, t: int)
    ensures Apply(w, Flush).db == EMPTY.(now := w.db.now)
    ensures t < w.db.now ==> Apply(w, Tick(t)) == w
    ensures t >= w.db.now ==>
              var after := Apply(w, Tick(t)).db;
              && after.now == t
              && (k in after.lists <==> k in w.db.lists && (w.db.lists[k].deadline == None || t < w.db.lists[k].deadline.value))
              && (k in after.lists ==> after.lists[k] == w.db.lists[k])
  {
  }

  /** In every interleaving, with lifetimes up to `max`: a queue that no push is in the middle of extending is
      gone after `max` more, if nothing is pushed to it meanwhile. */
  lemma NoQueueForever(ss: seq<Step>, k: string, max: int)
    requires forall s :: s in ss && s.Push? ==> s.ttl <= max
    ensures var w := Run(START, ss); Untimed(w, k) || k !in Advance(w.db, w.db.now + max).lists
  {
    TimedRun(START, ss, max);
    assert TimedOk(Run(START, ss), k, max);
  }

  // ---- Exactly when a message is read twice, and exactly when one is lost ----

  /** Some drain has read `k` beyond position `i` and not yet deleted it. */
  predicate HeldPast(w: World, k: string, i: nat) {
    exists p :: p in w.pcs && Reads(w.pcs[p], k) && w.pcs[p].hi > i
  }

  predicate HeldTo(w: World, k: string, hi: nat) {
    exists p :: p in w.pcs && Reads(w.pcs[p], k) && w.pcs[p].hi == hi
  }

  /** A batch that reaches into what is still queued belongs to a drain that is about to delete it. */
  ghost predicate Owned(w: World, k: string) {
    var t := At(w, k);
    forall j :: 0 <= j < |t.spans| && t.spans[j].hi > |t.fate| ==> HeldTo(w, k, t.spans[j].hi)
  }

  lemma HeldElsewhere(w: World, after: World, p: nat, k: string, hi: nat)
    requires HeldTo(w, k, hi) && p in after.pcs && after.pcs == w.pcs[p := after.pcs[p]] && NotReading(w, p, k)
    ensures HeldTo(after, k, hi)
  {
    var q :| q in w.pcs && Reads(w.pcs[q], k) && w.pcs[q].hi == hi;
    assert q in after.pcs && Reads(after.pcs[q], k);
  }

  lemma OwnedElsewhere(w: World, after: World, p: nat, k: string)
    requires Owned(w, k) && p in after.pcs && after.pcs == w.pcs[p := after.pcs[p]] && NotReading(w, p, k)
    requires At(after, k).spans == At(w, k).spans && |At(after, k).fate| >= |At(w, k).fate|
    ensures Owned(after, k)
  {
    var t := At(after, k);
    forall j | 0 <= j < |t.spans| && t.spans[j].hi > |t.fate| ensures HeldTo(after, k, t.spans[j].hi) {
      HeldElsewhere(w, after, p, k, t.spans[j].hi);
    }
  }

  lemma OwnedLRange(w: World, p: nat, k: string, found: Pc, nothing: Pc, x: string)
    requires Owned(w, x) && NotReading(w, p, x)
    ensures Owned(LRangeStep(w, p, k, found, nothing), x)
  {
    var after := LRangeStep(w, p, k, found, nothing);
    if LRange(w.db, k) == [] || x != k {
      OwnedElsewhere(w, after, p, x);
    } else {
      var t := At(after, k);
      assert Reads(after.pcs[p], k) && after.pcs[p].hi == |t.pushed|;
      forall j | 0 <= j < |t.spans| && t.spans[j].hi > |t.fate| ensures HeldTo(after, k, t.spans[j].hi) {
        if j < |t.spans| - 1 {
          assert t.spans[j] == At(w, k).spans[j];
          HeldElsewhere(w, after, p, k, t.spans[j].hi);
        }
      }
    }
  }

  lemma OwnedDel(w: World, p: nat, k: string, hi: nat, pc: Pc, x: string)
    requires Coherent(w) && Owned(w, x) && p in w.pcs && w.pcs[p].Clearing? && w.pcs[p].key == k
    ensures Owned(DelStep(w, p, k, hi, pc), x)
  {
    var after, t := DelStep(w, p, k, hi, pc), At(w, x);
    assert TrackOk(LRange(w.db, x), t);
    if x != k {
      OwnedElsewhere(w, after, p, x);
    } else {
      forall j | 0 <= j < |t.spans| ensures t.spans[j].hi <= |t.pushed| {
        assert SpanOk(t, t.spans[j]);
      }
    }
  }

  lemma OwnedGone(w: World, after: Db, why: Fate, x: string)
    requires Owned(w, x)
    ensures Owned(GoneStep(w, after, why), x)
  {
    var w', t := GoneStep(w, after, why), At(w, x);
    forall j | 0 <= j < |t.spans| && t.spans[j].hi > |At(w', x).fate| ensures HeldTo(w', x, t.spans[j].hi) {
      assert HeldTo(w, x, t.spans[j].hi);
    }
  }

  lemma OwnedNext(w: World, p: nat, pick: string, x: string)
    requires Coherent(w) && Owned(w, x) && p in w.pcs
    ensures Owned(NextStep(w, p, pick), x)
  {
    var after := NextStep(w, p, pick);
    match w.pcs[p] {
      case Clearing(k, hi, pc) => OwnedDel(w, p, k, hi, pc, x);
      case Serving(r, senders) =>
        if senders == {} {
          OwnedElsewhere(w, after, p, x);
        } else if pick in senders {
          var rest := Serving(r, senders - {pick});
          OwnedLRange(w, p, InboxName(r, pick), Unindexing(r, pick, rest), rest, x);
        }
      case Scanning(keys) =>
        if pick in keys { OwnedLRange(w, p, pick, Scanning(keys - {pick}), Scanning(keys - {pick}), x); }
      case Stop =>
      case _ => OwnedElsewhere(w, after, p, x);
    }
  }

  lemma OwnedStep(w: World, s: Step, x: string)
    requires Coherent(w) && Owned(w, x)
    ensures Owned(Apply(w, s), x)
  {
    match s {
      case Push(p, _, _, _, ttl) => if p !in w.pcs && ttl > 0 { OwnedElsewhere(w, Apply(w, s), p, x); }
      case DrainOne(p, r, sd) =>
        if p !in w.pcs { OwnedLRange(w, p, InboxName(r, sd), Unindexing(r, sd, Stop), Stop, x); }
      case DrainAll(p, _) => if p !in w.pcs { OwnedElsewhere(w, Apply(w, s), p, x); }
      case Next(p, pick) => if p in w.pcs { OwnedNext(w, p, pick, x); }
      case Tick(t) => if t >= w.db.now { OwnedGone(w, Advance(w.db, t), Expired, x); }
      case Flush => OwnedGone(w, FlushDB(w.db), Flushed, x);
    }
  }

  /** What holds in every reachable world of queue `k`. */
  ghost predicate Reachable(w: World, k: string) {
    Coherent(w) && AllProper(w) && Owned(w, k)
  }

  lemma ReachableStep(w: World, s: Step, k: string)
    requires Reachable(w, k)
    ensures Reachable(Apply(w, s), k)
  {
    StepKeeps(w, s);
    ProperKept(w, s);
    OwnedStep(w, s, k);
  }

  lemma {:induction false} ReachableRun(w: World, ss: seq<Step>, k: string)
    requires Reachable(w, k)
    ensures Reachable(Run(w, ss), k)
    decreases ss
  {
    if ss != [] {
      ReachableStep(w, ss[0], k);
      ReachableRun(Apply(w, ss[0]), ss[1..], k);
    }
  }

  /** A queued message has been read by somebody exactly while some drain holds it, read and not yet deleted. */
  lemma ReadIffHeld(w: World, k: string, i: nat)
    requires Reachable(w, k) && |At(w, k).fate| <= i < |At(w, k).pushed|
    ensures InSpan(At(w, k), i) <==> HeldPast(w, k, i)
  {
    var t := At(w, k);
    assert TrackOk(LRange(w.db, k), t);
    if InSpan(t, i) {
      var j :| 0 <= j < |t.spans| && t.spans[j].lo <= i < t.spans[j].hi;
      assert HeldTo(w, k, t.spans[j].hi);
    }
    if HeldPast(w, k, i) {
      var p :| p in w.pcs && Reads(w.pcs[p], k) && w.pcs[p].hi > i;
      var j :| 0 <= j < |t.spans| && t.spans[j].hi == w.pcs[p].hi;
      assert SpanOk(t, t.spans[j]);
    }
  }

  /** A DEL, whenever it comes, and a message queued at that moment: no batch contains it in any continuation exactly
      when no drain, this one or another, has read past it and not yet deleted. */
  lemma DeletedUnreadIff(w: World, p: nat, pick: string, k: string, i: nat)
    requires Reachable(w, k) && p in w.pcs && Reads(w.pcs[p], k) && |At(w, k).fate| <= i < |At(w, k).pushed|
    ensures (forall ss :: !DeliveredBy(Apply(w, Next(p, pick)), ss, k, i)) <==> !HeldPast(w, k, i)
  {
    var t, after := At(w, k), Apply(w, Next(p, pick));
    ReadIffHeld(w, k, i);
    StepKeeps(w, Next(p, pick));
    ProperKept(w, Next(p, pick));
    assert At(after, k) == Cleared(t, w.pcs[p].hi);
    assert InSpan(At(after, k), i) <==> InSpan(t, i);
    if HeldPast(w, k, i) {
      assert DeliveredBy(after, [], k, i);
    } else {
      forall ss ensures !DeliveredBy(after, ss, k, i) {
        LostForGood(after, ss, k, i);
      }
    }
  }

  /** Some batch of the run contains position `i`. */
  ghost predicate DeliveredBy(w: World, ss: seq<Step>, k: string, i: nat) {
    InSpan(At(Run(w, ss), k), i)
  }

  /** The step is an LRANGE of `k` that returns something. */
  predicate ReadsQueue(w: World, s: Step, k: string) {
    && LRange(w.db, k) != []
    && match s
       case DrainOne(p, r, sd) => p !in w.pcs && InboxName(r, sd) == k
       case Next(p, pick) =>
         && p in w.pcs
         && ((w.pcs[p].Serving? && pick in w.pcs[p].senders && InboxName(w.pcs[p].recipient, pick) == k)
             || (w.pcs[p].Scanning? && pick in w.pcs[p].keys && pick == k))
       case _ => false
  }

  lemma ReadsQueueStep(w: World, s: Step, k: string)
    ensures At(Apply(w, s), k).spans ==
            At(w, k).spans + if ReadsQueue(w, s, k) then [Span(|At(w, k).fate|, |At(w, k).pushed|, LRange(w.db, k))] else []
  {
  }

  /** Position `i` is in two batches. */
  ghost predicate Twice(t: Track, i: nat) {
    exists a, b :: InBoth(t, i, a, b)
  }

  predicate InBoth(t: Track, i: nat, a: int, b: int) {
    0 <= a < b < |t.spans| && t.spans[a].lo <= i < t.spans[a].hi && t.spans[b].lo <= i < t.spans[b].hi
  }

  lemma TwiceWithOneMore(t: Track, t': Track, sp: Span, i: nat)
    requires t'.spans == t.spans + [sp]
    ensures Twice(t', i) <==> Twice(t, i) || (sp.lo <= i < sp.hi && InSpan(t, i))
  {
    var n := |t.spans|;
    if Twice(t', i) {
      var a, b :| InBoth(t', i, a, b);
      assert t'.spans[a] == t.spans[a];
      if b < n {
        assert t'.spans[b] == t.spans[b] && InBoth(t, i, a, b);
      } else {
        assert t'.spans[b] == sp && InSpan(t, i);
      }
    }
    if Twice(t, i) {
      var a, b :| InBoth(t, i, a, b);
      assert t'.spans[a] == t.spans[a] && t'.spans[b] == t.spans[b] && InBoth(t', i, a, b);
    }
    if sp.lo <= i < sp.hi && InSpan(t, i) {
      var a :| 0 <= a < n && t.spans[a].lo <= i < t.spans[a].hi;
      assert t'.spans[a] == t.spans[a] && t'.spans[n] == sp && InBoth(t', i, a, n);
    }
  }

  /** Which messages one step hands out a second time: those it reads while another drain holds them. A message
      is in two batches after the step exactly if it was before, or the step reads the queue it is in while
      some drain has read it and not yet deleted it. */
  lemma ReadTwice(w: World, s: Step, k: string, i: nat)
    requires Reachable(w, k)
    ensures Twice(At(Apply(w, s), k), i) <==>
            Twice(At(w, k), i) || (ReadsQueue(w, s, k) && |At(w, k).fate| <= i < |At(w, k).pushed| && HeldPast(w, k, i))
  {
    var t, t' := At(w, k), At(Apply(w, s), k);
    ReadsQueueStep(w, s, k);
    if ReadsQueue(w, s, k) {
      TwiceWithOneMore(t, t', Span(|t.fate|, |t.pushed|, LRange(w.db, k)), i);
      if |t.fate| <= i < |t.pushed| {
        ReadIffHeld(w, k, i);
      }
    } else {
      assert t.spans + [] == t.spans;
      SameSpans(t, t', i);
    }
  }

  lemma SameSpans(t: Track, t': Track, i: nat)
    requires t'.spans == t.spans
    ensures Twice(t', i) <==> Twice(t, i)
  {
    assert forall a, b :: InBoth(t', i, a, b) <==> InBoth(t, i, a, b);
  }

  /** Some queued message is read while another drain holds it: the drain has read past the front. */
  predicate Rereads(w: World, s: Step, k: string) {
    ReadsQueue(w, s, k) && HeldPast(w, k, |At(w, k).fate|)
  }

  ghost predicate SomeTwice(t: Track) {
    exists i :: Twice(t, i)
  }

  lemma RereadsStep(w: World, s: Step, k: string)
    requires Reachable(w, k)
    ensures SomeTwice(At(Apply(w, s), k)) <==> SomeTwice(At(w, k)) || Rereads(w, s, k)
  {
    var t, t' := At(w, k), At(Apply(w, s), k);
    assert TrackOk(LRange(w.db, k), t);
    if SomeTwice(t) {
      var i :| Twice(t, i);
      ReadTwice(w, s, k, i);
    }
    if Rereads(w, s, k) {
      ReadTwice(w, s, k, |t.fate|);
    }
    if SomeTwice(t') {
      var i :| Twice(t', i);
      ReadTwice(w, s, k, i);
      if !Twice(t, i) {
        var p :| p in w.pcs && Reads(w.pcs[p], k) && w.pcs[p].hi > i;
        assert w.pcs[p].hi > |t.fate|;
      }
    }
  }

  /** The step takes a nonempty queue away although no drain has read it to its end. */
  predicate Strands(w: World, s: Step, k: string) {
    k in w.db.lists && k !in Apply(w, s).db.lists && !HeldTo(w, k, |At(w, k).pushed|)
  }

  /** Position `i` has left the queue and is in no batch. */
  ghost predicate Lost(t: Track, i: nat) {
    i < |t.fate| && !InSpan(t, i)
  }

  ghost predicate SomeLost(t: Track) {
    exists i :: Lost(t, i)
  }

  lemma ListIsQueue(w: World, k: string)
    requires Coherent(w)
    ensures k in w.db.lists <==> |At(w, k).fate| < |At(w, k).pushed|
  {
    assert TrackOk(LRange(w.db, k), At(w, k));
  }

  lemma HeldToEnd(w: World, k: string)
    requires Reachable(w, k) && |At(w, k).fate| < |At(w, k).pushed|
    ensures HeldTo(w, k, |At(w, k).pushed|) <==> HeldPast(w, k, |At(w, k).pushed| - 1)
    ensures HeldTo(w, k, |At(w, k).pushed|) ==> forall i :: |At(w, k).fate| <= i < |At(w, k).pushed| ==> InSpan(At(w, k), i)
  {
    var t := At(w, k);
    var last := |t.pushed| - 1;
    assert TrackOk(LRange(w.db, k), t);
    if HeldPast(w, k, last) {
      var p :| p in w.pcs && Reads(w.pcs[p], k) && w.pcs[p].hi > last;
      var j :| 0 <= j < |t.spans| && t.spans[j].hi == w.pcs[p].hi;
      assert SpanOk(t, t.spans[j]);
    }
    if HeldTo(w, k, |t.pushed|) {
      var p :| p in w.pcs && Reads(w.pcs[p], k) && w.pcs[p].hi == |t.pushed|;
      var j :| 0 <= j < |t.spans| && t.spans[j].hi == |t.pushed|;
      assert SpanOk(t, t.spans[j]);
      forall i | |t.fate| <= i < |t.pushed| ensures InSpan(t, i) {
        assert t.spans[j].lo <= i < t.spans[j].hi;
      }
    }
  }

  /** Batches and departures never happen in the same step, and what leaves, leaves altogether. */
  lemma FateStep(w: World, s: Step, k: string)
    requires Coherent(w)
    ensures var t, t' := At(w, k), At(Apply(w, s), k);
            if |t'.fate| > |t.fate| then t'.spans == t.spans && |t'.fate| == |t'.pushed| == |t.pushed| && t.fate <= t'.fate
            else t'.fate == t.fate && t.spans <= t'.spans
                 && forall j :: |t.spans| <= j < |t'.spans| ==> t'.spans[j].lo == |t.fate|
  {
    assert TrackOk(LRange(w.db, k), At(w, k));
    OneTrackStep(w, s, k);
  }

  lemma LostAfter(t: Track, t': Track)
    requires |t.fate| <= |t.pushed| && (forall i :: Lost(t, i) ==> Lost(t', i))
    requires if |t'.fate| > |t.fate| then t'.spans == t.spans && |t'.fate| == |t.pushed| && t.fate <= t'.fate
             else t'.fate == t.fate && t.spans <= t'.spans && forall j :: |t.spans| <= j < |t'.spans| ==> t'.spans[j].lo == |t.fate|
    ensures SomeLost(t') <==>
            SomeLost(t) || (|t'.fate| > |t.fate| && exists i :: |t.fate| <= i < |t.pushed| && !InSpan(t, i))
  {
    if SomeLost(t) {
      var i :| Lost(t, i);
      assert Lost(t', i);
    }
    if |t'.fate| > |t.fate| {
      forall i ensures InSpan(t', i) <==> InSpan(t, i) {
      }
      if exists i :: |t.fate| <= i < |t.pushed| && !InSpan(t, i) {
        var i :| |t.fate| <= i < |t.pushed| && !InSpan(t, i);
        assert Lost(t', i);
      }
    }
    if SomeLost(t') {
      var i: nat :| Lost(t', i);
      assert forall j :: 0 <= j < |t.spans| ==> t'.spans[j] == t.spans[j];
      assert i < |t.fate| ==> Lost(t, i);
    }
  }

  lemma StrandsIff(w: World, s: Step, k: string)
    requires Reachable(w, k)
    ensures var t, t' := At(w, k), At(Apply(w, s), k);
            Strands(w, s, k) <==> |t'.fate| > |t.fate| && exists i :: |t.fate| <= i < |t.pushed| && !InSpan(t, i)
  {
    var t, t', after := At(w, k), At(Apply(w, s), k), Apply(w, s);
    StepKeeps(w, s);
    ListIsQueue(w, k);
    ListIsQueue(after, k);
    FateStep(w, s, k);
    assert TrackOk(LRange(w.db, k), t);
    HistoryStays(w, s, k);
    if |t.fate| < |t.pushed| {
      HeldToEnd(w, k);
      ReadIffHeld(w, k, |t.pushed| - 1);
    }
  }

  lemma HistoryStays(w: World, s: Step, k: string)
    ensures |At(w, k).pushed| <= |At(Apply(w, s), k).pushed|
  {
    PushedByStep(w, s, k);
  }

  /** A step loses a message, deleting it (or letting it expire, or flushing it) before any drain read it, exactly
      if it takes away a nonempty queue that no drain has read to its end and is about to delete. */
  lemma LosesIff(w: World, s: Step, k: string)
    requires Reachable(w, k)
    ensures SomeLost(At(Apply(w, s), k)) <==> SomeLost(At(w, k)) || Strands(w, s, k)
  {
    assert TrackOk(LRange(w.db, k), At(w, k));
    forall i | Lost(At(w, k), i) ensures Lost(At(Apply(w, s), k), i) {
      StaysLost(w, s, k, i);
    }
    FateStep(w, s, k);
    StrandsIff(w, s, k);
    LostAfter(At(w, k), At(Apply(w, s), k));
  }

  /** No step of the run reads what another drain holds, and none takes away what nobody read. */
  ghost predicate Clean(w: World, ss: seq<Step>, k: string)
    decreases ss
  {
    ss == [] || (!Rereads(w, ss[0], k) && !Strands(w, ss[0], k) && Clean(Apply(w, ss[0]), ss[1..], k))
  }

  /** What has left the queue was in one batch, and nothing is in two. */
  ghost predicate OnceEach(t: Track) {
    !SomeTwice(t) && !SomeLost(t)
  }

  lemma {:induction false} OnceEachIff(w: World, ss: seq<Step>, k: string)
    requires Reachable(w, k)
    ensures OnceEach(At(Run(w, ss), k)) <==> OnceEach(At(w, k)) && Clean(w, ss, k)
    decreases ss
  {
    if ss != [] {
      ReachableStep(w, ss[0], k);
      RereadsStep(w, ss[0], k);
      LosesIff(w, ss[0], k);
      OnceEachIff(Apply(w, ss[0]), ss[1..], k);
    }
  }

  /** Every message pushed to `k` that is gone from it was delivered in one batch, and none in two: true of a run
      from the empty store exactly if no drain read what another one was about to delete, and the queue was
      never taken away, by a DEL, by expiry or by a flush, beyond what some drain had read. */
  lemma ExactlyOnceIff(ss: seq<Step>, k: string)
    ensures OnceEach(At(Run(START, ss), k)) <==> Clean(START, ss, k)
  {
    assert At(START, k) == UNTOUCHED;
    OnceEachIff(START, ss, k);
  }

  ghost predicate NeverRereads(w: World, ss: seq<Step>, k: string)
    decreases ss
  {
    ss == [] || (!Rereads(w, ss[0], k) && NeverRereads(Apply(w, ss[0]), ss[1..], k))
  }

  /** No message is in two batches at the end of a run exactly if no step of it read what another drain held. */
  lemma {:induction false} ReadTwiceIff(w: World, ss: seq<Step>, k: string)
    requires Reachable(w, k)
    ensures SomeTwice(At(Run(w, ss), k)) <==> SomeTwice(At(w, k)) || !NeverRereads(w, ss, k)
    decreases ss
  {
    if ss != [] {
      ReachableStep(w, ss[0], k);
      RereadsStep(w, ss[0], k);
      ReadTwiceIff(Apply(w, ss[0]), ss[1..], k);
    }
  }

  function HiBefore(t: Track, j: nat): int
    requires j <= |t.spans|
  {
    if j == 0 then 0 else t.spans[j - 1].hi
  }

  /** Between two batches, and after the last, nothing is in a batch. */
  lemma GapIsLost(queue: seq<Envelope>, t: Track, j: nat)
    requires TrackOk(queue, t) && j <= |t.spans| && HiBefore(t, j) < if j == |t.spans| then |t.fate| else t.spans[j].lo
    ensures SomeLost(t)
  {
    forall a | 0 <= a < |t.spans| ensures !(t.spans[a].lo <= HiBefore(t, j) < t.spans[a].hi) {
      assert SpanOk(t, t.spans[a]);
    }
    if j < |t.spans| {
      assert SpanOk(t, t.spans[j]);
    }
    assert Lost(t, HiBefore(t, j));
  }

  lemma OverlapIsTwice(queue: seq<Envelope>, t: Track, j: nat)
    requires TrackOk(queue, t) && 0 < j < |t.spans| && t.spans[j].lo < t.spans[j - 1].hi
    ensures SomeTwice(t)
  {
    assert SpanOk(t, t.spans[j]);
    assert InBoth(t, t.spans[j].lo, j - 1, j);
    assert Twice(t, t.spans[j].lo);
  }

  /** Batches that miss nothing and overlap nowhere follow one upon the other. */
  lemma Tiled(queue: seq<Envelope>, t: Track, j: nat)
    requires TrackOk(queue, t) && OnceEach(t) && j < |t.spans|
    ensures t.spans[j].lo == HiBefore(t, j)
  {
    assert SpanOk(t, t.spans[j]);
    if HiBefore(t, j) < t.spans[j].lo {
      GapIsLost(queue, t, j);
    }
    if j > 0 && t.spans[j].lo < t.spans[j - 1].hi {
      OverlapIsTwice(queue, t, j);
    }
  }

  lemma JoinSlices(xs: seq<Envelope>, i: nat, j: nat)
    requires i <= j <= |xs|
    ensures xs[..i] + xs[i..j] == xs[..j]
  {
  }

  lemma {:induction false} JoinedTo(queue: seq<Envelope>, t: Track, n: nat)
    requires TrackOk(queue, t) && OnceEach(t) && n <= |t.spans|
    ensures 0 <= HiBefore(t, n) <= |t.pushed| && Joined(t.spans[..n]) == t.pushed[..HiBefore(t, n)]
  {
    if n > 0 {
      JoinedTo(queue, t, n - 1);
      Tiled(queue, t, n - 1);
      var last := t.spans[n - 1];
      assert SpanOk(t, last);
      assert t.spans[..n][..n - 1] == t.spans[..n - 1] && t.spans[..n][n - 1] == last;
      JoinSlices(t.pushed, last.lo, last.hi);
    }
  }

  lemma LastSpan(queue: seq<Envelope>, t: Track)
    requires TrackOk(queue, t) && OnceEach(t) && forall j :: 0 <= j < |t.spans| ==> t.spans[j].hi <= |t.fate|
    ensures |t.fate| == HiBefore(t, |t.spans|)
  {
    if HiBefore(t, |t.spans|) < |t.fate| {
      GapIsLost(queue, t, |t.spans|);
    }
  }

  lemma UnheldBatches(w: World, k: string)
    requires Owned(w, k) && !HeldPast(w, k, |At(w, k).fate|)
    ensures forall j :: 0 <= j < |At(w, k).spans| ==> At(w, k).spans[j].hi <= |At(w, k).fate|
  {
    var t := At(w, k);
    forall j | 0 <= j < |t.spans| ensures t.spans[j].hi <= |t.fate| {
      assert t.spans[j].hi > |t.fate| ==> HeldTo(w, k, t.spans[j].hi);
      assert HeldTo(w, k, t.spans[j].hi) ==> t.spans[j].hi <= |t.fate|;
    }
  }

  /** In such a run, whenever no drain is about to delete what it read, what was pushed is the batches one after
      the other and then the queue. */
  lemma CleanInOrder(ss: seq<Step>, k: string)
    requires Clean(START, ss, k) && !HeldPast(Run(START, ss), k, |At(Run(START, ss), k).fate|)
    ensures Pushes(START, ss, k) == Joined(At(Run(START, ss), k).spans) + LRange(Run(START, ss).db, k)
  {
    var w := Run(START, ss);
    var t := At(w, k);
    assert At(START, k) == UNTOUCHED;
    ReachableRun(START, ss, k);
    ExactlyOnceIff(ss, k);
    HistoryIsPushes(START, ss, k);
    assert TrackOk(LRange(w.db, k), t);
    UnheldBatches(w, k);
    LastSpan(LRange(w.db, k), t);
    JoinedTo(LRange(w.db, k), t, |t.spans|);
    assert t.spans[..|t.spans|] == t.spans;
    SplitAt(t.pushed, |t.fate|);
    SplitAt(Pushes(START, ss, k), 0);
  }
}
