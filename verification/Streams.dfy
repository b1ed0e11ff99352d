/** Uploads, streams and inbox fetches together. An upload queues and publishes for one spelling of its recipient
    at a time; a stream first flushes the queue and only then subscribes; everything else may happen in between.
    Each store operation is one step here (InboxSteps opens those up). */
module Streams {
  import opened Ascii
  import opened Handles
  import opened Redis
  import opened RelayStore
  import opened Relay

  /** What became of a message that left its queue: written from there to a client; cleared by a stream with a
      `with` filter, which writes nothing from the queue it clears (it may have the message otherwise, from
      its channels); or lost to the clock or an administrator. */
  datatype Fate = Written(client: nat) | Discarded(client: nat) | Expired | Flushed

  /** Everything ever pushed to a queue, what became of those that left it, and the time of the last push. */
  datatype Track = Track(pushed: seq<Envelope>, fate: seq<Fate>, last: int)

  datatype Phase = Opening | Drained | Subscribed | Closed

  /** A client: a stream, or an inbox response (which is closed as soon as it is written). */
  datatype Client = Client(handle: string, with: string, phase: Phase, mailbox: seq<Envelope>, written: seq<Envelope>)

  /** An upload for a recipient: the spellings served so far, those still to serve, and whether the first
      of these is queued already and only has to be published. */
  datatype Upload = Upload(recipient: string, m: Envelope, ttl: int, served: seq<string>, todo: seq<string>, queued: bool)

  datatype World = World(db: Db, tracks: map<string, Track>, clients: map<nat, Client>, uploads: map<nat, Upload>)

  /** `order` is the order in which a drain of all senders happens to visit the queues. */
  datatype Step =
    | Post(u: nat, recipient: string, m: Envelope, requested: Option<int>)
    | Queue(u: nat)
    | Publish(u: nat)
    | Connect(c: nat, handle: string, with: string)
    | Drain(c: nat, order: seq<string>)
    | Subscribe(c: nat)
    | Receive(c: nat)
    | Close(c: nat)
    | Fetch(c: nat, recipient: string, sender: string, order: seq<string>)
    | Tick(t: int)
    | Flush

  function At(w: World, k: string): Track {
    if k in w.tracks then w.tracks[k] else Track([], [], 0)
  }

  function Left(t: Track): nat {
    if |t.pushed| > |t.fate| then |t.pushed| - |t.fate| else 0
  }

  function Gone(t: Track, why: Fate): Track {
    t.(fate := t.fate + seq(Left(t), i requires 0 <= i < Left(t) => why))
  }

  /** The queues in `order` leave the store. */
  function Take(w: World, order: seq<string>, why: Fate): map<string, Track> {
    map k | k in w.tracks :: if k in order then Gone(w.tracks[k], why) else w.tracks[k]
  }

  /** The queue that draining one sender takes, if there is one. */
  function OneOrder(db: Db, recipient: string, sender: string): seq<string> {
    var k := InboxName(recipient, sender);
    if k in db.lists then [k] else []
  }

  /** One drain, of one sender's queue or of all, written to client `c`. */
  ghost function DrainTo(w: World, c: nat, recipient: string, sender: string, order: seq<string>, client: Client): World
    requires forall k :: k in order ==> k in w.db.lists
  {
    World(if sender != "" then ClearOne(w.db, recipient, sender) else ClearAll(w.db, recipient, order),
          Take(w, order, Written(c)),
          w.clients[c := client.(written := client.written + Concat(order, w.db.lists))], w.uploads)
  }

  ghost predicate RightOrder(db: Db, recipient: string, sender: string, order: seq<string>) {
    if sender != "" then order == OneOrder(db, recipient, sender) else IsDrainOrder(db, recipient, order)
  }

  predicate Listening(client: Client, t: string) {
    client.phase == Subscribed && t in Spellings(client.handle)
  }

  predicate EqualFold(a: string, b: string) {
    ToUpper(a) == ToUpper(b)
  }

  function QueueStep(w: World, u: nat): World
    requires u in w.uploads && w.uploads[u].todo != []
  {
    var up := w.uploads[u];
    var t := up.todo[0];
    var k := InboxName(t, up.m.sender);
    if up.m.sender == "" then w.(uploads := w.uploads[u := up.(queued := true)])
    else World(Pushed(w.db, t, up.m.sender, up.m, up.ttl),
               w.tracks[k := Track(At(w, k).pushed + [up.m], At(w, k).fate, w.db.now)],
               w.clients, w.uploads[u := up.(queued := true)])
  }

  function PublishStep(w: World, u: nat): World
    requires u in w.uploads && w.uploads[u].todo != []
  {
    var up := w.uploads[u];
    var t := up.todo[0];
    w.(clients := map c | c in w.clients ::
         if Listening(w.clients[c], t) then w.clients[c].(mailbox := w.clients[c].mailbox + [up.m]) else w.clients[c],
       uploads := w.uploads[u := up.(served := up.served + [t], todo := up.todo[1..], queued := false)])
  }

  /** The next published message of a stream. With a `with` filter, other senders' messages are skipped, and
      one from that sender first clears that sender's queue without writing what was in it. */
  function ReceiveStep(w: World, c: nat): World
    requires c in w.clients && w.clients[c].mailbox != []
  {
    var client := w.clients[c];
    var m := client.mailbox[0];
    var skipped := client.(mailbox := client.mailbox[1..]);
    if client.with != "" && m.sender != "" && !EqualFold(m.sender, client.with) then w.(clients := w.clients[c := skipped])
    else
      var shown := w.clients[c := skipped.(written := client.written + [m])];
      if client.with != "" && m.sender != "" then
        World(ClearOne(w.db, client.handle, client.with),
              Take(w, OneOrder(w.db, client.handle, client.with), Discarded(c)), shown, w.uploads)
      else w.(clients := shown)
  }

  /** All queues that are in `before` and not in `after` are gone. */
  function GoneStep(w: World, after: Db, why: Fate): World {
    w.(db := after, tracks := map k | k in w.tracks ::
         if k in w.db.lists && k !in after.lists then Gone(w.tracks[k], why) else w.tracks[k])
  }

  predicate Busy(w: World, u: nat, queued: bool) {
    u in w.uploads && w.uploads[u].todo != [] && w.uploads[u].queued == queued
  }

  predicate InPhase(w: World, c: nat, phase: Phase) {
    c in w.clients && w.clients[c].phase == phase
  }

  ghost predicate CanDrain(w: World, c: nat, order: seq<string>) {
    InPhase(w, c, Opening) && RightOrder(w.db, w.clients[c].handle, w.clients[c].with, order)
  }

  ghost predicate CanFetch(w: World, c: nat, r: string, sender: string, order: seq<string>) {
    c !in w.clients && r != "" && RightOrder(w.db, r, sender, order)
  }

  /** A step that is not possible changes nothing. */
  ghost function Apply(policy: TtlPolicy, w: World, s: Step): World {
    match s
    case Post(u, r, m, requested) =>
      if u in w.uploads || r == "" then w
      else w.(uploads := w.uploads[u := Upload(r, m, policy.Resolve(requested), [], Spellings(r), false)])
    case Queue(u) => if Busy(w, u, false) then QueueStep(w, u) else w
    case Publish(u) => if Busy(w, u, true) then PublishStep(w, u) else w
    case Connect(c, h, with) =>
      if c in w.clients || h == "" then w else w.(clients := w.clients[c := Client(h, with, Opening, [], [])])
    case Drain(c, order) =>
      if CanDrain(w, c, order)
      then DrainTo(w, c, w.clients[c].handle, w.clients[c].with, order, w.clients[c].(phase := Drained))
      else w
    case Subscribe(c) =>
      if InPhase(w, c, Drained) then w.(clients := w.clients[c := w.clients[c].(phase := Subscribed)]) else w
    case Receive(c) => if InPhase(w, c, Subscribed) && w.clients[c].mailbox != [] then ReceiveStep(w, c) else w
    case Close(c) => if c in w.clients then w.(clients := w.clients[c := w.clients[c].(phase := Closed)]) else w
    case Fetch(c, r, sd, order) =>
      if CanFetch(w, c, r, sd, order)
      then DrainTo(w, c, r, sd, order, Client(r, sd, Closed, [], []))
      else w
    case Tick(t) => if t < w.db.now then w else GoneStep(w, Advance(w.db, t), Expired)
    case Flush => GoneStep(w, FlushDB(w.db), Flushed)
  }

  ghost function Run(policy: TtlPolicy, w: World, ss: seq<Step>): World
    decreases ss
  {
    if ss == [] then w else Run(policy, Apply(policy, w, ss[0]), ss[1..])
  }

  const START := World(EMPTY, map[], map[], map[])

  // ---- What every run keeps ----

  /** A queue is a suffix of its history, and what counts as written really was. */
  ghost predicate TrackOk(queue: seq<Envelope>, t: Track, clients: map<nat, Client>) {
    && |t.fate| <= |t.pushed|
    && queue == t.pushed[|t.fate|..]
    && (forall i :: 0 <= i < |t.fate| ==> FateOk(t.fate[i], t.pushed[i], clients))
  }

  predicate FateOk(f: Fate, m: Envelope, clients: map<nat, Client>) {
    f.Written? ==> f.client in clients && m in clients[f.client].written
  }

  ghost predicate QueuesOk(w: World) {
    && WellNamed(w.db) && Live(w.db)
    && forall k :: TrackOk(LRange(w.db, k), At(w, k), w.clients)
  }

  /** No client is forgotten and no output taken back. */
  predicate Grow(a: map<nat, Client>, b: map<nat, Client>) {
    forall c :: c in a ==> c in b && a[c].written <= b[c].written
  }

  lemma FatesGrow(t: Track, a: map<nat, Client>, b: map<nat, Client>, queue: seq<Envelope>)
    requires TrackOk(queue, t, a) && Grow(a, b)
    ensures TrackOk(queue, t, b)
  {
    forall i | 0 <= i < |t.fate| ensures FateOk(t.fate[i], t.pushed[i], b) {
      assert FateOk(t.fate[i], t.pushed[i], a);
    }
  }

  lemma GoneOk(queue: seq<Envelope>, t: Track, why: Fate, clients: map<nat, Client>)
    requires TrackOk(queue, t, clients)
    requires why.Written? ==> why.client in clients && forall m :: m in queue ==> m in clients[why.client].written
    ensures TrackOk([], Gone(t, why), clients)
  {
    var t' := Gone(t, why);
    forall i | 0 <= i < |t'.fate| ensures FateOk(t'.fate[i], t'.pushed[i], clients) {
      if i < |t.fate| {
        assert FateOk(t.fate[i], t.pushed[i], clients);
      } else {
        assert t.pushed[i] == queue[i - |t.fate|];
      }
    }
  }

  lemma {:induction false} InConcat(order: seq<string>, lists: map<string, Cell<seq<Envelope>>>, k: string, m: Envelope)
    requires forall x :: x in order ==> x in lists
    requires k in order && m in lists[k].value
    ensures m in Concat(order, lists)
  {
    var n := |order| - 1;
    if order[n] != k {
      InConcat(order[..n], lists, k, m);
    }
  }

  /** The queues in `order` left the store, and `why` tells what happened to them. */
  lemma TakeKeeps(w: World, after: World, order: seq<string>, why: Fate)
    requires QueuesOk(w) && WellNamed(after.db) && Live(after.db)
    requires after.tracks == Take(w, order, why) && Grow(w.clients, after.clients)
    requires after.db.lists == Remove(w.db.lists, order)
    requires why.Written? ==> (why.client in after.clients &&
               forall k, m :: k in order && m in LRange(w.db, k) ==> m in after.clients[why.client].written)
    ensures QueuesOk(after)
  {
    forall k ensures TrackOk(LRange(after.db, k), At(after, k), after.clients) {
      assert TrackOk(LRange(w.db, k), At(w, k), w.clients);
      FatesGrow(At(w, k), w.clients, after.clients, LRange(w.db, k));
      if k in order {
        GoneOk(LRange(w.db, k), At(w, k), why, after.clients);
      }
    }
  }

  lemma OneOrderShape(db: Db, r: string, s: string)
    requires WellNamed(db) && Live(db)
    ensures WellNamed(ClearOne(db, r, s)) && Live(ClearOne(db, r, s))
    ensures ClearOne(db, r, s).lists == Remove(db.lists, OneOrder(db, r, s)) && ClearOne(db, r, s).now == db.now
  {
    ClearOneShape(db, r, s);
  }

  lemma DrainKeeps(w: World, c: nat, r: string, s: string, order: seq<string>, client: Client)
    requires QueuesOk(w) && RightOrder(w.db, r, s, order)
    requires c in w.clients ==> client.written == w.clients[c].written
    ensures (forall k :: k in order ==> k in w.db.lists) && QueuesOk(DrainTo(w, c, r, s, order, client))
  {
    var after := DrainTo(w, c, r, s, order, client);
    if s != "" {
      OneOrderShape(w.db, r, s);
    }
    forall k, m | k in order && m in LRange(w.db, k) ensures m in after.clients[c].written {
      InConcat(order, w.db.lists, k, m);
    }
    TakeKeeps(w, after, order, Written(c));
  }

  lemma ReceiveKeeps(w: World, c: nat)
    requires QueuesOk(w) && c in w.clients && w.clients[c].mailbox != []
    ensures QueuesOk(ReceiveStep(w, c))
  {
    var client, after := w.clients[c], ReceiveStep(w, c);
    if client.with != "" && client.mailbox[0].sender != "" && EqualFold(client.mailbox[0].sender, client.with) {
      OneOrderShape(w.db, client.handle, client.with);
      TakeKeeps(w, after, OneOrder(w.db, client.handle, client.with), Discarded(c));
    } else {
      ClientsKeep(w, after);
    }
  }

  lemma ClientsKeep(w: World, after: World)
    requires QueuesOk(w) && after.db == w.db && after.tracks == w.tracks && Grow(w.clients, after.clients)
    ensures QueuesOk(after)
  {
    forall k ensures TrackOk(LRange(after.db, k), At(after, k), after.clients) {
      assert TrackOk(LRange(w.db, k), At(w, k), w.clients);
      FatesGrow(At(w, k), w.clients, after.clients, LRange(w.db, k));
    }
  }

  lemma QueueKeeps(w: World, u: nat)
    requires QueuesOk(w) && u in w.uploads && w.uploads[u].todo != [] && w.uploads[u].ttl > 0
    ensures QueuesOk(QueueStep(w, u))
  {
    var up, after := w.uploads[u], QueueStep(w, u);
    if up.m.sender != "" {
      var t := up.todo[0];
      PushPipeline(w.db, t, up.m.sender, up.m, up.ttl);
      forall k ensures TrackOk(LRange(after.db, k), At(after, k), after.clients) {
        assert TrackOk(LRange(w.db, k), At(w, k), w.clients);
        PushedQueue(w.db, t, up.m.sender, up.m, up.ttl, k);
      }
    }
  }

  lemma GoneKeeps(w: World, after: Db, why: Fate)
    requires QueuesOk(w) && WellNamed(after) && Live(after) && !why.Written?
    requires forall k :: k in after.lists ==> k in w.db.lists && after.lists[k] == w.db.lists[k]
    ensures QueuesOk(GoneStep(w, after, why))
  {
    var w' := GoneStep(w, after, why);
    forall k ensures TrackOk(LRange(after, k), At(w', k), w'.clients) {
      assert TrackOk(LRange(w.db, k), At(w, k), w.clients);
      GoneOk(LRange(w.db, k), At(w, k), why, w.clients);
    }
  }

  /** Lifetimes come from the policy. */
  predicate UploadsTimed(policy: TtlPolicy, w: World) {
    forall u :: u in w.uploads ==> policy.min <= w.uploads[u].ttl <= policy.max
  }

  lemma TimedKept(policy: TtlPolicy, w: World, s: Step)
    requires policy.Valid() && UploadsTimed(policy, w)
    ensures UploadsTimed(policy, Apply(policy, w, s))
  {
  }

  lemma StreamDrainKeeps(policy: TtlPolicy, w: World, c: nat, order: seq<string>)
    requires QueuesOk(w) && CanDrain(w, c, order)
    ensures QueuesOk(Apply(policy, w, Drain(c, order)))
  {
    DrainKeeps(w, c, w.clients[c].handle, w.clients[c].with, order, w.clients[c].(phase := Drained));
  }

  lemma OthersKeep(policy: TtlPolicy, w: World, s: Step)
    requires QueuesOk(w) && (s.Post? || s.Publish? || s.Connect? || s.Subscribe? || s.Close?)
    ensures QueuesOk(Apply(policy, w, s))
  {
    ClientsKeep(w, Apply(policy, w, s));
  }

  lemma StepKeeps(policy: TtlPolicy, w: World, s: Step)
    requires policy.Valid() && QueuesOk(w) && UploadsTimed(policy, w)
    ensures QueuesOk(Apply(policy, w, s))
  {
    match s {
      case Queue(u) => if Busy(w, u, false) { QueueKeeps(w, u); }
      case Drain(c, order) => if CanDrain(w, c, order) { StreamDrainKeeps(policy, w, c, order); }
      case Receive(c) => if InPhase(w, c, Subscribed) && w.clients[c].mailbox != [] { ReceiveKeeps(w, c); }
      case Fetch(c, r, sd, order) => if CanFetch(w, c, r, sd, order) { DrainKeeps(w, c, r, sd, order, Client(r, sd, Closed, [], [])); }
      case Tick(t) => if t >= w.db.now { GoneKeeps(w, Advance(w.db, t), Expired); }
      case Flush => GoneKeeps(w, FlushDB(w.db), Flushed);
      case _ => OthersKeep(policy, w, s);
    }
  }

  // ---- Uploads reach every spelling, and nothing is lost on the way ----

  /** The upload has queued its message for spelling `t`. */
  predicate QueuedFor(up: Upload, t: string) {
    t in up.served || (up.queued && up.todo != [] && t == up.todo[0])
  }

  ghost predicate UploadOk(w: World, u: nat) {
    u in w.uploads ==>
      var up := w.uploads[u];
      && up.served + up.todo == Spellings(up.recipient)
      && (up.m.sender != "" ==> forall t :: QueuedFor(up, t) ==> up.m in At(w, InboxName(t, up.m.sender)).pushed)
  }

  lemma HistoryGrows(policy: TtlPolicy, w: World, s: Step, k: string)
    ensures At(w, k).pushed <= At(Apply(policy, w, s), k).pushed
    ensures At(w, k).fate <= At(Apply(policy, w, s), k).fate
  {
  }

  ghost predicate HistoriesGrow(w: World, after: World) {
    forall k :: At(w, k).pushed <= At(after, k).pushed
  }

  lemma UploadStays(w: World, after: World, u: nat)
    requires UploadOk(w, u) && HistoriesGrow(w, after)
    requires u in after.uploads ==> u in w.uploads && after.uploads[u] == w.uploads[u]
    ensures UploadOk(after, u)
  {
    if u in after.uploads {
      var up := after.uploads[u];
      forall t | up.m.sender != "" && QueuedFor(up, t) ensures up.m in At(after, InboxName(t, up.m.sender)).pushed {
        var k := InboxName(t, up.m.sender);
        assert up.m in At(w, k).pushed && At(w, k).pushed <= At(after, k).pushed;
      }
    }
  }

  lemma UploadQueues(w: World, u: nat)
    requires UploadOk(w, u) && Busy(w, u, false)
    ensures UploadOk(QueueStep(w, u), u)
  {
    var up, after := w.uploads[u], QueueStep(w, u);
    forall t | up.m.sender != "" && QueuedFor(after.uploads[u], t)
      ensures up.m in At(after, InboxName(t, up.m.sender)).pushed
    {
      if t in up.served {
        assert QueuedFor(up, t);
      }
    }
  }

  lemma UploadPublishes(w: World, u: nat)
    requires UploadOk(w, u) && Busy(w, u, true)
    ensures UploadOk(PublishStep(w, u), u)
  {
    var up, after := w.uploads[u], PublishStep(w, u);
    assert up.todo == [up.todo[0]] + up.todo[1..];
    assert up.served + [up.todo[0]] + up.todo[1..] == up.served + up.todo;
    forall t | up.m.sender != "" && QueuedFor(after.uploads[u], t)
      ensures up.m in At(after, InboxName(t, up.m.sender)).pushed
    {
      assert QueuedFor(up, t);
    }
  }

  lemma UploadOthers(policy: TtlPolicy, w: World, s: Step, u: nat)
    requires UploadOk(w, u) && !((s.Post? || s.Queue? || s.Publish?) && s.u == u)
    ensures UploadOk(Apply(policy, w, s), u)
  {
    forall k ensures At(w, k).pushed <= At(Apply(policy, w, s), k).pushed {
      HistoryGrows(policy, w, s, k);
    }
    UploadStays(w, Apply(policy, w, s), u);
  }

  lemma UploadStep(policy: TtlPolicy, w: World, s: Step, u: nat)
    requires UploadOk(w, u)
    ensures UploadOk(Apply(policy, w, s), u)
  {
    if s.Queue? && s.u == u {
      if Busy(w, u, false) { UploadQueues(w, u); }
    } else if s.Publish? && s.u == u {
      if Busy(w, u, true) { UploadPublishes(w, u); }
    } else if !(s.Post? && s.u == u) {
      UploadOthers(policy, w, s, u);
    }
  }

  /** The upload alone to its end: queue and publish for one spelling after the other. */
  function FinishUpload(w: World, u: nat): World
    requires u in w.uploads && !w.uploads[u].queued
    decreases |if u in w.uploads then w.uploads[u].todo else []|
  {
    if w.uploads[u].todo == [] then w else FinishUpload(PublishStep(QueueStep(w, u), u), u)
  }

  /** What a client receives of some published events. */
  function HeardOf(client: Client, events: seq<(string, Envelope)>): seq<Envelope> {
    if events == [] then []
    else (if Listening(client, events[0].0) then [events[0].1] else []) + HeardOf(client, events[1..])
  }

  /** The clients, each with what it receives of these events in its mailbox. */
  function AllHeard(clients: map<nat, Client>, events: seq<(string, Envelope)>): map<nat, Client> {
    map c | c in clients :: clients[c].(mailbox := clients[c].mailbox + HeardOf(clients[c], events))
  }

  lemma HeardOfCons(client: Client, t: string, m: Envelope, events: seq<(string, Envelope)>)
    ensures HeardOf(client, [(t, m)] + events) == HeardOf(client, [(t, m)]) + HeardOf(client, events)
  {
    var first := if Listening(client, t) then [m] else [];
    assert ([(t, m)] + events)[1..] == events && [(t, m)][1..] == [];
    assert HeardOf(client, [(t, m)]) == first + [] == first;
  }

  lemma HeardOfMore(clients: map<nat, Client>, t: string, m: Envelope, events: seq<(string, Envelope)>)
    ensures AllHeard(AllHeard(clients, [(t, m)]), events) == AllHeard(clients, [(t, m)] + events)
  {
    forall c | c in clients
      ensures AllHeard(AllHeard(clients, [(t, m)]), events)[c] == AllHeard(clients, [(t, m)] + events)[c]
    {
      var client := clients[c];
      var first := HeardOf(client, [(t, m)]);
      SameEars(client, client.(mailbox := client.mailbox + first), events);
      HeardOfCons(client, t, m, events);
      Associative(client.mailbox, first, HeardOf(client, events));
    }
  }

  lemma {:induction false} SameEars(a: Client, b: Client, events: seq<(string, Envelope)>)
    requires a.phase == b.phase && a.handle == b.handle
    ensures HeardOf(a, events) == HeardOf(b, events)
  {
    if events != [] {
      SameEars(a, b, events[1..]);
    }
  }

  lemma PublishHeard(w: World, u: nat)
    requires u in w.uploads && w.uploads[u].todo != []
    ensures PublishStep(w, u).clients == AllHeard(w.clients, [(w.uploads[u].todo[0], w.uploads[u].m)])
  {
    var t, m := w.uploads[u].todo[0], w.uploads[u].m;
    forall c | c in w.clients ensures HeardOf(w.clients[c], [(t, m)]) == if Listening(w.clients[c], t) then [m] else [] {
    }
    forall c | c in w.clients ensures w.clients[c].mailbox + [] == w.clients[c].mailbox {
    }
  }

  lemma NothingHeard(clients: map<nat, Client>)
    ensures AllHeard(clients, []) == clients
  {
    forall c | c in clients ensures clients[c].mailbox + [] == clients[c].mailbox {
    }
  }

  lemma {:induction false} UploadHeard(w: World, u: nat)
    requires u in w.uploads && !w.uploads[u].queued
    ensures var up, end := w.uploads[u], FinishUpload(w, u);
            && end.clients == AllHeard(w.clients, Announced(up.todo, up.m))
            && end.uploads == w.uploads[u := up.(served := up.served + up.todo, todo := [])]
    decreases |w.uploads[u].todo|
  {
    var up := w.uploads[u];
    if up.todo == [] {
      assert up.served + [] == up.served && Announced([], up.m) == [];
      NothingHeard(w.clients);
    } else {
      var t, rest, next := up.todo[0], up.todo[1..], PublishStep(QueueStep(w, u), u);
      PublishHeard(QueueStep(w, u), u);
      assert next.uploads == w.uploads[u := up.(served := up.served + [t], todo := rest, queued := false)];
      UploadHeard(next, u);
      AnnouncedCons(up.served, up.todo, up.m);
      HeardOfMore(w.clients, t, up.m, Announced(rest, up.m));
    }
  }

  lemma AnnouncedCons(served: seq<string>, todo: seq<string>, m: Envelope)
    requires todo != []
    ensures served + [todo[0]] + todo[1..] == served + todo
    ensures Announced(todo, m) == [(todo[0], m)] + Announced(todo[1..], m)
  {
  }

  lemma {:induction false} UploadStored(start: Db, w: World, u: nat)
    requires u in w.uploads && !w.uploads[u].queued
    requires var up := w.uploads[u]; w.db == FanOut(start, up.served, up.m.sender, up.m, up.ttl)
    ensures var up := w.uploads[u];
            FinishUpload(w, u).db == FanOut(start, up.served + up.todo, up.m.sender, up.m, up.ttl)
    decreases |w.uploads[u].todo|
  {
    var up := w.uploads[u];
    if up.todo == [] {
      assert up.served + [] == up.served;
    } else {
      var t, next := up.todo[0], PublishStep(QueueStep(w, u), u);
      ServeOne(start, up.served, t, up.m.sender, up.m, up.ttl);
      assert next.uploads[u] == up.(served := up.served + [t], todo := up.todo[1..], queued := false);
      UploadStored(start, next, u);
      assert up.served + [t] + up.todo[1..] == up.served + up.todo;
    }
  }

  /** What it does to the store is the fan-out of the whole-operation layer, and what it does to the clients is
      what they hear of the events that layer announces. */
  lemma UploadAlone(w: World, u: nat)
    requires u in w.uploads && !w.uploads[u].queued && w.uploads[u].served == []
    ensures var up, end := w.uploads[u], FinishUpload(w, u);
            && end.db == FanOut(w.db, up.todo, up.m.sender, up.m, up.ttl)
            && end.clients == AllHeard(w.clients, Announced(up.todo, up.m))
            && end.uploads == w.uploads[u := up.(served := up.todo, todo := [])]
  {
    var up := w.uploads[u];
    UploadStored(w.db, w, u);
    UploadHeard(w, u);
    assert [] + up.todo == up.todo;
  }

  /** The steps that finish an upload, when nobody interrupts. */
  function UploadSteps(u: nat, n: nat): seq<Step> {
    if n == 0 then [] else [Queue(u), Publish(u)] + UploadSteps(u, n - 1)
  }

  lemma {:induction false} FinishIsRun(policy: TtlPolicy, w: World, u: nat)
    requires u in w.uploads && !w.uploads[u].queued
    ensures Run(policy, w, UploadSteps(u, |w.uploads[u].todo|)) == FinishUpload(w, u)
    decreases |w.uploads[u].todo|
  {
    var n := |w.uploads[u].todo|;
    if n > 0 {
      var ss := UploadSteps(u, n);
      assert ss[1..][1..] == UploadSteps(u, n - 1);
      var w1, w2 := QueueStep(w, u), PublishStep(QueueStep(w, u), u);
      assert Apply(policy, w, Queue(u)) == w1 && Apply(policy, w1, Publish(u)) == w2;
      FinishIsRun(policy, w2, u);
      assert Run(policy, w1, ss[1..]) == Run(policy, w2, ss[1..][1..]);
    }
  }

  // ---- What a stream writes ----

  /** One letter is the other, or its capital or small form. */
  predicate SameLetter(a: char, b: char) {
    || a == b
    || ('a' <= a <= 'z' && b as int == a as int - 32)
    || ('a' <= b <= 'z' && a as int == b as int - 32)
  }

  predicate SameLetters(a: string, b: string) {
    |a| == |b| && forall i :: 0 <= i < |a| ==> SameLetter(a[i], b[i])
  }

  lemma EqualFoldIs(a: string, b: string)
    ensures EqualFold(a, b) <==> SameLetters(a, b)
  {
    if EqualFold(a, b) {
      forall i | 0 <= i < |a| ensures SameLetter(a[i], b[i]) {
        assert UpperChar(a[i]) == ToUpper(a)[i] == ToUpper(b)[i] == UpperChar(b[i]);
      }
    }
    if SameLetters(a, b) {
      forall i | 0 <= i < |a| ensures ToUpper(a)[i] == ToUpper(b)[i] {
        assert SameLetter(a[i], b[i]);
      }
    }
  }

  /** A stream that receives takes one published message off its mailbox. It writes it, unless it filters for a sender
      and the message names another one, letter by letter and ignoring case; nobody else writes anything. */
  lemma ReceiveWrites(policy: TtlPolicy, w: World, c: nat)
    requires InPhase(w, c, Subscribed) && w.clients[c].mailbox != []
    ensures var client, m, after := w.clients[c], w.clients[c].mailbox[0], Apply(policy, w, Receive(c));
            && after.clients.Keys == w.clients.Keys && (forall d :: d in w.clients && d != c ==> after.clients[d] == w.clients[d])
            && after.clients[c].mailbox == client.mailbox[1..]
            && after.clients[c].written == client.written +
                 (if client.with == "" || m.sender == "" || SameLetters(m.sender, client.with) then [m] else [])
  {
    var client, m := w.clients[c], w.clients[c].mailbox[0];
    EqualFoldIs(m.sender, client.with);
    assert client.written + [] == client.written;
  }

  // ---- Exactly when a queued message is discarded ----

  /** A stream with that filter writes this message when it receives it. */
  predicate Shows(with: string, m: Envelope) {
    with == "" || m.sender == "" || EqualFold(m.sender, with)
  }

  /** The step is a stream with a filter receiving a message that passes it, from a named sender, while
      something is queued from the sender it filters for. */
  predicate Discards(w: World, s: Step, k: string) {
    && s.Receive? && InPhase(w, s.c, Subscribed) && w.clients[s.c].mailbox != []
    && w.clients[s.c].with != "" && w.clients[s.c].mailbox[0].sender != ""
    && Shows(w.clients[s.c].with, w.clients[s.c].mailbox[0])
    && k == InboxName(w.clients[s.c].handle, w.clients[s.c].with) && k in w.db.lists
  }

  predicate NewlyDiscarded(before: Track, after: Track) {
    exists i :: |before.fate| <= i < |after.fate| && after.fate[i].Discarded?
  }

  lemma ListIsQueue(w: World, k: string)
    requires QueuesOk(w)
    ensures k in w.db.lists <==> |At(w, k).fate| < |At(w, k).pushed|
  {
    assert TrackOk(LRange(w.db, k), At(w, k), w.clients);
  }

  lemma ReceiveDiscardsIff(policy: TtlPolicy, w: World, c: nat, k: string)
    requires QueuesOk(w)
    ensures var t, t' := At(w, k), At(Apply(policy, w, Receive(c)), k);
            && (NewlyDiscarded(t, t') <==> Discards(w, Receive(c), k))
            && (Discards(w, Receive(c), k) ==> t' == Gone(t, Discarded(c)))
  {
    var t, t' := At(w, k), At(Apply(policy, w, Receive(c)), k);
    ListIsQueue(w, k);
    if Discards(w, Receive(c), k) {
      assert t' == Gone(t, Discarded(c)) && t'.fate[|t.fate|] == Discarded(c);
    } else {
      assert t' == t;
    }
  }

  /** Messages of a queue are discarded by a step if and only if it is such a step, and then all that were left
      in it are. */
  lemma DiscardsIff(policy: TtlPolicy, w: World, s: Step, k: string)
    requires QueuesOk(w)
    ensures NewlyDiscarded(At(w, k), At(Apply(policy, w, s), k)) <==> Discards(w, s, k)
    ensures Discards(w, s, k) ==> At(Apply(policy, w, s), k) == Gone(At(w, k), Discarded(s.c))
  {
    if s.Receive? {
      ReceiveDiscardsIff(policy, w, s.c, k);
    } else {
      OthersDiscardNothing(policy, w, s, k);
    }
  }

  lemma OthersDiscardNothing(policy: TtlPolicy, w: World, s: Step, k: string)
    requires QueuesOk(w) && !s.Receive?
    ensures !NewlyDiscarded(At(w, k), At(Apply(policy, w, s), k))
  {
    var t, t' := At(w, k), At(Apply(policy, w, s), k);
    if s.Drain? || s.Fetch? {
      assert t'.fate == t.fate || t' == Gone(t, Written(s.c));
    } else if s.Tick? || s.Flush? {
      assert t' == t || t' == Gone(t, Expired) || t' == Gone(t, Flushed);
    } else {
      assert t'.fate == t.fate;
    }
  }

  ghost predicate NothingDiscarded(w: World, k: string) {
    forall i :: 0 <= i < |At(w, k).fate| ==> !At(w, k).fate[i].Discarded?
  }

  lemma NothingDiscardedStep(policy: TtlPolicy, w: World, s: Step, k: string)
    requires QueuesOk(w)
    ensures NothingDiscarded(Apply(policy, w, s), k) <==> NothingDiscarded(w, k) && !Discards(w, s, k)
  {
    DiscardsIff(policy, w, s, k);
    HistoryGrows(policy, w, s, k);
    var t, t' := At(w, k), At(Apply(policy, w, s), k);
    assert forall i :: 0 <= i < |t.fate| ==> t'.fate[i] == t.fate[i];
    if Discards(w, s, k) {
      ListIsQueue(w, k);
      assert t'.fate[|t.fate|] == Discarded(s.c);
    }
  }

  /** Some step of the run discards from `k`. */
  ghost predicate Discarding(policy: TtlPolicy, w: World, ss: seq<Step>, k: string)
    decreases ss
  {
    ss != [] && (Discards(w, ss[0], k) || Discarding(policy, Apply(policy, w, ss[0]), ss[1..], k))
  }

  /** No stream has a `with` filter. (A finished inbox response keeps its sender here, but discards nothing.) */
  predicate Unfiltered(w: World) {
    forall c :: c in w.clients && w.clients[c].phase != Closed ==> w.clients[c].with == ""
  }

  lemma UnfilteredStep(policy: TtlPolicy, w: World, s: Step)
    requires Unfiltered(w) && (s.Connect? ==> s.with == "")
    ensures Unfiltered(Apply(policy, w, s))
  {
  }

  ghost predicate Sane(policy: TtlPolicy, w: World) {
    && QueuesOk(w) && UploadsTimed(policy, w)
    && forall u :: UploadOk(w, u)
  }

  lemma SaneStep(policy: TtlPolicy, w: World, s: Step)
    requires policy.Valid() && Sane(policy, w)
    ensures Sane(policy, Apply(policy, w, s))
  {
    StepKeeps(policy, w, s);
    TimedKept(policy, w, s);
    forall u ensures UploadOk(Apply(policy, w, s), u) { UploadStep(policy, w, s, u); }
  }

  lemma {:induction false} RunKeeps(policy: TtlPolicy, w: World, ss: seq<Step>)
    requires policy.Valid() && Sane(policy, w)
    ensures Sane(policy, Run(policy, w, ss))
    decreases ss
  {
    if ss != [] {
      SaneStep(policy, w, ss[0]);
      RunKeeps(policy, Apply(policy, w, ss[0]), ss[1..]);
    }
  }

  predicate SomeFilter(ss: seq<Step>) {
    exists s :: s in ss && s.Connect? && s.with != ""
  }

  lemma {:induction false} NoFilterNoDiscards(policy: TtlPolicy, w: World, ss: seq<Step>, k: string)
    requires Unfiltered(w) && !SomeFilter(ss)
    ensures !Discarding(policy, w, ss, k)
    decreases ss
  {
    if ss != [] {
      assert ss[0] in ss && forall s :: s in ss[1..] ==> s in ss;
      UnfilteredStep(policy, w, ss[0]);
      NoFilterNoDiscards(policy, Apply(policy, w, ss[0]), ss[1..], k);
    }
  }

  /** Over a whole run: something of `k` is discarded if and only if some step of the run discards. */
  lemma {:induction false} RunDiscardsIff(policy: TtlPolicy, w: World, ss: seq<Step>, k: string)
    requires policy.Valid() && Sane(policy, w)
    ensures NothingDiscarded(Run(policy, w, ss), k) <==> NothingDiscarded(w, k) && !Discarding(policy, w, ss, k)
    decreases ss
  {
    if ss != [] {
      NothingDiscardedStep(policy, w, ss[0], k);
      SaneStep(policy, w, ss[0]);
      RunDiscardsIff(policy, Apply(policy, w, ss[0]), ss[1..], k);
    }
  }

  /** Message `m` is position `i` of the history of `k`: still queued, or written to a client, or it expired
      or was flushed; or, if `discards`, a filtered stream discarded it. */
  ghost predicate Accounted(w: World, k: string, i: nat, m: Envelope, discards: bool) {
    var t := At(w, k);
    && i < |t.pushed| && t.pushed[i] == m
    && if i >= |t.fate| then m in LRange(w.db, k)
       else match t.fate[i]
            case Written(c) => c in w.clients && m in w.clients[c].written
            case Discarded(_) => discards
            case Expired => true
            case Flushed => true
  }

  /** At every moment of every run, and however publishing, subscribing and draining interleave: a message is
      accounted for in the inbox of every spelling its upload has reached. Unless some step of the run
      discarded from that inbox, it is still queued there or some client has it, short of expiry and flushes. */
  lemma NothingLost(policy: TtlPolicy, ss: seq<Step>, u: nat, t: string)
    requires policy.Valid() && u in Run(policy, START, ss).uploads
    requires Run(policy, START, ss).uploads[u].m.sender != "" && QueuedFor(Run(policy, START, ss).uploads[u], t)
    ensures var w := Run(policy, START, ss);
            var m := w.uploads[u].m;
            exists i :: Accounted(w, InboxName(t, m.sender), i, m, Discarding(policy, START, ss, InboxName(t, m.sender)))
  {
    RunKeeps(policy, START, ss);
    var w := Run(policy, START, ss);
    var m := w.uploads[u].m;
    var k := InboxName(t, m.sender);
    assert UploadOk(w, u);
    assert TrackOk(LRange(w.db, k), At(w, k), w.clients);
    var i :| 0 <= i < |At(w, k).pushed| && At(w, k).pushed[i] == m;
    RunDiscardsIff(policy, START, ss, k);
    if i < |At(w, k).fate| {
      assert FateOk(At(w, k).fate[i], m, w.clients);
    } else {
      assert LRange(w.db, k)[i - |At(w, k).fate|] == m;
    }
    assert Accounted(w, k, i, m, Discarding(policy, START, ss, k));
  }

  /** End to end: once the upload is through, that holds for the inbox of every spelling of the recipient. */
  lemma EndToEnd(policy: TtlPolicy, ss: seq<Step>, u: nat, h: string)
    requires policy.Valid() && u in Run(policy, START, ss).uploads && !SomeFilter(ss)
    requires var up := Run(policy, START, ss).uploads[u];
             up.m.sender != "" && up.todo == [] && h in Variants(up.recipient)
    ensures var w := Run(policy, START, ss);
            exists i :: Accounted(w, InboxName(h, w.uploads[u].m.sender), i, w.uploads[u].m, false)
  {
    RunKeeps(policy, START, ss);
    assert UploadOk(Run(policy, START, ss), u);
    NothingLost(policy, ss, u, h);
    NoFilterNoDiscards(policy, START, ss, InboxName(h, Run(policy, START, ss).uploads[u].m.sender));
  }

  // ---- A subscribed stream ----

  /** What a stream with that filter writes of the messages it receives. */
  function Shown(with: string, ms: seq<Envelope>): seq<Envelope> {
    if ms == [] then [] else (if Shows(with, ms[0]) then [ms[0]] else []) + Shown(with, ms[1..])
  }

  lemma {:induction false} ShownAppend(with: string, a: seq<Envelope>, b: seq<Envelope>)
    ensures Shown(with, a + b) == Shown(with, a) + Shown(with, b)
  {
    if a == [] {
      assert a + b == b;
    } else {
      HeadAndTail(a, b);
      ShownAppend(with, a[1..], b);
      Associative(if Shows(with, a[0]) then [a[0]] else [], Shown(with, a[1..]), Shown(with, b));
    }
  }

  predicate Hears(w: World, s: Step, c: nat) {
    s.Publish? && Busy(w, s.u, true) && c in w.clients && Listening(w.clients[c], w.uploads[s.u].todo[0])
  }

  /** What is published to `c` by one step, and during a run, on all its channels, in order. */
  function PublishedBy(w: World, s: Step, c: nat): seq<Envelope> {
    if Hears(w, s, c) then [w.uploads[s.u].m] else []
  }

  ghost function PublishedTo(policy: TtlPolicy, w: World, ss: seq<Step>, c: nat): seq<Envelope>
    decreases ss
  {
    if ss == [] then [] else PublishedBy(w, ss[0], c) + PublishedTo(policy, Apply(policy, w, ss[0]), ss[1..], c)
  }

  /** The stream has subscribed, or was closed since. */
  predicate Connected(w: World, c: nat) {
    InPhase(w, c, Subscribed) || InPhase(w, c, Closed)
  }

  /** What the client has written and what it still will of its mailbox. */
  function Output(client: Client): seq<Envelope> {
    client.written + Shown(client.with, client.mailbox)
  }

  lemma ReceiveOutput(w: World, c: nat)
    requires c in w.clients && w.clients[c].mailbox != []
    ensures Output(ReceiveStep(w, c).clients[c]) == Output(w.clients[c])
    ensures ReceiveStep(w, c).clients[c].with == w.clients[c].with
  {
    var before := w.clients[c];
    var shown := if Shows(before.with, before.mailbox[0]) then [before.mailbox[0]] else [];
    assert before.written + [] == before.written;
    assert ReceiveStep(w, c).clients[c].written == before.written + shown;
    Associative(before.written, shown, Shown(before.with, before.mailbox[1..]));
  }

  /** A step that is not a publication to `c` leaves the output of `c` as it was. */
  lemma QuietStep(policy: TtlPolicy, w: World, s: Step, c: nat)
    requires Connected(w, c) && !Hears(w, s, c)
    ensures var after := Apply(policy, w, s);
            Connected(after, c) && after.clients[c].with == w.clients[c].with && Output(after.clients[c]) == Output(w.clients[c])
  {
    if s.Receive? && InPhase(w, s.c, Subscribed) && w.clients[s.c].mailbox != [] {
      ReceiveOutput(w, s.c);
    }
  }

  lemma LiveStep(policy: TtlPolicy, w: World, s: Step, c: nat)
    requires Connected(w, c)
    ensures var after := Apply(policy, w, s);
            && Connected(after, c) && after.clients[c].with == w.clients[c].with
            && Output(after.clients[c]) == Output(w.clients[c]) + Shown(w.clients[c].with, PublishedBy(w, s, c))
  {
    if Hears(w, s, c) {
      ShownAppend(w.clients[c].with, w.clients[c].mailbox, PublishedBy(w, s, c));
    } else {
      QuietStep(policy, w, s, c);
    }
  }

  lemma JoinOutput(with: string, start: seq<Envelope>, a: seq<Envelope>, b: seq<Envelope>)
    ensures start + Shown(with, a) + Shown(with, b) == start + Shown(with, a + b)
  {
    ShownAppend(with, a, b);
  }

  /** From the moment it subscribes, a stream writes what is published to its channels, filtered, in order and
      without gaps, after what it had written before; the rest is waiting. */
  lemma {:induction false} LiveDelivery(policy: TtlPolicy, w: World, ss: seq<Step>, c: nat)
    requires Connected(w, c)
    ensures var end := Run(policy, w, ss);
            && Connected(end, c) && end.clients[c].with == w.clients[c].with
            && Output(end.clients[c]) == Output(w.clients[c]) + Shown(w.clients[c].with, PublishedTo(policy, w, ss, c))
    decreases ss
  {
    if ss != [] {
      var after := Apply(policy, w, ss[0]);
      LiveStep(policy, w, ss[0], c);
      LiveDelivery(policy, after, ss[1..], c);
      JoinOutput(w.clients[c].with, Output(w.clients[c]), PublishedBy(w, ss[0], c), PublishedTo(policy, after, ss[1..], c));
    }
  }

  // ---- How often a stream writes one upload ----

  /** The targets a stream listens on. */
  function Shared(client: Client, targets: seq<string>): seq<string> {
    if targets == [] then []
    else (if Listening(client, targets[0]) then [targets[0]] else []) + Shared(client, targets[1..])
  }

  function Times(n: nat, m: Envelope): seq<Envelope> {
    seq(n, i requires 0 <= i < n => m)
  }

  lemma {:induction false} HeardTimes(client: Client, targets: seq<string>, m: Envelope)
    ensures HeardOf(client, Announced(targets, m)) == Times(|Shared(client, targets)|, m)
  {
    if targets != [] {
      HeardTimes(client, targets[1..], m);
      assert Announced(targets, m)[1..] == Announced(targets[1..], m);
    }
  }

  lemma {:induction false} SharedIs(client: Client, targets: seq<string>)
    requires Distinct(targets)
    ensures Distinct(Shared(client, targets))
    ensures forall t :: t in Shared(client, targets) <==> t in targets && Listening(client, t)
  {
    if targets != [] {
      SharedIs(client, targets[1..]);
      assert targets[0] !in targets[1..];
      assert forall t :: t in targets <==> t == targets[0] || t in targets[1..];
    }
  }

  lemma {:induction false} ShownTimes(n: nat, m: Envelope)
    ensures Shown("", Times(n, m)) == Times(n, m)
    decreases n
  {
    if n > 0 {
      ShownTimes(n - 1, m);
      assert Times(n, m) == Times(n - 1, m) + [m];
      ShownAppend("", Times(n - 1, m), [m]);
      assert Shown("", [m]) == [m];
    }
  }

  /** One uninterrupted upload adds its message to the output of an open stream without a filter once for every
      spelling its recipient shares with the stream's handle: several times for one upload, as a rule, and for
      the stream's own handle as often as that has spellings. */
  lemma OncePerSharedSpelling(w: World, u: nat, c: nat)
    requires u in w.uploads && !w.uploads[u].queued && InPhase(w, c, Subscribed) && w.clients[c].with == ""
    requires w.uploads[u].served == [] && w.uploads[u].todo == Spellings(w.uploads[u].recipient)
    ensures var up, client := w.uploads[u], w.clients[c];
            var shared := Shared(client, Spellings(up.recipient));
            && c in FinishUpload(w, u).clients
            && Output(FinishUpload(w, u).clients[c]) == Output(client) + Times(|shared|, up.m)
            && Distinct(shared) && (forall t :: t in shared <==> t in Spellings(up.recipient) && t in Spellings(client.handle))
            && (up.recipient == client.handle ==> shared == Spellings(client.handle))
  {
    var up, client := w.uploads[u], w.clients[c];
    UploadAlone(w, u);
    HeardTimes(client, up.todo, up.m);
    SharedIs(client, up.todo);
    ShownTimes(|Shared(client, up.todo)|, up.m);
    ShownAppend("", client.mailbox, Times(|Shared(client, up.todo)|, up.m));
    if up.recipient == client.handle {
      AllShared(client, up.todo);
    }
  }

  lemma {:induction false} AllShared(client: Client, targets: seq<string>)
    requires forall t :: t in targets ==> Listening(client, t)
    ensures Shared(client, targets) == targets
  {
    if targets != [] {
      AllShared(client, targets[1..]);
    }
  }

  // ---- What a `with` filter costs ----

  lemma {:induction false} FateIsFinal(policy: TtlPolicy, w: World, ss: seq<Step>, k: string)
    ensures At(w, k).fate <= At(Run(policy, w, ss), k).fate
    decreases ss
  {
    if ss != [] {
      HistoryGrows(policy, w, ss[0], k);
      FateIsFinal(policy, Apply(policy, w, ss[0]), ss[1..], k);
    }
  }

  /** What client `c` has been written so far. */
  function Wrote(w: World, c: nat): seq<Envelope> {
    if c in w.clients then w.clients[c].written else []
  }

  lemma {:induction false} InShown(with: string, ms: seq<Envelope>, m: Envelope)
    ensures m in Shown(with, ms) <==> m in ms && Shows(with, m)
  {
    if ms != [] {
      InShown(with, ms[1..], m);
    }
  }

  /** The history of `k` and its queue agree. */
  predicate Suffix(w: World, k: string) {
    |At(w, k).fate| <= |At(w, k).pushed| && LRange(w.db, k) == At(w, k).pushed[|At(w, k).fate|..]
  }

  lemma DiscardedTrack(policy: TtlPolicy, w: World, s: Step, k: string)
    requires Discards(w, s, k)
    ensures At(Apply(policy, w, s), k) == if k in w.tracks then Gone(At(w, k), Discarded(s.c)) else At(w, k)
    ensures Connected(w, s.c) && Connected(Apply(policy, w, s), s.c)
    ensures Apply(policy, w, s).clients[s.c].with == w.clients[s.c].with
    ensures Output(Apply(policy, w, s).clients[s.c]) == Output(w.clients[s.c])
  {
    ReceiveOutput(w, s.c);
  }

  /** What becomes of each message that a filtered stream discards, in every run from there: in the queue it stays
      discarded, and the stream has it, written or about to be, exactly if it had it already, or the message
      is published to it later (and passes the filter). */
  lemma FilterDiscards(policy: TtlPolicy, w: World, s: Step, k: string, i: nat, ss: seq<Step>)
    requires Suffix(w, k) && Discards(w, s, k) && |At(w, k).fate| <= i < |At(w, k).pushed|
    ensures var m, with, after := At(w, k).pushed[i], w.clients[s.c].with, Apply(policy, w, s);
            var end := Run(policy, after, ss);
            && i < |At(end, k).fate| && At(end, k).fate[i] == Discarded(s.c)
            && Connected(end, s.c)
            && (m in Output(end.clients[s.c]) <==>
                m in Output(w.clients[s.c]) || (m in PublishedTo(policy, after, ss, s.c) && Shows(with, m)))
  {
    var m, with, after := At(w, k).pushed[i], w.clients[s.c].with, Apply(policy, w, s);
    DiscardedTrack(policy, w, s, k);
    FateIsFinal(policy, after, ss, k);
    LiveDelivery(policy, after, ss, s.c);
    InShown(with, PublishedTo(policy, after, ss, s.c), m);
  }

  function Receives(c: nat, n: nat): seq<Step> {
    if n == 0 then [] else [Receive(c)] + Receives(c, n - 1)
  }

  /** A stream that receives all it has waiting, and hears nothing new. */
  lemma {:induction false} ReceiveAll(policy: TtlPolicy, w: World, c: nat)
    requires InPhase(w, c, Subscribed)
    ensures var ss := Receives(c, |w.clients[c].mailbox|);
            && PublishedTo(policy, w, ss, c) == []
            && Wrote(Run(policy, w, ss), c) == Output(w.clients[c])
    decreases |w.clients[c].mailbox|
  {
    var n := |w.clients[c].mailbox|;
    if n == 0 {
      assert Shown(w.clients[c].with, []) == [];
    } else {
      var after := ReceiveStep(w, c);
      assert Apply(policy, w, Receive(c)) == after;
      ReceiveOutput(w, c);
      assert Receives(c, n)[1..] == Receives(c, n - 1);
      ReceiveAll(policy, after, c);
    }
  }

  /** A continuation in which the message, not published to the stream again, is not written to it either. */
  ghost predicate StaysUnwritten(policy: TtlPolicy, w: World, ss: seq<Step>, c: nat, m: Envelope) {
    m !in PublishedTo(policy, w, ss, c) ==> m !in Wrote(Run(policy, w, ss), c)
  }

  /** Exactly which of the messages a filtered stream discards are lost to it for good, short of being published
      again: those it had neither written nor waiting. */
  lemma NeverWrittenIff(policy: TtlPolicy, w: World, s: Step, k: string, i: nat)
    requires Suffix(w, k) && Discards(w, s, k) && |At(w, k).fate| <= i < |At(w, k).pushed|
    ensures var m, after := At(w, k).pushed[i], Apply(policy, w, s);
            (forall ss :: StaysUnwritten(policy, after, ss, s.c, m)) <==> m !in Output(w.clients[s.c])
  {
    var m, c, after := At(w, k).pushed[i], s.c, Apply(policy, w, s);
    DiscardedTrack(policy, w, s, k);
    if m in Output(w.clients[c]) {
      var ss := Receives(c, |after.clients[c].mailbox|);
      ReceiveAll(policy, after, c);
      assert !StaysUnwritten(policy, after, ss, c, m);
    } else {
      forall ss ensures StaysUnwritten(policy, after, ss, c, m) {
        FilterDiscards(policy, w, s, k, i, ss);
      }
    }
  }

  // ---- The gap between flushing and subscribing, for filtered streams ----

  /** Every upload of `m` is through. */
  predicate Unposted(w: World, m: Envelope) {
    forall u :: u in w.uploads && w.uploads[u].m == m ==> w.uploads[u].todo == []
  }

  predicate NoRepost(ss: seq<Step>, m: Envelope) {
    forall s :: s in ss ==> !(s.Post? && s.m == m)
  }

  lemma UnpostedStep(policy: TtlPolicy, w: World, s: Step, m: Envelope, c: nat)
    requires Unposted(w, m) && !(s.Post? && s.m == m)
    ensures Unposted(Apply(policy, w, s), m) && m !in PublishedBy(w, s, c)
  {
  }

  lemma {:induction false} NotPublished(policy: TtlPolicy, w: World, ss: seq<Step>, m: Envelope, c: nat)
    requires Unposted(w, m) && NoRepost(ss, m)
    ensures m !in PublishedTo(policy, w, ss, c)
    decreases ss
  {
    if ss != [] {
      assert ss[0] in ss && forall s :: s in ss[1..] ==> s in ss;
      UnpostedStep(policy, w, ss[0], m, c);
      NotPublished(policy, Apply(policy, w, ss[0]), ss[1..], m, c);
    }
  }

  /** Client `c` as it is, and the queue of `k` with its history. */
  ghost predicate Snapshot(w: World, c: nat, client: Client, k: string, pushed: seq<Envelope>, fate: seq<Fate>) {
    && c in w.clients && w.clients[c] == client
    && At(w, k).pushed == pushed && At(w, k).fate == fate && Suffix(w, k)
  }

  lemma QueueSnapshot(w: World, u: nat, c: nat, client: Client, h: string, pushed: seq<Envelope>, fate: seq<Fate>)
    requires Busy(w, u, false) && w.uploads[u].m.sender != ""
    requires Snapshot(w, c, client, InboxName(h, w.uploads[u].m.sender), pushed, fate)
    ensures var up := w.uploads[u];
            Snapshot(QueueStep(w, u), c, client, InboxName(h, up.m.sender),
                     pushed + (if up.todo[0] == h then [up.m] else []), fate)
  {
    var up := w.uploads[u];
    PushedQueue(w.db, up.todo[0], up.m.sender, up.m, up.ttl, InboxName(h, up.m.sender));
    InboxNamesDiffer(up.todo[0], up.m.sender, h, up.m.sender);
    assert pushed + [] == pushed;
  }

  /** An upload runs to its end while the stream is not subscribed: the stream hears nothing of it, and its
      inbox gets the message if its handle is one of the spellings. */
  lemma {:induction false} UnheardUpload(w: World, u: nat, c: nat, client: Client, pushed: seq<Envelope>, fate: seq<Fate>)
    requires u in w.uploads && !w.uploads[u].queued && w.uploads[u].m.sender != "" && Distinct(w.uploads[u].todo)
    requires client.phase != Subscribed
    requires Snapshot(w, c, client, InboxName(client.handle, w.uploads[u].m.sender), pushed, fate)
    ensures var up := w.uploads[u];
            Snapshot(FinishUpload(w, u), c, client, InboxName(client.handle, up.m.sender),
                     pushed + (if client.handle in up.todo then [up.m] else []), fate)
    decreases |w.uploads[u].todo|
  {
    var up := w.uploads[u];
    if up.todo == [] {
      assert pushed + [] == pushed;
    } else {
      var t, rest, mid := up.todo[0], up.todo[1..], QueueStep(w, u);
      QueueSnapshot(w, u, c, client, client.handle, pushed, fate);
      var pushed' := pushed + if t == client.handle then [up.m] else [];
      var next := PublishStep(mid, u);
      assert next.uploads[u] == up.(served := up.served + [t], todo := rest, queued := false);
      assert up.todo == [t] + rest && t !in rest;
      UnheardUpload(next, u, c, client, pushed', fate);
      assert pushed' + [] == pushed' && pushed + [] == pushed;
    }
  }

  /** A whole upload of `m` for `r`, and the first three steps of one: it serves the recipient as spelled. */
  ghost function WholeUpload(policy: TtlPolicy, w: World, u: nat, r: string, m: Envelope): World
    requires u !in w.uploads && r != ""
  {
    FinishUpload(Apply(policy, w, Post(u, r, m, None)), u)
  }

  ghost function HeadUpload(policy: TtlPolicy, w: World, u: nat, h: string, m: Envelope): World {
    Apply(policy, Apply(policy, Apply(policy, w, Post(u, h, m, None)), Queue(u)), Publish(u))
  }

  lemma WholeSnapshot(policy: TtlPolicy, w: World, u: nat, r: string, m: Envelope, c: nat, client: Client,
                      pushed: seq<Envelope>, fate: seq<Fate>)
    requires u !in w.uploads && r != "" && m.sender != "" && client.handle in Spellings(r) && client.phase != Subscribed
    requires Snapshot(w, c, client, InboxName(client.handle, m.sender), pushed, fate) && Unposted(w, m)
    ensures var end := WholeUpload(policy, w, u, r, m);
            && Snapshot(end, c, client, InboxName(client.handle, m.sender), pushed + [m], fate)
            && end.uploads.Keys == w.uploads.Keys + {u} && Unposted(end, m)
  {
    var w1 := Apply(policy, w, Post(u, r, m, None));
    UnheardUpload(w1, u, c, client, pushed, fate);
    WholeUnposted(policy, w, u, r, m);
  }

  lemma WholeUnposted(policy: TtlPolicy, w: World, u: nat, r: string, m: Envelope)
    requires u !in w.uploads && r != "" && Unposted(w, m)
    ensures var end := WholeUpload(policy, w, u, r, m);
            end.uploads.Keys == w.uploads.Keys + {u} && Unposted(end, m)
  {
    UploadHeard(Apply(policy, w, Post(u, r, m, None)), u);
  }

  lemma HeadSpelling(h: string)
    ensures Spellings(h) != [] && Spellings(h)[0] == h
  {
    HeadOfDedup(Variants(h));
  }

  lemma {:induction false} HeadOfDedup(xs: seq<string>)
    requires xs != []
    ensures Dedup(xs) != [] && Dedup(xs)[0] == xs[0]
  {
    if |xs| > 1 {
      HeadOfDedup(xs[..|xs| - 1]);
    } else {
      assert Dedup(xs[..0]) == [];
    }
  }

  lemma HeadSnapshot(policy: TtlPolicy, w: World, u: nat, c: nat, m: Envelope, client: Client, pushed: seq<Envelope>, fate: seq<Fate>)
    requires Snapshot(w, c, client, InboxName(client.handle, m.sender), pushed, fate)
    requires u !in w.uploads && client.handle != "" && m.sender != "" && client.phase == Subscribed
    ensures Snapshot(HeadUpload(policy, w, u, client.handle, m), c, client.(mailbox := client.mailbox + [m]),
                     InboxName(client.handle, m.sender), pushed + [m], fate)
  {
    HeadSpelling(client.handle);
    var w1 := Apply(policy, w, Post(u, client.handle, m, None));
    QueueSnapshot(w1, u, c, client, client.handle, pushed, fate);
    assert Apply(policy, w1, Queue(u)) == QueueStep(w1, u);
  }

  lemma HeadUnposted(policy: TtlPolicy, w: World, u: nat, h: string, m: Envelope, x: Envelope)
    requires Unposted(w, x) && m != x
    ensures Unposted(HeadUpload(policy, w, u, h, m), x)
  {
    var w1 := Apply(policy, w, Post(u, h, m, None));
    UnpostedStep(policy, w, Post(u, h, m, None), x, 0);
    UnpostedStep(policy, w1, Queue(u), x, 0);
    UnpostedStep(policy, Apply(policy, w1, Queue(u)), Publish(u), x, 0);
  }

  lemma SubscribeSnapshot(policy: TtlPolicy, w: World, c: nat, client: Client, k: string, pushed: seq<Envelope>, fate: seq<Fate>)
    requires Snapshot(w, c, client, k, pushed, fate) && client.phase == Drained
    ensures Snapshot(Apply(policy, w, Subscribe(c)), c, client.(phase := Subscribed), k, pushed, fate)
    ensures Apply(policy, w, Subscribe(c)).uploads == w.uploads
  {
  }

  /** A stream that has flushed and not yet subscribed; a message is uploaded for it, to the end; it subscribes; and
      the next message from the same sender is published to it. */
  ghost function InTheGap(policy: TtlPolicy, w: World, c: nat, u: nat, r: string, first: Envelope, v: nat, h: string,
                          second: Envelope): World
    requires u !in w.uploads && r != ""
  {
    HeadUpload(policy, Apply(policy, WholeUpload(policy, w, u, r, first), Subscribe(c)), v, h, second)
  }

  lemma GapSnapshot(policy: TtlPolicy, w: World, c: nat, client: Client, u: nat, r: string, first: Envelope, v: nat,
                    second: Envelope, pushed: seq<Envelope>, fate: seq<Fate>)
    requires client.phase == Drained && client.mailbox == [] && client.handle != "" && client.with != ""
    requires first.sender == client.with && second.sender == client.with && first != second
    requires u !in w.uploads && v !in w.uploads && u != v && client.handle in Spellings(r) && r != ""
    requires Snapshot(w, c, client, InboxName(client.handle, client.with), pushed, fate) && Unposted(w, first)
    ensures var w3 := InTheGap(policy, w, c, u, r, first, v, client.handle, second);
            && Snapshot(w3, c, client.(phase := Subscribed, mailbox := [second]),
                        InboxName(client.handle, client.with), pushed + [first] + [second], fate)
            && Unposted(w3, first)
  {
    WholeSnapshot(policy, w, u, r, first, c, client, pushed, fate);
    var w1 := WholeUpload(policy, w, u, r, first);
    GapCloses(policy, w1, c, client, v, first, second, pushed + [first], fate);
  }

  lemma GapCloses(policy: TtlPolicy, w: World, c: nat, client: Client, v: nat, first: Envelope, second: Envelope,
                  pushed: seq<Envelope>, fate: seq<Fate>)
    requires client.phase == Drained && client.mailbox == [] && client.handle != "" && client.with != ""
    requires second.sender == client.with && first != second && v !in w.uploads && Unposted(w, first)
    requires Snapshot(w, c, client, InboxName(client.handle, client.with), pushed, fate)
    ensures var end := HeadUpload(policy, Apply(policy, w, Subscribe(c)), v, client.handle, second);
            && Snapshot(end, c, client.(phase := Subscribed, mailbox := [second]),
                        InboxName(client.handle, client.with), pushed + [second], fate)
            && Unposted(end, first)
  {
    var k, live := InboxName(client.handle, client.with), client.(phase := Subscribed);
    SubscribeSnapshot(policy, w, c, client, k, pushed, fate);
    var next := Apply(policy, w, Subscribe(c));
    HeadSnapshot(policy, next, v, c, second, live, pushed, fate);
    HeadUnposted(policy, next, v, client.handle, second, first);
    assert live.mailbox + [second] == [second];
  }

  /** The gap is real for filtered streams. Wherever such a stream has flushed and not yet subscribed, a message that
      is uploaded for it now, to the end, is discarded when the next one from its sender is received, and
      never written to the stream in any run from there in which nobody uploads it again. */
  lemma GapLoses(policy: TtlPolicy, w: World, c: nat, client: Client, u: nat, r: string, first: Envelope, v: nat,
                 second: Envelope, pushed: seq<Envelope>, fate: seq<Fate>, ss: seq<Step>)
    requires client.phase == Drained && client.mailbox == [] && client.handle != "" && client.with != ""
    requires first.sender == client.with && second.sender == client.with && first != second && first !in client.written
    requires u !in w.uploads && v !in w.uploads && u != v && client.handle in Spellings(r) && r != ""
    requires Snapshot(w, c, client, InboxName(client.handle, client.with), pushed, fate) && Unposted(w, first)
    requires NoRepost(ss, first)
    ensures var k, w3 := InboxName(client.handle, client.with), InTheGap(policy, w, c, u, r, first, v, client.handle, second);
            var end := Run(policy, Apply(policy, w3, Receive(c)), ss);
            && |pushed| < |At(end, k).fate| && At(end, k).fate[|pushed|] == Discarded(c)
            && |pushed| < |At(end, k).pushed| && At(end, k).pushed[|pushed|] == first
            && first !in Wrote(end, c)
  {
    var k, w3 := InboxName(client.handle, client.with), InTheGap(policy, w, c, u, r, first, v, client.handle, second);
    GapSnapshot(policy, w, c, client, u, r, first, v, second, pushed, fate);
    GapEnds(policy, w3, c, client.(phase := Subscribed, mailbox := [second]), pushed + [first] + [second], fate, |pushed|, ss);
  }

  lemma GapEnds(policy: TtlPolicy, w: World, c: nat, client: Client, pushed: seq<Envelope>, fate: seq<Fate>, i: nat, ss: seq<Step>)
    requires client.phase == Subscribed && client.with != "" && |client.mailbox| == 1 && client.mailbox[0].sender == client.with
    requires Snapshot(w, c, client, InboxName(client.handle, client.with), pushed, fate) && |fate| <= i < |pushed|
    requires pushed[i] !in client.written && pushed[i] !in client.mailbox && Unposted(w, pushed[i]) && NoRepost(ss, pushed[i])
    ensures var k, end := InboxName(client.handle, client.with), Run(policy, Apply(policy, w, Receive(c)), ss);
            && i < |At(end, k).fate| && At(end, k).fate[i] == Discarded(c)
            && i < |At(end, k).pushed| && At(end, k).pushed[i] == pushed[i]
            && pushed[i] !in Wrote(end, c)
  {
    var k, m := InboxName(client.handle, client.with), pushed[i];
    var after := Apply(policy, w, Receive(c));
    assert Discards(w, Receive(c), k);
    InShown(client.with, client.mailbox, m);
    FilterDiscards(policy, w, Receive(c), k, i, ss);
    UnpostedStep(policy, w, Receive(c), m, c);
    NotPublished(policy, after, ss, m, c);
    HistoryGrows(policy, w, Receive(c), k);
    HistoryOnlyGrows(policy, after, ss, k);
  }

  lemma {:induction false} HistoryOnlyGrows(policy: TtlPolicy, w: World, ss: seq<Step>, k: string)
    ensures At(w, k).pushed <= At(Run(policy, w, ss), k).pushed
    decreases ss
  {
    if ss != [] {
      HistoryGrows(policy, w, ss[0], k);
      HistoryOnlyGrows(policy, Apply(policy, w, ss[0]), ss[1..], k);
    }
  }

  // ---- Deadlines ----

  ghost predicate TimedOk(policy: TtlPolicy, w: World, k: string) {
    k in w.db.lists ==>
      var t, d := At(w, k), w.db.lists[k].deadline;
      d.Some? && t.last + policy.min <= d.value <= t.last + policy.max && t.last <= w.db.now
  }

  lemma TimedKeep(policy: TtlPolicy, w: World, after: World, k: string)
    requires TimedOk(policy, w, k) && after.db.now >= w.db.now && At(after, k).last == At(w, k).last
    requires k in after.db.lists ==> k in w.db.lists && after.db.lists[k] == w.db.lists[k]
    ensures TimedOk(policy, after, k)
  {
  }

  lemma TimedQueue(policy: TtlPolicy, w: World, u: nat, k: string)
    requires UploadsTimed(policy, w) && TimedOk(policy, w, k) && Busy(w, u, false)
    ensures TimedOk(policy, QueueStep(w, u), k)
  {
    var up := w.uploads[u];
    if up.m.sender != "" {
      PushedQueue(w.db, up.todo[0], up.m.sender, up.m, up.ttl, k);
    }
  }

  lemma TimedReceive(policy: TtlPolicy, w: World, c: nat, k: string)
    requires QueuesOk(w) && TimedOk(policy, w, k) && c in w.clients && w.clients[c].mailbox != []
    ensures TimedOk(policy, ReceiveStep(w, c), k)
  {
    OneOrderShape(w.db, w.clients[c].handle, w.clients[c].with);
  }

  lemma TimedClock(policy: TtlPolicy, w: World, s: Step, k: string)
    requires TimedOk(policy, w, k) && (s.Tick? || s.Flush?)
    ensures TimedOk(policy, Apply(policy, w, s), k)
  {
    TimedKeep(policy, w, Apply(policy, w, s), k);
  }

  lemma TimedElse(policy: TtlPolicy, w: World, s: Step, k: string)
    requires TimedOk(policy, w, k) && (s.Post? || s.Publish? || s.Connect? || s.Subscribe? || s.Close?)
    ensures TimedOk(policy, Apply(policy, w, s), k)
  {
    TimedKeep(policy, w, Apply(policy, w, s), k);
  }

  lemma TimedStep(policy: TtlPolicy, w: World, s: Step, k: string)
    requires QueuesOk(w) && UploadsTimed(policy, w) && TimedOk(policy, w, k)
    ensures TimedOk(policy, Apply(policy, w, s), k)
  {
    match s {
      case Queue(u) => if Busy(w, u, false) { TimedQueue(policy, w, u, k); }
      case Drain(c, order) =>
        if CanDrain(w, c, order) {
          TimedDrain(policy, w, c, w.clients[c].handle, w.clients[c].with, order, w.clients[c].(phase := Drained), k);
        }
      case Fetch(c, r, sd, order) =>
        if CanFetch(w, c, r, sd, order) { TimedDrain(policy, w, c, r, sd, order, Client(r, sd, Closed, [], []), k); }
      case Receive(c) => if InPhase(w, c, Subscribed) && w.clients[c].mailbox != [] { TimedReceive(policy, w, c, k); }
      case Tick(_) => TimedClock(policy, w, s, k);
      case Flush => TimedClock(policy, w, s, k);
      case _ => TimedElse(policy, w, s, k);
    }
  }

  lemma TimedDrain(policy: TtlPolicy, w: World, c: nat, r: string, s: string, order: seq<string>, client: Client, k: string)
    requires QueuesOk(w) && TimedOk(policy, w, k) && RightOrder(w.db, r, s, order)
    ensures forall x :: x in order ==> x in w.db.lists
    ensures TimedOk(policy, DrainTo(w, c, r, s, order, client), k)
  {
    OneOrderShape(w.db, r, s);
  }

  lemma {:induction false} TimedRun(policy: TtlPolicy, w: World, ss: seq<Step>, k: string)
    requires policy.Valid() && QueuesOk(w) && UploadsTimed(policy, w) && TimedOk(policy, w, k)
    ensures TimedOk(policy, Run(policy, w, ss), k) && QueuesOk(Run(policy, w, ss))
    decreases ss
  {
    if ss != [] {
      StepKeeps(policy, w, ss[0]);
      TimedKept(policy, w, ss[0]);
      TimedStep(policy, w, ss[0], k);
      TimedRun(policy, Apply(policy, w, ss[0]), ss[1..], k);
    }
  }

  /** In every reachable state each queue's deadline is the time of its last push plus a lifetime within the
      policy, and still to come: whatever clients ask for, no queue outlives its last push by more. */
  lemma QueueDeadlines(policy: TtlPolicy, ss: seq<Step>, k: string)
    requires policy.Valid() && k in Run(policy, START, ss).db.lists
    ensures var w := Run(policy, START, ss);
            var last, d := At(w, k).last, w.db.lists[k].deadline;
            && d.Some? && last + policy.min <= d.value <= last + policy.max
            && last <= w.db.now < d.value
  {
    TimedRun(policy, START, ss, k);
  }
}
