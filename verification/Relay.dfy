/** The relay's handlers: TTL policy, upload with its fan-out over handle spellings, stream opening and
    inbox fetch. */
module Relay {
  import opened Ascii
  import opened Base64
  import opened ShareIds
  import opened Handles
  import opened Redis
  import opened RelayStore

  // ---- TTL policy: durations are 64-bit counts of nanoseconds ----

  const SECOND := 1_000_000_000
  const TWO63 := 0x8000_0000_0000_0000
  const TWO64 := 0x1_0000_0000_0000_0000

  predicate Is64(x: int) {
    -TWO63 <= x < TWO63
  }

  /** The 64-bit value a computation leaves behind. */
  function Wrap64(x: int): (w: int)
    ensures Is64(w) && (w - x) % TWO64 == 0
    ensures Is64(x) ==> w == x
  {
    (x + TWO63) % TWO64 - TWO63
  }

  datatype TtlPolicy = TtlPolicy(default: int, min: int, max: int) {
    predicate Valid() {
      0 < min <= default <= max
    }

    function Resolve(requestedSeconds: Option<int>): int {
      if requestedSeconds.None? then default
      else
        var d := Wrap64(requestedSeconds.value * SECOND);
        if d < min then min else if d > max then max else d
    }
  }

  function Clamp(x: int, lo: int, hi: int): int {
    if x < lo then lo else if x > hi then hi else x
  }

  /** No request gets the default. Every request, even one whose product wraps, is granted a lifetime within the policy. It is the
      clamped request whenever the product fits, and then longer requests never get shorter lifetimes. */
  lemma ResolveBounds(p: TtlPolicy, s: int, t: int)
    requires p.Valid()
    ensures p.Resolve(None) == p.default
    ensures p.min <= p.Resolve(None) <= p.max && p.min <= p.Resolve(Some(s)) <= p.max
    ensures Is64(s * SECOND) ==> p.Resolve(Some(s)) == Clamp(s * SECOND, p.min, p.max)
    ensures Is64(s * SECOND) && Is64(t * SECOND) && s <= t ==> p.Resolve(Some(s)) <= p.Resolve(Some(t))
  {
  }

  /** Exactly when a request is granted its clamped lifetime: its product fits, or it wraps into the bound on
      its own side, or the policy leaves no choice. */
  lemma ClampedIff(p: TtlPolicy, s: int)
    requires p.Valid() && Is64(p.max)
    ensures var x := s * SECOND;
            p.Resolve(Some(s)) == Clamp(x, p.min, p.max) <==>
            Is64(x) || p.min == p.max || (x > 0 && Wrap64(x) >= p.max) || (x < 0 && Wrap64(x) <= p.min)
  {
  }

  /** Beyond that range asking for more can give less: this request of 584 years gets the minimum. */
  lemma WrapShortens(p: TtlPolicy)
    requires p.Valid() && p.min >= SECOND
    ensures Is64(18446744074) && p.Resolve(Some(18446744074)) == p.min
  {
    assert 18446744074 * SECOND == TWO64 + 290448384;
    assert Wrap64(18446744074 * SECOND) == 290448384;
  }

  // ---- Upload ----

  datatype UploadRequest = UploadRequest(ciphertext: bytes, recipient: string, sender: string,
                                         ttlSeconds: Option<int>, burn: bool)

  datatype UploadError = CiphertextRequired | NotBase64 | TooLarge | StorageUnavailable

  function Rejection(req: UploadRequest, maxBytes: int): Option<UploadError> {
    if req.ciphertext == [] then Some(CiphertextRequired)
    else if !ValidBase64(req.ciphertext) then Some(NotBase64)
    else if |req.ciphertext| / 4 * 3 > maxBytes then Some(TooLarge)
    else None
  }

  function Targets(req: UploadRequest): seq<string> {
    if req.recipient == "" then [] else Spellings(req.recipient)
  }

  /** The pushes of one upload: one per spelling, none without a sender. */
  function FanOut(db: Db, targets: seq<string>, sender: string, m: Envelope, ttl: int): Db {
    if targets == [] || sender == "" then db
    else Pushed(FanOut(db, targets[..|targets| - 1], sender, m, ttl), targets[|targets| - 1], sender, m, ttl)
  }

  function Announced(targets: seq<string>, m: Envelope): (events: seq<(string, Envelope)>)
    ensures |events| == |targets|
  {
    seq(|targets|, i requires 0 <= i < |targets| => (targets[i], m))
  }

  lemma NothingAnnounced(events: seq<(string, Envelope)>, m: Envelope)
    ensures events + Announced([], m) == events && events + [] == events
  {
  }

  lemma {:induction false} FanOutKeepsShape(db: Db, targets: seq<string>, sender: string, m: Envelope, ttl: int)
    requires WellNamed(db) && Live(db) && ttl > 0
    ensures var d := FanOut(db, targets, sender, m, ttl);
            WellNamed(d) && Live(d) && d == db.(lists := d.lists, sets := d.sets)
  {
    if targets != [] && sender != "" {
      var n := |targets| - 1;
      FanOutKeepsShape(db, targets[..n], sender, m, ttl);
      PushPipeline(FanOut(db, targets[..n], sender, m, ttl), targets[n], sender, m, ttl);
    }
  }

  lemma PushedQueue(db: Db, t: string, sender: string, m: Envelope, ttl: int, k: string)
    ensures var d := Pushed(db, t, sender, m, ttl);
            && LRange(d, k) == LRange(db, k) + (if k == InboxName(t, sender) then [m] else [])
            && (k == InboxName(t, sender) ==> k in d.lists && d.lists[k].deadline == Some(db.now + ttl))
            && (k != InboxName(t, sender) ==> (k in d.lists <==> k in db.lists) && (k in db.lists ==> d.lists[k] == db.lists[k]))
            && d.now == db.now
  {
  }

  /** `k` is the queue of one of the targets. */
  ghost predicate QueueOf(targets: seq<string>, sender: string, k: string) {
    exists t :: t in targets && InboxName(t, sender) == k
  }

  lemma QueueOfSplit(targets: seq<string>, sender: string, k: string)
    requires Distinct(targets) && targets != []
    ensures var n := |targets| - 1;
            && (QueueOf(targets, sender, k) <==> QueueOf(targets[..n], sender, k) || k == InboxName(targets[n], sender))
            && !(QueueOf(targets[..n], sender, k) && k == InboxName(targets[n], sender))
  {
    var n := |targets| - 1;
    if QueueOf(targets, sender, k) {
      var t :| t in targets && InboxName(t, sender) == k;
      assert t in targets[..n] || t == targets[n];
    }
    if QueueOf(targets[..n], sender, k) {
      var t :| t in targets[..n] && InboxName(t, sender) == k;
      assert t in targets;
      InboxNamesDiffer(t, sender, targets[n], sender);
    }
    assert targets[n] in targets;
  }

  /** In `d`, compared with `db`, queue `k` has one message more, just pushed, or is as it was. */
  ghost predicate Gained(db: Db, d: Db, k: string, one: bool, m: Envelope, ttl: int) {
    && LRange(d, k) == LRange(db, k) + (if one then [m] else [])
    && (one ==> k in d.lists && d.lists[k].deadline == Some(db.now + ttl))
    && (!one ==> (k in d.lists <==> k in db.lists) && (k in db.lists ==> d.lists[k] == db.lists[k]))
    && d.now == db.now
  }

  lemma PushGains(db: Db, d: Db, t: string, sender: string, m: Envelope, ttl: int, k: string, one: bool)
    requires Gained(db, d, k, one, m, ttl) && !(one && k == InboxName(t, sender))
    ensures Gained(db, Pushed(d, t, sender, m, ttl), k, one || k == InboxName(t, sender), m, ttl)
  {
    PushedQueue(d, t, sender, m, ttl, k);
    assert LRange(db, k) + [] == LRange(db, k);
  }

  /** The fan-out appends the message once to the queue of each target, with a deadline of its own, and
      leaves every other queue, its deadline included, as it was. */
  lemma {:induction false} FanOutQueue(db: Db, targets: seq<string>, sender: string, m: Envelope, ttl: int, k: string)
    requires Distinct(targets) && sender != ""
    ensures Gained(db, FanOut(db, targets, sender, m, ttl), k, QueueOf(targets, sender, k), m, ttl)
  {
    if targets != [] {
      var n := |targets| - 1;
      FanOutQueue(db, targets[..n], sender, m, ttl, k);
      QueueOfSplit(targets, sender, k);
      PushGains(db, FanOut(db, targets[..n], sender, m, ttl), targets[n], sender, m, ttl, k, QueueOf(targets[..n], sender, k));
    }
  }

  /** With the sender fixed, the queue of `h` is a target's queue exactly when `h` is a target. */
  lemma TargetQueue(targets: seq<string>, sender: string, h: string)
    ensures QueueOf(targets, sender, InboxName(h, sender)) <==> h in targets
  {
    forall t ensures InboxName(t, sender) == InboxName(h, sender) <==> t == h {
      InboxNamesDiffer(t, sender, h, sender);
    }
  }

  lemma ServeOne(db: Db, served: seq<string>, t: string, sender: string, m: Envelope, ttl: int)
    ensures FanOut(db, served + [t], sender, m, ttl) ==
            if sender == "" then FanOut(db, served, sender, m, ttl)
            else Pushed(FanOut(db, served, sender, m, ttl), t, sender, m, ttl)
    ensures Announced(served + [t], m) == Announced(served, m) + [(t, m)]
  {
    assert (served + [t])[..|served|] == served;
  }

  /** The event queued and published for an upload. */
  function EventOf(req: UploadRequest, buf: bytes): Envelope
    requires |buf| == RANDOM_LENGTH
  {
    Envelope(New(req.burn, buf), req.ciphertext, req.sender)
  }

  function UploadResult(db: Db, req: UploadRequest, buf: bytes, maxBytes: int): Result<string, UploadError>
    requires |buf| == RANDOM_LENGTH
  {
    match Rejection(req, maxBytes)
    case Some(e) => Err(e)
    case None => if PASTE + New(req.burn, buf) in db.strings then Err(StorageUnavailable) else Ok(New(req.burn, buf))
  }

  /** The database once the ciphertext itself is stored. */
  function Stored(db: Db, req: UploadRequest, buf: bytes, policy: TtlPolicy): Db
    requires |buf| == RANDOM_LENGTH
  {
    db.(strings := db.strings[PASTE + New(req.burn, buf) := Cell(req.ciphertext, Some(db.now + policy.Resolve(req.ttlSeconds)))])
  }

  function Uploaded(db: Db, req: UploadRequest, buf: bytes, policy: TtlPolicy, maxBytes: int): Db
    requires |buf| == RANDOM_LENGTH
  {
    if UploadResult(db, req, buf, maxBytes).Err? then db
    else FanOut(Stored(db, req, buf, policy), Targets(req), req.sender, EventOf(req, buf), policy.Resolve(req.ttlSeconds))
  }

  lemma UploadedIs(db: Db, req: UploadRequest, buf: bytes, policy: TtlPolicy, maxBytes: int)
    requires |buf| == RANDOM_LENGTH && UploadResult(db, req, buf, maxBytes).Ok?
    ensures Uploaded(db, req, buf, policy, maxBytes) ==
            if req.recipient == "" then Stored(db, req, buf, policy)
            else FanOut(Stored(db, req, buf, policy), Spellings(req.recipient), req.sender, EventOf(req, buf),
                        policy.Resolve(req.ttlSeconds))
  {
  }

  /** What one accepted upload does to the inbox of `h`, and to the pastes. */
  lemma UploadedQueue(db: Db, req: UploadRequest, buf: bytes, policy: TtlPolicy, maxBytes: int, h: string)
    requires |buf| == RANDOM_LENGTH && req.sender != "" && req.recipient != ""
    requires UploadResult(db, req, buf, maxBytes).Ok?
    ensures LRange(Uploaded(db, req, buf, policy, maxBytes), InboxName(h, req.sender)) ==
            LRange(db, InboxName(h, req.sender)) + (if h in Spellings(req.recipient) then [EventOf(req, buf)] else [])
  {
    var stored, k := Stored(db, req, buf, policy), InboxName(h, req.sender);
    FanOutQueue(stored, Spellings(req.recipient), req.sender, EventOf(req, buf), policy.Resolve(req.ttlSeconds), k);
    TargetQueue(Spellings(req.recipient), req.sender, h);
    assert LRange(stored, k) == LRange(db, k);
  }

  lemma {:induction false} FanOutStrings(db: Db, targets: seq<string>, sender: string, m: Envelope, ttl: int)
    ensures FanOut(db, targets, sender, m, ttl).strings == db.strings
  {
    if targets != [] {
      FanOutStrings(db, targets[..|targets| - 1], sender, m, ttl);
    }
  }

  lemma UploadedStrings(db: Db, req: UploadRequest, buf: bytes, policy: TtlPolicy, maxBytes: int)
    requires |buf| == RANDOM_LENGTH
    ensures Uploaded(db, req, buf, policy, maxBytes).strings.Keys <= db.strings.Keys + {PASTE + New(req.burn, buf)}
  {
    FanOutStrings(Stored(db, req, buf, policy), Targets(req), req.sender, EventOf(req, buf), policy.Resolve(req.ttlSeconds));
  }

  /** All that one accepted upload leaves in the store, spelled out: the ciphertext under its ID, and, when it names
      a sender, one more message at the end of the queue of each spelling of the recipient, all of them for
      `lifetime` from now; every other paste and queue, deadlines included, is as it was. */
  ghost predicate StoredFor(before: Db, after: Db, req: UploadRequest, id: string, lifetime: int) {
    && after.now == before.now
    && PASTE + id in after.strings && after.strings[PASTE + id] == Cell(req.ciphertext, Some(before.now + lifetime))
    && (forall k :: k != PASTE + id ==> (k in after.strings <==> k in before.strings))
    && (forall k :: k != PASTE + id && k in before.strings ==> after.strings[k] == before.strings[k])
    && (forall k :: Queued(before, after, req, id, lifetime, k))
  }

  /** What becomes of queue `k`. */
  ghost predicate Queued(before: Db, after: Db, req: UploadRequest, id: string, lifetime: int, k: string) {
    if req.sender != "" && req.recipient != "" && exists t :: t in Variants(req.recipient) && k == InboxName(t, req.sender) then
      && k in after.lists
      && after.lists[k].value == LRange(before, k) + [Envelope(id, req.ciphertext, req.sender)]
      && after.lists[k].deadline == Some(before.now + lifetime)
    else (k in after.lists <==> k in before.lists) && (k in before.lists ==> after.lists[k] == before.lists[k])
  }

  lemma UploadStoresFor(db: Db, req: UploadRequest, buf: bytes, policy: TtlPolicy, maxBytes: int)
    requires |buf| == RANDOM_LENGTH && UploadResult(db, req, buf, maxBytes).Ok?
    ensures StoredFor(db, Uploaded(db, req, buf, policy, maxBytes), req, New(req.burn, buf), policy.Resolve(req.ttlSeconds))
  {
    var ttl, stored, id := policy.Resolve(req.ttlSeconds), Stored(db, req, buf, policy), New(req.burn, buf);
    FanOutStrings(stored, Targets(req), req.sender, EventOf(req, buf), ttl);
    forall k ensures Queued(db, Uploaded(db, req, buf, policy, maxBytes), req, id, ttl, k) {
      FanOutQueues(stored, req, EventOf(req, buf), ttl, k);
    }
    FanOutQueues(stored, req, EventOf(req, buf), ttl, "");
  }

  lemma FanOutQueues(stored: Db, req: UploadRequest, m: Envelope, ttl: int, k: string)
    requires m.ciphertext == req.ciphertext && m.sender == req.sender
    ensures var after := FanOut(stored, Targets(req), req.sender, m, ttl);
            after.now == stored.now && Queued(stored, after, req, m.id, ttl, k)
  {
    if req.sender != "" && req.recipient != "" {
      FanOutQueue(stored, Targets(req), req.sender, m, ttl, k);
      assert forall t :: t in Targets(req) <==> t in Variants(req.recipient);
    }
  }

  class Handlers {
    const store: Store
    const policy: TtlPolicy
    const maxCiphertextBytes: int
    var published: seq<(string, Envelope)>

    constructor (store: Store, policy: TtlPolicy, maxCiphertextBytes: int)
      ensures this.store == store && this.policy == policy
      ensures this.maxCiphertextBytes == maxCiphertextBytes && published == []
    {
      this.store := store;
      this.policy := policy;
      this.maxCiphertextBytes := maxCiphertextBytes;
      published := [];
    }

    /** Stores the ciphertext under a new ID, then queues and publishes it for every spelling of the
        recipient. `buf` is the random source's answer. */
    method UploadPaste(req: UploadRequest, buf: bytes) returns (r: Result<string, UploadError>)
      requires store.Valid() && policy.Valid() && |buf| == RANDOM_LENGTH
      modifies this, store
      ensures store.Valid()
      ensures r == UploadResult(old(store.db), req, buf, maxCiphertextBytes)
      ensures r == Err(CiphertextRequired) <==> req.ciphertext == []
      ensures r == Err(NotBase64) <==> req.ciphertext != [] && !ValidBase64(req.ciphertext)
      ensures r == Err(TooLarge) <==>
                req.ciphertext != [] && ValidBase64(req.ciphertext) && |req.ciphertext| / 4 * 3 > maxCiphertextBytes
      ensures r.Err? ==> store.db == old(store.db) && (r.error == StorageUnavailable ==> PASTE + New(req.burn, buf) in store.db.strings)
      ensures r.Ok? ==> r.value == New(req.burn, buf) && PASTE + r.value !in old(store.db).strings
      ensures r.Ok? && req.ttlSeconds.None? ==> StoredFor(old(store.db), store.db, req, r.value, policy.default)
      ensures r.Ok? && req.ttlSeconds.Some? ==>
                var asked := Wrap64(req.ttlSeconds.value * SECOND);
                StoredFor(old(store.db), store.db, req, r.value,
                          if asked < policy.min then policy.min else if asked > policy.max then policy.max else asked)
      ensures store.db == Uploaded(old(store.db), req, buf, policy, maxCiphertextBytes)
      ensures published == old(published) + (if r.Ok? then Announced(Targets(req), EventOf(req, buf)) else [])
    {
      if req.ciphertext == [] {
        return Err(CiphertextRequired);
      }
      if !ValidBase64(req.ciphertext) {
        return Err(NotBase64);
      }
      if |req.ciphertext| / 4 * 3 > maxCiphertextBytes {
        return Err(TooLarge);
      }
      var ttl := policy.Resolve(req.ttlSeconds);
      var id := New(req.burn, buf);
      var ok := store.PutPaste(id, req.ciphertext, ttl);
      if !ok {
        return Err(StorageUnavailable);
      }
      assert store.db == Stored(old(store.db), req, buf, policy);
      UploadStoresFor(old(store.db), req, buf, policy, maxCiphertextBytes);
      UploadedIs(old(store.db), req, buf, policy, maxCiphertextBytes);
      if req.recipient != "" {
        var m := Envelope(id, req.ciphertext, req.sender);
        FanOutTo(req.recipient, req.sender, m, ttl);
      } else {
        NothingAnnounced(published, EventOf(req, buf));
      }
      return Ok(id);
    }

    /** The loop over the spellings: each one seen for the first time is queued and published. */
    method FanOutTo(recipient: string, sender: string, m: Envelope, ttl: int)
      requires store.Valid() && ttl > 0
      modifies this, store
      ensures store.Valid()
      ensures store.db == FanOut(old(store.db), Spellings(recipient), sender, m, ttl)
      ensures published == old(published) + Announced(Spellings(recipient), m)
    {
      var targets := Variants(recipient);
      var seen: set<string> := {};
      ghost var served: seq<string> := [];
      for i := 0 to |targets|
        invariant store.Valid()
        invariant served == Dedup(targets[..i]) && forall x :: x in seen <==> x in targets[..i]
        invariant store.db == FanOut(old(store.db), served, sender, m, ttl)
        invariant published == old(published) + Announced(served, m)
      {
        var t := targets[i];
        DedupOneMore(targets, i);
        if t in seen {
          continue;
        }
        seen := seen + {t};
        ServeOne(old(store.db), served, t, sender, m, ttl);
        Associative(old(published), Announced(served, m), [(t, m)]);
        if sender != "" {
          store.PushInboxMessage(t, sender, m, ttl);
        }
        published := published + [(t, m)];
        served := served + [t];
      }
      assert targets[..|targets|] == targets;
    }

    /** Opening a stream: the queued messages are written first, then the channels are subscribed.
        With a `with` parameter only that sender's queue is written and cleared. */
    method OpenStream(handle: string, withSender: string)
      returns (r: Result<(seq<Envelope>, seq<string>), string>, ghost order: seq<string>)
      requires store.Valid()
      modifies store
      ensures store.Valid()
      ensures r.Err? <==> handle == ""
      ensures r.Err? ==> store.db == old(store.db)
      ensures r.Ok? ==> r.value.1 == Spellings(handle)
      ensures r.Ok? && withSender != "" ==>
                && r.value.0 == LRange(old(store.db), InboxName(handle, withSender))
                && store.db == ClearOne(old(store.db), handle, withSender)
      ensures r.Ok? && withSender == "" ==>
                && IsDrainOrder(old(store.db), handle, order)
                && r.value.0 == Concat(order, old(store.db).lists)
                && store.db == ClearAll(old(store.db), handle, order)
    {
      order := [];
      if handle == "" {
        return Err("handle query parameter is required"), [];
      }
      var queued: seq<Envelope>;
      if withSender != "" {
        queued := store.GetAndClearInbox(handle, withSender);
      } else {
        queued, order := store.GetAllAndClearInbox(handle);
      }
      var channels := StreamChannels(handle);
      r := Ok((queued, channels));
    }

    method FetchInbox(recipient: string, sender: string)
      returns (r: Result<seq<Envelope>, string>, ghost order: seq<string>)
      requires store.Valid()
      modifies store
      ensures store.Valid()
      ensures r.Err? <==> recipient == ""
      ensures r.Err? ==> store.db == old(store.db)
      ensures r.Ok? && sender != "" ==>
                && r.value == LRange(old(store.db), InboxName(recipient, sender))
                && store.db == ClearOne(old(store.db), recipient, sender)
      ensures r.Ok? && sender == "" ==>
                && IsDrainOrder(old(store.db), recipient, order)
                && r.value == Concat(order, old(store.db).lists)
                && store.db == ClearAll(old(store.db), recipient, order)
    {
      order := [];
      if recipient == "" {
        return Err("recipient query parameter is required"), [];
      }
      var msgs: seq<Envelope>;
      if sender != "" {
        msgs := store.GetAndClearInbox(recipient, sender);
      } else {
        msgs, order := store.GetAllAndClearInbox(recipient);
      }
      r := Ok(msgs);
    }
  }
}
