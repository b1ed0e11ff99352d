/** The relay's store: each operation as the sequence of Redis commands it issues, run without interference.
    (InboxSteps, Registration and PasteLedger interleave the same commands.) */
module RelayStore {
  import opened Ascii
  import opened Base64
  import opened ShareIds
  import opened Redis

  const KEY := "pandora:key:"
  const PASTE := "pandora:paste:"
  const INBOX := "pandora:inbox:"
  const SENDERS := "pandora:inbox_senders:"

  function InboxName(recipient: string, sender: string): string {
    INBOX + recipient + ":" + sender
  }

  lemma NamesAre(r: string, s: string)
    ensures KEY + r == "pandora:key:" + r && PASTE + r == "pandora:paste:" + r
    ensures InboxName(r, s) == "pandora:inbox:" + r + ":" + s && SENDERS + r == "pandora:inbox_senders:" + r
    ensures PUBLIC_KEY == "public_key" && FINGERPRINT == "fingerprint"
  {
  }

  /** The four kinds of key never share a name, so each kind can have a map of its own. */
  lemma KeyNamesDiffer(k: string)
    ensures !(KEY <= k && PASTE <= k) && !(KEY <= k && INBOX <= k) && !(KEY <= k && SENDERS <= k)
    ensures !(PASTE <= k && INBOX <= k) && !(PASTE <= k && SENDERS <= k) && !(INBOX <= k && SENDERS <= k)
  {
    assert KEY[8] == 'k' && PASTE[8] == 'p' && INBOX[8] == 'i' && SENDERS[8] == 'i';
    assert INBOX[13] == ':' && SENDERS[13] == '_';
  }

  predicate WellNamed(db: Db) {
    && (forall k :: k in db.strings ==> PASTE <= k)
    && (forall k :: k in db.lists ==> INBOX <= k)
    && (forall k :: k in db.sets ==> SENDERS <= k)
    && (forall k :: k in db.hashes ==> KEY <= k)
  }

  predicate ColonFree(s: string) {
    ':' !in s
  }

  lemma InboxNameParts(r: string, s: string)
    ensures INBOX <= InboxName(r, s)
    ensures InboxName(r, s)[|INBOX|..] == r + ":" + s
  {
    assert InboxName(r, s) == INBOX + (r + ":" + s);
  }

  lemma ColonSplits(r: string, s: string, r': string, s': string)
    requires ColonFree(r) && ColonFree(r')
    requires r + ":" + s == r' + ":" + s'
    ensures r == r' && s == s'
  {
    var w := r + ":" + s;
    assert w[|r|] == ':' && w[|r'|] == ':';
    assert |r| == |r'|;
    assert r == w[..|r|] && s == w[|r| + 1..];
    assert r' == w[..|r'|] && s' == w[|r'| + 1..];
  }

  /** Without colons in handles, a queue's name says whose it is. With one sender fixed, it always does. */
  lemma InboxNamesDiffer(r: string, s: string, r': string, s': string)
    ensures ColonFree(r) && ColonFree(r') ==> (InboxName(r, s) == InboxName(r', s') <==> r == r' && s == s')
    ensures s == s' ==> (InboxName(r, s) == InboxName(r', s') <==> r == r')
  {
    InboxNameParts(r, s);
    InboxNameParts(r', s');
    if InboxName(r, s) == InboxName(r', s') {
      if ColonFree(r) && ColonFree(r') {
        ColonSplits(r, s, r', s');
      }
      if s == s' {
        var w := r + ":" + s;
        assert w == r' + ":" + s;
        assert |r| == |r'|;
        assert r == w[..|r|] && r' == w[..|r|];
      }
    }
  }

  /** With a colon in a handle two inboxes can share one queue. */
  lemma ColonsCollide()
    ensures InboxName("a", "b:c") == InboxName("a:b", "c")
  {
  }

  predicate SameQueue(r: string, s: string, r': string, s': string) {
    InboxName(r, s) == InboxName(r', s')
  }

  /** A queue belongs to one pair of handles alone, among all there could be, exactly when neither has a colon. */
  lemma NameIsOwnIff(r: string, s: string)
    ensures (forall r', s' :: SameQueue(r, s, r', s') ==> r' == r && s' == s) <==> ColonFree(r) && ColonFree(s)
  {
    if ColonFree(r) && ColonFree(s) {
      forall r', s' | SameQueue(r, s, r', s') ensures r' == r && s' == s {
        OneColon(r, s, r', s');
      }
    } else if !ColonFree(r) {
      var i :| 0 <= i < |r| && r[i] == ':';
      MovedLeft(r, s, i);
      assert SameQueue(r, s, r[..i], r[i + 1..] + ":" + s) && |r[..i]| < |r|;
    } else {
      var i :| 0 <= i < |s| && s[i] == ':';
      MovedRight(r, s, i);
      assert SameQueue(r, s, r + ":" + s[..i], s[i + 1..]) && |r + ":" + s[..i]| > |r|;
    }
  }

  /** The same among the pairs the relay pushes for, whose sender is never empty: there a final colon of the sender,
      too, leaves the queue its own. */
  lemma PushedNameIsOwnIff(r: string, s: string)
    requires s != ""
    ensures (forall r', s' :: s' != "" && SameQueue(r, s, r', s') ==> r' == r && s' == s)
       <==> ColonFree(r) && ColonFree(s[..|s| - 1])
  {
    var init := s[..|s| - 1];
    if !ColonFree(r) {
      var i :| 0 <= i < |r| && r[i] == ':';
      MovedLeft(r, s, i);
      assert SameQueue(r, s, r[..i], r[i + 1..] + ":" + s) && |r[..i]| < |r|;
    } else if !ColonFree(init) {
      var i :| 0 <= i < |init| && init[i] == ':';
      MovedRight(r, s, i);
      assert SameQueue(r, s, r + ":" + s[..i], s[i + 1..]) && |r + ":" + s[..i]| > |r|;
    } else {
      forall r', s' | s' != "" && SameQueue(r, s, r', s') ensures r' == r && s' == s {
        OneColonButLast(r, s, r', s');
      }
    }
  }

  lemma OneColonButLast(r: string, s: string, r': string, s': string)
    requires s != "" && s' != "" && ColonFree(r) && ColonFree(s[..|s| - 1]) && SameQueue(r, s, r', s')
    ensures r' == r && s' == s
  {
    InboxNameParts(r, s);
    InboxNameParts(r', s');
    var w := r + ":" + s;
    assert w == r' + ":" + s' && w[|r'|] == ':';
    assert forall i :: 0 <= i < |w| - 1 && i != |r| ==> w[i] in r || w[i] in s[..|s| - 1];
    assert |r'| == |r|;
    assert r == w[..|r|] && s == w[|r| + 1..] && r' == w[..|r|] && s' == w[|r| + 1..];
  }

  lemma OneColon(r: string, s: string, r': string, s': string)
    requires ColonFree(r) && ColonFree(s) && SameQueue(r, s, r', s')
    ensures r' == r && s' == s
  {
    InboxNameParts(r, s);
    InboxNameParts(r', s');
    var w := r + ":" + s;
    assert w == r' + ":" + s' && w[|r'|] == ':';
    assert forall i :: 0 <= i < |w| && i != |r| ==> w[i] in r || w[i] in s;
    assert |r'| == |r|;
    assert r == w[..|r|] && s == w[|r| + 1..] && r' == w[..|r|] && s' == w[|r| + 1..];
  }

  lemma MovedLeft(r: string, s: string, i: nat)
    requires i < |r| && r[i] == ':'
    ensures InboxName(r[..i], r[i + 1..] + ":" + s) == InboxName(r, s)
  {
    assert r == r[..i] + ":" + r[i + 1..];
  }

  lemma MovedRight(r: string, s: string, i: nat)
    requires i < |s| && s[i] == ':'
    ensures InboxName(r + ":" + s[..i], s[i + 1..]) == InboxName(r, s)
  {
    assert s == s[..i] + ":" + s[i + 1..];
  }

  // ---- What draining a whole inbox touches ----

  function ScanPattern(recipient: string): string {
    INBOX + recipient + ":*"
  }

  /** The queues GetAllAndClearInbox reaches: through the index of senders, or through the key scan. */
  ghost predicate Reached(db: Db, recipient: string, k: string) {
    Glob(ScanPattern(recipient), k) || exists s :: s in SMembers(db, SENDERS + recipient) && k == InboxName(recipient, s)
  }

  /** For a recipient without special characters these are exactly the queues whose name goes on from the
      recipient's, whatever the index holds: its own, and those of every handle that goes on with a colon. */
  lemma ReachedIff(db: Db, recipient: string, r: string, s: string)
    requires GlobFree(recipient)
    ensures Reached(db, recipient, InboxName(r, s)) <==> recipient + ":" <= r + ":" + s
  {
    var k, p, w := InboxName(r, s), INBOX + recipient + ":", r + ":" + s;
    ScanIsPrefix(recipient, k);
    assert k == INBOX + w && p == INBOX + (recipient + ":");
    assert p <= k <==> recipient + ":" <= w by {
      assert k[|INBOX|..] == w && p[|INBOX|..] == recipient + ":";
      if recipient + ":" <= w { assert w == recipient + ":" + w[|recipient| + 1..]; }
      if p <= k { assert p[|INBOX|..] == k[..|p|][|INBOX|..] == w[..|recipient| + 1]; }
    }
    forall s' | k == InboxName(recipient, s') ensures recipient + ":" <= w {
      InboxNameParts(recipient, s');
      InboxNameParts(r, s);
      assert w == recipient + ":" + s';
    }
  }

  /** So a drain always takes the queues of the longer handle too. */
  lemma LongerIsReached(db: Db, recipient: string, x: string, s: string)
    requires GlobFree(recipient)
    ensures Reached(db, recipient, InboxName(recipient + ":" + x, s))
  {
    ReachedIff(db, recipient, recipient + ":" + x, s);
    assert recipient + ":" + x + ":" + s == recipient + ":" + (x + ":" + s);
  }

  /** Among handles without colons that is every queue of the recipient and no other. */
  lemma ReachedIsOwn(db: Db, recipient: string, r: string, s: string)
    requires GlobFree(recipient) && ColonFree(recipient) && ColonFree(r)
    ensures Reached(db, recipient, InboxName(r, s)) <==> r == recipient
  {
    var w := r + ":" + s;
    ReachedIff(db, recipient, r, s);
    if recipient + ":" <= w {
      ColonSplits(recipient, w[|recipient| + 1..], r, s);
    }
  }

  lemma ScanIsPrefix(recipient: string, k: string)
    requires GlobFree(recipient)
    ensures Glob(ScanPattern(recipient), k) <==> INBOX + recipient + ":" <= k
  {
    var p := INBOX + recipient + ":";
    assert ScanPattern(recipient) == p + "*";
    assert GlobFree(p) by {
      assert forall c :: c in p ==> c in INBOX || c in recipient || c == ':';
    }
    PrefixPattern(p, k);
  }

  /** A recipient spelled as a pattern reaches other people's queues. */
  lemma StarReachesAll(db: Db, r: string, s: string)
    ensures Reached(db, "*", InboxName(r, s))
  {
    var k := InboxName(r, s);
    assert ScanPattern("*") == INBOX + "*:*";
    StarColonStar(r, s);
    assert GlobFree(INBOX);
    FrontIff(INBOX, "*:*", r + ":" + s);
    assert INBOX + (r + ":" + s) == k;
  }

  /** A literal beginning is matched by itself alone. */
  lemma {:induction false} FrontIff(p: string, q: string, s: string)
    requires GlobFree(p)
    ensures Glob(p + q, p + s) <==> Glob(q, s)
  {
    if p == [] {
      assert p + q == q && p + s == s;
    } else {
      assert p[0] in p && forall c :: c in p[1..] ==> c in p;
      HeadAndTail(p, q);
      HeadAndTail(p, s);
      FrontIff(p[1..], q, s);
    }
  }

  lemma {:induction false} StarColonStar(r: string, s: string)
    ensures Glob("*:*", r + ":" + s)
  {
    var w := r + ":" + s;
    assert "*:*"[1..] == ":*" && ":*"[1..] == "*";
    if r == [] {
      assert w[1..] == s;
      StarMatchesAll(s);
      assert Glob(":*", w);
    } else {
      assert w[1..] == r[1..] + ":" + s;
      StarColonStar(r[1..], s);
    }
  }

  // ---- Deliveries ----

  /** The queues named by `order`, one after the other. */
  function Concat(order: seq<string>, lists: map<string, Cell<seq<Envelope>>>): seq<Envelope>
    requires forall k :: k in order ==> k in lists
  {
    if order == [] then [] else Concat(order[..|order| - 1], lists) + lists[order[|order| - 1]].value
  }

  function Offset(order: seq<string>, lists: map<string, Cell<seq<Envelope>>>, i: nat): nat
    requires forall k :: k in order ==> k in lists
    requires i <= |order|
  {
    if i == 0 then 0 else Offset(order, lists, i - 1) + |lists[order[i - 1]].value|
  }

  /** The delivery is cut into consecutive blocks, one for each queue, each in its own push order: with no
      queue named twice, every message arrives exactly once. */
  lemma {:induction false} DeliveryIsBlocks(order: seq<string>, lists: map<string, Cell<seq<Envelope>>>, i: nat)
    requires forall k :: k in order ==> k in lists
    requires i <= |order|
    ensures |Concat(order, lists)| == Offset(order, lists, |order|)
    ensures Offset(order, lists, i) <= Offset(order, lists, |order|)
    ensures i < |order| ==>
              && Offset(order, lists, i) + |lists[order[i]].value| <= |Concat(order, lists)|
              && Concat(order, lists)[Offset(order, lists, i)..][..|lists[order[i]].value|] == lists[order[i]].value
    decreases |order|
  {
    if order != [] {
      var n := |order| - 1;
      var init := order[..n];
      OffsetOfPrefix(order, lists, n, n);
      if i <= n {
        OffsetOfPrefix(order, lists, n, i);
        DeliveryIsBlocks(init, lists, i);
        if i < n {
          assert init[i] == order[i];
          assert Concat(order, lists)[Offset(order, lists, i)..][..|lists[order[i]].value|]
              == Concat(init, lists)[Offset(order, lists, i)..][..|lists[order[i]].value|];
        }
      } else {
        DeliveryIsBlocks(init, lists, n);
      }
    }
  }

  lemma {:induction false} OffsetOfPrefix(order: seq<string>, lists: map<string, Cell<seq<Envelope>>>, n: nat, i: nat)
    requires forall k :: k in order ==> k in lists
    requires i <= n <= |order|
    ensures Offset(order[..n], lists, i) == Offset(order, lists, i)
  {
    if i > 0 {
      OffsetOfPrefix(order, lists, n, i - 1);
    }
  }

  predicate Distinct(order: seq<string>) {
    forall i, j :: 0 <= i < j < |order| ==> order[i] != order[j]
  }

  /** `order` lists, once each, the queues a drain of `recipient` reaches. */
  ghost predicate IsDrainOrder(db: Db, recipient: string, order: seq<string>) {
    Distinct(order) && forall k :: k in order <==> k in db.lists && Reached(db, recipient, k)
  }

  function Remove<V>(m: map<string, V>, order: seq<string>): map<string, V> {
    map k | k in m && k !in order :: m[k]
  }

  lemma ConcatOne(order: seq<string>, k: string, lists: map<string, Cell<seq<Envelope>>>)
    requires forall x :: x in order ==> x in lists
    requires k in lists
    ensures Concat(order + [k], lists) == Concat(order, lists) + lists[k].value
  {
    assert (order + [k])[..|order|] == order;
  }

  lemma RemoveIndex(db: Db, k: string)
    requires WellNamed(db) && Live(db) && SENDERS <= k
    ensures Del(db, k) == db.(sets := db.sets - {k})
    ensures WellNamed(Del(db, k)) && Live(Del(db, k))
  {
    KeyNamesDiffer(k);
    assert k !in db.strings && k !in db.lists && k !in db.hashes;
    var d := Del(db, k);
    assert d.strings == db.strings && d.lists == db.lists && d.hashes == db.hashes;
  }

  lemma RemoveQueue(db: Db, k: string)
    requires WellNamed(db) && Live(db) && INBOX <= k
    ensures Del(db, k) == db.(lists := db.lists - {k})
    ensures WellNamed(Del(db, k)) && Live(Del(db, k))
  {
    KeyNamesDiffer(k);
    assert k !in db.strings && k !in db.sets && k !in db.hashes;
    var d := Del(db, k);
    assert d.strings == db.strings && d.sets == db.sets && d.hashes == db.hashes;
  }

  /** The database after a push: one more message in the queue, one more sender in the index, and the
      deadline of this push on the whole of both. */
  function Pushed(db: Db, recipient: string, sender: string, m: Envelope, ttl: int): Db {
    var key, index, deadline := InboxName(recipient, sender), SENDERS + recipient, Some(db.now + ttl);
    db.(lists := db.lists[key := Cell(LRange(db, key) + [m], deadline)],
        sets := db.sets[index := Cell(SMembers(db, index) + {sender}, deadline)])
  }

  /** The four commands of the push pipeline, run together. */
  lemma PushPipeline(db: Db, recipient: string, sender: string, m: Envelope, ttl: int)
    requires WellNamed(db) && Live(db) && ttl > 0
    ensures var key, index := InboxName(recipient, sender), SENDERS + recipient;
            Expire(SAdd(Expire(RPush(db, key, m), key, ttl), index, sender), index, ttl)
            == Pushed(db, recipient, sender, m, ttl)
    ensures WellNamed(Pushed(db, recipient, sender, m, ttl)) && Live(Pushed(db, recipient, sender, m, ttl))
  {
    var key, index := InboxName(recipient, sender), SENDERS + recipient;
    InboxNameParts(recipient, sender);
    PrefixOfName(SENDERS, recipient);
    NamesApart(db, key, index);
    PushCommands(db, key, index, sender, m, ttl);
    PushedLive(db, key, index, Cell(LRange(db, key) + [m], Some(db.now + ttl)),
               Cell(SMembers(db, index) + {sender}, Some(db.now + ttl)));
  }

  lemma PrefixOfName(p: string, s: string)
    ensures p <= p + s
  {
  }

  lemma NamesApart(db: Db, key: string, index: string)
    requires WellNamed(db) && INBOX <= key && SENDERS <= index
    ensures key !in db.sets && index !in db.lists && key != index
  {
    KeyNamesDiffer(key);
    KeyNamesDiffer(index);
  }

  lemma PushCommands(db: Db, key: string, index: string, sender: string, m: Envelope, ttl: int)
    requires ttl > 0 && key !in db.sets && index !in db.lists && index != key
    ensures Expire(SAdd(Expire(RPush(db, key, m), key, ttl), index, sender), index, ttl)
         == db.(lists := db.lists[key := Cell(LRange(db, key) + [m], Some(db.now + ttl))],
                sets := db.sets[index := Cell(SMembers(db, index) + {sender}, Some(db.now + ttl))])
  {
    PushQueue(db, key, m, ttl);
    IndexSender(Expire(RPush(db, key, m), key, ttl), index, sender, ttl);
  }

  lemma PushedLive(db: Db, key: string, index: string, queue: Cell<seq<Envelope>>, senders: Cell<set<string>>)
    requires WellNamed(db) && Live(db) && INBOX <= key && SENDERS <= index
    requires queue.value != [] && Pending(queue.deadline, db.now) && Pending(senders.deadline, db.now)
    ensures var d := db.(lists := db.lists[key := queue], sets := db.sets[index := senders]); WellNamed(d) && Live(d)
  {
  }

  lemma PushQueue(db: Db, k: string, m: Envelope, ttl: int)
    requires ttl > 0 && k !in db.sets
    ensures Expire(RPush(db, k, m), k, ttl) == db.(lists := db.lists[k := Cell(LRange(db, k) + [m], Some(db.now + ttl))])
  {
    var q := LRange(db, k) + [m];
    assert k !in db.lists ==> q == [m];
    var cell := if k in db.lists then db.lists[k].(value := q) else Cell(q, None);
    assert RPush(db, k, m) == db.(lists := db.lists[k := cell]);
    assert db.lists[k := cell][k := cell.(deadline := Some(db.now + ttl))] == db.lists[k := Cell(q, Some(db.now + ttl))];
  }

  lemma IndexSender(db: Db, k: string, sender: string, ttl: int)
    requires ttl > 0 && k !in db.lists
    ensures Expire(SAdd(db, k, sender), k, ttl) == db.(sets := db.sets[k := Cell(SMembers(db, k) + {sender}, Some(db.now + ttl))])
  {
    var q := SMembers(db, k) + {sender};
    assert k !in db.sets ==> q == {sender};
    var cell := if k in db.sets then db.sets[k].(value := q) else Cell(q, None);
    assert SAdd(db, k, sender) == db.(sets := db.sets[k := cell]);
    assert db.sets[k := cell][k := cell.(deadline := Some(db.now + ttl))] == db.sets[k := Cell(q, Some(db.now + ttl))];
  }

  /** A drain that has emptied the queues in `order` and collected `msgs`. */
  ghost predicate Partway(start: Db, db: Db, recipient: string, order: seq<string>, msgs: seq<Envelope>) {
    && Distinct(order)
    && (forall k :: k in order ==> k in start.lists && Reached(start, recipient, k))
    && msgs == Concat(order, start.lists)
    && db.lists == Remove(start.lists, order)
    && db.sets - {SENDERS + recipient} == start.sets - {SENDERS + recipient}
    && db == start.(lists := db.lists, sets := db.sets)
  }

  lemma PartwayStep(start: Db, before: Db, after: Db, recipient: string, order: seq<string>, msgs: seq<Envelope>, key: string)
    requires Partway(start, before, recipient, order, msgs)
    requires key in before.lists && Reached(start, recipient, key)
    requires after.lists == before.lists - {key}
    requires after.sets - {SENDERS + recipient} == before.sets - {SENDERS + recipient}
    requires after == before.(lists := after.lists, sets := after.sets)
    ensures Partway(start, after, recipient, order + [key], msgs + before.lists[key].value)
  {
    assert key in start.lists && key !in order && before.lists[key] == start.lists[key];
    ConcatOne(order, key, start.lists);
    assert after.lists == Remove(start.lists, order + [key]);
  }

  /** The indexed senders in `done` have been served. */
  ghost predicate Indexed(start: Db, recipient: string, done: set<string>, order: seq<string>) {
    forall s :: s in done ==> InboxName(recipient, s) in start.lists ==> InboxName(recipient, s) in order
  }

  /** The scan has only the queues in `todo` left. */
  ghost predicate Scanned(start: Db, recipient: string, todo: set<string>, order: seq<string>) {
    forall k :: k in start.lists && Glob(ScanPattern(recipient), k) ==> k in order || k in todo
  }

  lemma IndexedOneMore(start: Db, before: Db, recipient: string, done: set<string>, order: seq<string>, msgs: seq<Envelope>, s: string)
    requires Partway(start, before, recipient, order, msgs) && Indexed(start, recipient, done, order)
    ensures InboxName(recipient, s) in before.lists ==> Indexed(start, recipient, done + {s}, order + [InboxName(recipient, s)])
    ensures InboxName(recipient, s) !in before.lists ==> Indexed(start, recipient, done + {s}, order)
  {
  }

  lemma DrainDone(start: Db, db: Db, recipient: string, order: seq<string>, msgs: seq<Envelope>)
    requires Partway(start, db, recipient, order, msgs)
    requires Indexed(start, recipient, SMembers(start, SENDERS + recipient), order)
    requires Scanned(start, recipient, {}, order)
    ensures IsDrainOrder(start, recipient, order)
  {
  }

  // ---- The store ----

  /** What draining one sender's queue, and draining all in some order, leave behind. */
  function ClearOne(db: Db, recipient: string, sender: string): Db {
    var k := InboxName(recipient, sender);
    if LRange(db, k) == [] then db else SRem(Del(db, k), SENDERS + recipient, sender)
  }

  function ClearAll(db: Db, recipient: string, order: seq<string>): Db {
    db.(lists := Remove(db.lists, order), sets := db.sets - {SENDERS + recipient})
  }

  lemma ClearOneShape(db: Db, r: string, s: string)
    requires WellNamed(db) && Live(db)
    ensures var d, k := ClearOne(db, r, s), InboxName(r, s);
            && WellNamed(d) && Live(d) && d == db.(lists := db.lists - {k}, sets := d.sets)
            && d.sets - {SENDERS + r} == db.sets - {SENDERS + r}
            && (LRange(db, k) != [] ==> SMembers(d, SENDERS + r) == SMembers(db, SENDERS + r) - {s})
  {
    var k := InboxName(r, s);
    InboxNameParts(r, s);
    if k in db.lists {
      RemoveQueue(db, k);
      RemoveSender(Del(db, k), SENDERS + r, s);
    } else {
      assert db.lists - {k} == db.lists;
    }
  }

  lemma RemoveSender(db: Db, k: string, x: string)
    requires WellNamed(db) && Live(db)
    ensures var d := SRem(db, k, x);
            && WellNamed(d) && Live(d) && d == db.(sets := d.sets)
            && d.sets - {k} == db.sets - {k} && SMembers(d, k) == SMembers(db, k) - {x}
  {
  }

  datatype StoreError = NotFound | HandleTaken | Unavailable

  datatype KeyRecord = KeyRecord(handle: string, publicKey: string, fingerprint: string)

  const PUBLIC_KEY := "public_key"
  const FINGERPRINT := "fingerprint"

  function Field(h: map<string, string>, field: string): string {
    if field in h then h[field] else ""
  }

  /** What a lookup reports, missing fields as empty strings. */
  function KeyAt(db: Db, handle: string): Result<KeyRecord, StoreError> {
    var vals := HGetAll(db, KEY + handle);
    if vals == map[] then Err(NotFound)
    else Ok(KeyRecord(handle, Field(vals, PUBLIC_KEY), Field(vals, FINGERPRINT)))
  }

  /** The database once a free handle is registered, and once it is deleted. */
  function KeyAdded(db: Db, handle: string, publicKey: string, fingerprint: string): Db {
    HSet(HSet(db, KEY + handle, PUBLIC_KEY, publicKey), KEY + handle, FINGERPRINT, fingerprint)
  }

  function KeyRemoved(db: Db, handle: string): Db {
    db.(hashes := db.hashes - {KEY + handle})
  }

  /** A registered handle is found with exactly the key and fingerprint it was registered with, a deleted one
      is not found, and neither operation changes what is found under any other handle. */
  lemma FoundAsRegistered(db: Db, handle: string, publicKey: string, fingerprint: string, other: string)
    ensures KeyAt(KeyAdded(db, handle, publicKey, fingerprint), handle) == Ok(KeyRecord(handle, publicKey, fingerprint))
    ensures KeyAt(KeyRemoved(db, handle), handle) == Err(NotFound)
    ensures other != handle ==>
              && KeyAt(KeyAdded(db, handle, publicKey, fingerprint), other) == KeyAt(db, other)
              && KeyAt(KeyRemoved(db, handle), other) == KeyAt(db, other)
  {
    assert PUBLIC_KEY[0] != FINGERPRINT[0];
    assert (KEY + handle)[|KEY|..] == handle && (KEY + other)[|KEY|..] == other;
    assert PUBLIC_KEY in HGetAll(KeyAdded(db, handle, publicKey, fingerprint), KEY + handle);
  }

  class Store {
    var db: Db

    ghost predicate Valid()
      reads this
    {
      WellNamed(db) && Live(db)
    }

    constructor ()
      ensures Valid() && db == EMPTY
    {
      db := EMPTY;
    }

    method RegisterKey(handle: string, publicKey: string, fingerprint: string) returns (r: Result<(), StoreError>)
      requires Valid()
      modifies this
      ensures Valid()
      ensures r.Ok? <==> PUBLIC_KEY !in HGetAll(old(db), KEY + handle)
      ensures r.Err? ==> r.error == HandleTaken && db == old(db)
      ensures r.Ok? ==> db == KeyAdded(old(db), handle, publicKey, fingerprint)
    {
      var key := KEY + handle;
      var (after, won) := HSetNX(db, key, PUBLIC_KEY, publicKey);
      db := after;
      if !won {
        return Err(HandleTaken);
      }
      db := HSet(db, key, FINGERPRINT, fingerprint);
      return Ok(());
    }

    method LookupKey(handle: string) returns (r: Result<KeyRecord, StoreError>)
      ensures r.Err? <==> HGetAll(db, KEY + handle) == map[]
      ensures r.Err? ==> r.error == NotFound
      ensures r.Ok? ==> r.value.handle == handle
      ensures r.Ok? ==> r.value.publicKey == Field(HGetAll(db, KEY + handle), PUBLIC_KEY)
      ensures r.Ok? ==> r.value.fingerprint == Field(HGetAll(db, KEY + handle), FINGERPRINT)
      ensures r == KeyAt(db, handle)
    {
      var vals := HGetAll(db, KEY + handle);
      if |vals| == 0 {
        assert vals == map[];
        return Err(NotFound);
      }
      return Ok(KeyRecord(handle, Field(vals, PUBLIC_KEY), Field(vals, FINGERPRINT)));
    }

    method DeleteKey(handle: string)
      requires Valid()
      modifies this
      ensures Valid()
      ensures db == KeyRemoved(old(db), handle)
    {
      KeyNamesDiffer(KEY + handle);
      assert KEY + handle !in db.strings && KEY + handle !in db.lists && KEY + handle !in db.sets;
      db := Del(db, KEY + handle);
      assert db.strings == old(db.strings) && db.lists == old(db.lists) && db.sets == old(db.sets);
    }

    method PutPaste(id: string, ciphertext: bytes, ttl: int) returns (ok: bool)
      requires Valid()
      modifies this
      ensures Valid()
      ensures ok <==> PASTE + id !in old(db.strings)
      ensures !ok ==> db == old(db)
      ensures ok ==> db == old(db).(strings := old(db.strings)[PASTE + id :=
                       Cell(ciphertext, if ttl > 0 then Some(old(db.now) + ttl) else None)])
    {
      var (after, stored) := SetNX(db, PASTE + id, ciphertext, ttl);
      db := after;
      ok := stored;
    }

    /** A burn ID is read and removed in one command; any other ID is only read. */
    method GetPaste(id: string) returns (r: Result<bytes, StoreError>)
      requires Valid()
      modifies this
      ensures Valid()
      ensures r == if PASTE + id in old(db.strings) then Ok(old(db.strings)[PASTE + id].value) else Err(NotFound)
      ensures db == old(db).(strings := if IsBurnAfterReading(id) then old(db.strings) - {PASTE + id} else old(db.strings))
    {
      var val: Option<bytes>;
      if IsBurnAfterReading(id) {
        var (after, v) := GetDel(db, PASTE + id);
        db := after;
        val := v;
      } else {
        val := Get(db, PASTE + id);
      }
      if val.None? {
        return Err(NotFound);
      }
      return Ok(val.value);
    }

    method PushInboxMessage(recipient: string, sender: string, m: Envelope, ttl: int)
      requires Valid() && ttl > 0
      modifies this
      ensures Valid()
      ensures db == Pushed(old(db), recipient, sender, m, ttl)
    {
      PushPipeline(db, recipient, sender, m, ttl);
      var key, index := InboxName(recipient, sender), SENDERS + recipient;
      db := RPush(db, key, m);
      db := Expire(db, key, ttl);
      db := SAdd(db, index, sender);
      db := Expire(db, index, ttl);
    }

    method GetAndClearInbox(recipient: string, sender: string) returns (msgs: seq<Envelope>)
      requires Valid()
      modifies this
      ensures Valid()
      ensures msgs == LRange(old(db), InboxName(recipient, sender))
      ensures db == ClearOne(old(db), recipient, sender)
    {
      ClearOneShape(db, recipient, sender);
      var key, index := InboxName(recipient, sender), SENDERS + recipient;
      msgs := LRange(db, key);
      if |msgs| > 0 {
        db := Del(db, key);
        db := SRem(db, index, sender);
      }
    }

    /** The first half of GetAllAndClearInbox: the queues of the indexed senders, in any order. */
    method DrainIndexed(recipient: string, ghost start: Db) returns (msgs: seq<Envelope>, ghost order: seq<string>)
      requires Valid() && db == start
      modifies this
      ensures Valid()
      ensures Partway(start, db, recipient, order, msgs)
      ensures Indexed(start, recipient, SMembers(start, SENDERS + recipient), order)
    {
      var senders := SMembers(db, SENDERS + recipient);
      msgs, order := [], [];
      var todo := senders;
      ghost var done: set<string> := {};
      while todo != {}
        invariant Valid() && done + todo == senders
        invariant Partway(start, db, recipient, order, msgs) && Indexed(start, recipient, done, order)
      {
        var sender :| sender in todo;
        IndexedOneMore(start, db, recipient, done, order, msgs, sender);
        todo, done := todo - {sender}, done + {sender};
        ghost var before := db;
        ClearOneShape(db, recipient, sender);
        var batch := GetAndClearInbox(recipient, sender);
        if |batch| > 0 {
          PartwayStep(start, before, db, recipient, order, msgs, InboxName(recipient, sender));
          msgs := msgs + batch;
          order := order + [InboxName(recipient, sender)];
        }
      }
      assert done == senders;
    }

    /** Every queue the drain reaches is delivered whole and once, in some order, and is gone afterwards;
        nothing else but the index changes. */
    method GetAllAndClearInbox(recipient: string) returns (msgs: seq<Envelope>, ghost order: seq<string>)
      requires Valid()
      modifies this
      ensures Valid()
      ensures IsDrainOrder(old(db), recipient, order)
      ensures msgs == Concat(order, old(db.lists))
      ensures db == ClearAll(old(db), recipient, order)
    {
      ghost var start := db;
      ghost var senders := SMembers(db, SENDERS + recipient);
      var index, pattern := SENDERS + recipient, ScanPattern(recipient);
      msgs, order := DrainIndexed(recipient, start);
      RemoveIndex(db, index);
      db := Del(db, index);
      var todo := Keys(db, pattern);
      while todo != {}
        invariant Valid() && (forall k :: k in todo ==> Glob(pattern, k)) && index !in db.sets
        invariant Partway(start, db, recipient, order, msgs) && Indexed(start, recipient, senders, order)
        invariant Scanned(start, recipient, todo, order)
      {
        var key :| key in todo;
        todo := todo - {key};
        var batch := LRange(db, key);
        if |batch| > 0 {
          ghost var before := db;
          RemoveQueue(db, key);
          db := Del(db, key);
          PartwayStep(start, before, db, recipient, order, msgs, key);
          msgs := msgs + batch;
          order := order + [key];
        }
      }
      DrainDone(start, db, recipient, order, msgs);
      assert db.sets == start.sets - {index};
    }

    method FlushDb()
      requires Valid()
      modifies this
      ensures Valid()
      ensures db == EMPTY.(now := old(db.now))
    {
      db := FlushDB(db);
    }
  }

  /** Draining a recipient without special characters: exactly the queues whose names go on from its own are
      taken, and each is delivered as one block, whatever the sender index held. */
  lemma DrainIsExact(db: Db, recipient: string, order: seq<string>, r: string, s: string)
    requires IsDrainOrder(db, recipient, order) && GlobFree(recipient)
    requires InboxName(r, s) in db.lists
    ensures InboxName(r, s) in order <==> recipient + ":" <= r + ":" + s
    ensures InboxName(r, s) in Remove(db.lists, order) <==> !(recipient + ":" <= r + ":" + s)
    ensures ColonFree(recipient) && ColonFree(r) ==> (InboxName(r, s) in order <==> r == recipient)
    ensures InboxName(r, s) in order ==>
              exists at: nat ::
                at + |LRange(db, InboxName(r, s))| <= |Concat(order, db.lists)|
                && Concat(order, db.lists)[at..][..|LRange(db, InboxName(r, s))|] == LRange(db, InboxName(r, s))
  {
    ReachedIff(db, recipient, r, s);
    if ColonFree(recipient) && ColonFree(r) { ReachedIsOwn(db, recipient, r, s); }
    if InboxName(r, s) in order {
      var i :| 0 <= i < |order| && order[i] == InboxName(r, s);
      DeliveryIsBlocks(order, db.lists, i);
      var at := Offset(order, db.lists, i);
      assert at + |LRange(db, InboxName(r, s))| <= |Concat(order, db.lists)|;
    }
  }

  /** The deadline belongs to the queue, and the last push sets it, whatever it was: no message keeps its own
      lifetime. All that is queued lives exactly as long as the last push says, be that longer or shorter. */
  lemma LastPushDecides(db: Db, r: string, s: string, m: Envelope, ttl: int, t: int)
    ensures var k := InboxName(r, s);
            LRange(Advance(Pushed(db, r, s, m, ttl), t), k) == if t < db.now + ttl then LRange(db, k) + [m] else []
  {
  }

  /** The index of senders has a deadline of its own, that of the last push from anybody: after a push from `b`,
      the queue of `a` is still there and the index is not, exactly from that deadline to the queue's own.
      The key scan still finds the queue. */
  lemma IndexExpiresFirst(db: Db, r: string, a: string, b: string, m: Envelope, ttl: int, t: int)
    requires a != b && InboxName(r, a) in db.lists
    ensures var later := Advance(Pushed(db, r, b, m, ttl), t);
            && (InboxName(r, a) in later.lists && SENDERS + r !in later.sets <==>
                db.now + ttl <= t && Pending(db.lists[InboxName(r, a)].deadline, t))
            && (GlobFree(r) ==> Reached(later, r, InboxName(r, a)))
  {
    var p := INBOX + r + ":";
    assert (p + a)[|p|..] == a && (p + b)[|p|..] == b;
    var pushed := Pushed(db, r, b, m, ttl);
    assert pushed.lists[InboxName(r, a)] == db.lists[InboxName(r, a)];
    if GlobFree(r) {
      ReachedIff(Advance(pushed, t), r, r, a);
      assert r + ":" <= r + ":" + a;
    }
  }
}
