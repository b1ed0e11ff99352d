/** The client's own fan-out: one chat message posted once for every spelling of the recipient, each post
    fanned out again by the relay. */
module ChatClient {
  import opened Ascii
  import opened Base64
  import opened ShareIds
  import opened Handles
  import opened Envelopes
  import opened Redis
  import opened RelayStore
  import opened Relay

  function NonEmpty(xs: seq<string>): (ys: seq<string>)
    ensures |ys| <= |xs|
    ensures forall x :: x in ys <==> x in xs && x != ""
  {
    if xs == [] then [] else
      assert xs == xs[..|xs| - 1] + [xs[|xs| - 1]];
      NonEmpty(xs[..|xs| - 1]) + (if xs[|xs| - 1] == "" then [] else [xs[|xs| - 1]])
  }

  /** The distinct, non-empty spellings the client posts to. */
  function ClientTargets(recipient: string): seq<string> {
    NonEmpty(Spellings(TrimSpace(recipient)))
  }

  datatype Chat = Chat(recipient: string, sender: string, ciphertext: bytes, ttlSeconds: int, burn: bool)

  function RequestTo(c: Chat, target: string): UploadRequest {
    UploadRequest(Posted(c.ciphertext), target, c.sender,
                  Some(if c.ttlSeconds <= 0 then 86400 else c.ttlSeconds), c.burn)
  }

  /** The relay's side of the conversation, and what does not change during it. */
  datatype World = World(policy: TtlPolicy, maxBytes: int, bufs: seq<bytes>, reaches: nat -> bool)

  ghost predicate Usable(w: World) {
    w.policy.Valid() && |w.bufs| == 5 && forall i :: 0 <= i < 5 ==> |w.bufs[i]| == RANDOM_LENGTH
  }

  datatype ClientError = TransportFailure | NothingAccepted

  /** The database, the published events and the first accepted ID after posting to some targets. */
  datatype Progress = Progress(db: Db, events: seq<(string, Envelope)>, firstId: string, failed: bool)

  function Step(p: Progress, c: Chat, target: string, w: World, i: nat): Progress
    requires i < |w.bufs| && |w.bufs[i]| == RANDOM_LENGTH
  {
    if !w.reaches(i) then p.(failed := true)
    else
      var req := RequestTo(c, target);
      match UploadResult(p.db, req, w.bufs[i], w.maxBytes)
      case Err(_) => p
      case Ok(id) =>
        Progress(Uploaded(p.db, req, w.bufs[i], w.policy, w.maxBytes),
                 p.events + Announced(Targets(req), EventOf(req, w.bufs[i])),
                 if p.firstId == "" then id else p.firstId, p.failed)
  }

  function PostAll(db: Db, c: Chat, targets: seq<string>, w: World): Progress
    requires |targets| <= |w.bufs| && forall i :: 0 <= i < |targets| ==> |w.bufs[i]| == RANDOM_LENGTH
  {
    if targets == [] then Progress(db, [], "", false)
    else
      var n := |targets| - 1;
      Step(PostAll(db, c, targets[..n], w), c, targets[n], w, n)
  }

  function Outcome(p: Progress): Result<string, ClientError> {
    if p.firstId != "" then Ok(p.firstId) else if p.failed then Err(TransportFailure) else Err(NothingAccepted)
  }

  lemma PostNext(db: Db, c: Chat, targets: seq<string>, n: nat, w: World)
    requires n < |targets| <= |w.bufs| && forall i :: 0 <= i < |targets| ==> |w.bufs[i]| == RANDOM_LENGTH
    ensures PostAll(db, c, targets[..n + 1], w) == Step(PostAll(db, c, targets[..n], w), c, targets[n], w, n)
  {
    assert targets[..n + 1][..n] == targets[..n];
  }

  /** The relay is where `p` says, starting from the events in `before`. */
  ghost predicate At(relay: Handlers, before: seq<(string, Envelope)>, p: Progress)
    reads relay, relay.store
  {
    relay.store.Valid() && relay.store.db == p.db && relay.published == before + p.events
  }

  /** One request. */
  method Request(relay: Handlers, c: Chat, t: string, w: World, i: nat, firstId: string, failed: bool,
                 ghost before: seq<(string, Envelope)>, ghost p: Progress)
    returns (firstId': string, failed': bool, ghost q: Progress)
    requires Usable(w) && i < 5 && w.policy == relay.policy && w.maxBytes == relay.maxCiphertextBytes
    requires At(relay, before, p) && firstId == p.firstId && failed == p.failed
    modifies relay, relay.store
    ensures q == Step(p, c, t, w, i)
    ensures At(relay, before, q) && firstId' == q.firstId && failed' == q.failed
  {
    q := Step(p, c, t, w, i);
    firstId', failed' := firstId, failed;
    if w.reaches(i) {
      var id := relay.UploadPaste(RequestTo(c, t), w.bufs[i]);
      if id.Ok? {
        Associative(before, p.events, Announced(Targets(RequestTo(c, t)), EventOf(RequestTo(c, t), w.bufs[i])));
        if firstId == "" {
          firstId' := id.value;
        }
      } else {
        assert relay.published + [] == relay.published;
      }
    } else {
      failed' := true;
    }
  }

  /** The same, seen from the whole run: the request for target `n`. */
  method Post(relay: Handlers, c: Chat, targets: seq<string>, n: nat, w: World, firstId: string, failed: bool,
              ghost before: seq<(string, Envelope)>, ghost start: Db, ghost p: Progress)
    returns (firstId': string, failed': bool, ghost q: Progress)
    requires Usable(w) && n < |targets| <= 5 && w.policy == relay.policy && w.maxBytes == relay.maxCiphertextBytes
    requires At(relay, before, p) && p == PostAll(start, c, targets[..n], w)
    requires firstId == p.firstId && failed == p.failed
    modifies relay, relay.store
    ensures q == PostAll(start, c, targets[..n + 1], w)
    ensures At(relay, before, q) && firstId' == q.firstId && failed' == q.failed
  {
    firstId', failed', q := Request(relay, c, targets[n], w, n, firstId, failed, before, p);
    PostNext(start, c, targets, n, w);
  }

  /** The targets the loop has kept of the spellings in `xs`. */
  function Picked(xs: seq<string>): seq<string> {
    if xs == [] then []
    else
      var init, x := xs[..|xs| - 1], xs[|xs| - 1];
      if x == "" || x in init then Picked(init) else Picked(init) + [x]
  }

  lemma NonEmptyAppend(xs: seq<string>, x: string)
    ensures NonEmpty(xs + [x]) == if x == "" then NonEmpty(xs) else NonEmpty(xs) + [x]
  {
    assert (xs + [x])[..|xs|] == xs;
  }

  lemma {:induction false} PickedIs(xs: seq<string>)
    ensures Picked(xs) == NonEmpty(Dedup(xs))
  {
    if xs != [] {
      var init, x := xs[..|xs| - 1], xs[|xs| - 1];
      PickedIs(init);
      NonEmptyAppend(Dedup(init), x);
    }
  }

  lemma PickedOneMore(all: seq<string>, i: nat)
    requires i < |all|
    ensures Picked(all[..i + 1]) == if all[i] == "" || all[i] in all[..i] then Picked(all[..i]) else Picked(all[..i]) + [all[i]]
    ensures all[..i + 1] == all[..i] + [all[i]]
  {
    assert all[..i + 1][..i] == all[..i];
  }

  /** The loop over the spellings, as far as it picks the targets: blanks and repetitions are skipped. */
  method PickTargets(all: seq<string>) returns (picked: seq<string>)
    ensures picked == NonEmpty(Dedup(all))
  {
    var seen: set<string> := {};
    picked := [];
    for i := 0 to |all|
      invariant picked == Picked(all[..i])
      invariant forall x :: x in seen <==> x in all[..i] && x != ""
    {
      var t := all[i];
      PickedOneMore(all, i);
      if t == "" || t in seen {
        continue;
      }
      seen := seen + {t};
      picked := picked + [t];
    }
    PickedIs(all);
    assert all[..|all|] == all;
  }

  /** PostChatMessageWithOptions. `w.reaches(i)` says whether the i-th request gets through to the relay. */
  method PostChatMessage(relay: Handlers, c: Chat, w: World) returns (r: Result<string, ClientError>)
    requires relay.store.Valid() && Usable(w)
    requires w.policy == relay.policy && w.maxBytes == relay.maxCiphertextBytes
    modifies relay, relay.store
    ensures var p := PostAll(old(relay.store.db), c, ClientTargets(c.recipient), w);
            At(relay, old(relay.published), p) && r == Outcome(p)
  {
    var targets := PickTargets(Variants(TrimSpace(c.recipient)));
    var firstId, failed := "", false;
    ghost var start, before := relay.store.db, relay.published;
    ghost var p := PostAll(start, c, [], w);
    for i := 0 to |targets|
      invariant p == PostAll(start, c, targets[..i], w)
      invariant At(relay, before, p) && firstId == p.firstId && failed == p.failed
    {
      firstId, failed, p := Post(relay, c, targets, i, w, firstId, failed, before, start, p);
    }
    assert targets[..|targets|] == targets;
    r := if firstId != "" then Ok(firstId) else if failed then Err(TransportFailure) else Err(NothingAccepted);
  }

  // ---- Counting copies ----

  /** The copies that reach the inbox of `h`: one for each target whose server spellings contain `h`. */
  function Copies(c: Chat, targets: seq<string>, bufs: seq<bytes>, h: string): seq<Envelope>
    requires |targets| <= |bufs| && forall i :: 0 <= i < |targets| ==> |bufs[i]| == RANDOM_LENGTH
  {
    if targets == [] then []
    else
      var n := |targets| - 1;
      Copies(c, targets[..n], bufs, h)
      + (if h in Spellings(targets[n]) then [EventOf(RequestTo(c, targets[n]), bufs[n])] else [])
  }

  /** All requests get through, are within the size limit, and draw fresh IDs. */
  ghost predicate AllSucceed(db: Db, c: Chat, w: World) {
    && Usable(w)
    && (forall i :: w.reaches(i))
    && c.ciphertext != [] && |Posted(c.ciphertext)| / 4 * 3 <= w.maxBytes
    && (forall i :: 0 <= i < 5 ==> PASTE + New(c.burn, w.bufs[i]) !in db.strings)
    && (forall i, j :: 0 <= i < j < 5 ==> w.bufs[i] != w.bufs[j])
  }

  lemma UploadSucceeds(db: Db, c: Chat, t: string, w: World, i: nat)
    requires Usable(w) && i < 5 && c.ciphertext != [] && |Posted(c.ciphertext)| / 4 * 3 <= w.maxBytes
    requires PASTE + New(c.burn, w.bufs[i]) !in db.strings
    ensures UploadResult(db, RequestTo(c, t), w.bufs[i], w.maxBytes) == Ok(New(c.burn, w.bufs[i]))
  {
    RelayAccepts(c.ciphertext);
  }

  lemma NamesOfIds(burn: bool, x: bytes, y: bytes)
    requires |x| == |y| == RANDOM_LENGTH && x != y
    ensures PASTE + New(burn, x) != PASTE + New(burn, y)
  {
    NewIsInjective(burn, x, burn, y);
    var a, b := New(burn, x), New(burn, y);
    assert (PASTE + a)[|PASTE|..] == a && (PASTE + b)[|PASTE|..] == b;
  }

  lemma StepStrings(p: Progress, c: Chat, t: string, w: World, i: nat)
    requires Usable(w) && i < 5
    ensures Step(p, c, t, w, i).db.strings.Keys <= p.db.strings.Keys + {PASTE + New(c.burn, w.bufs[i])}
  {
    UploadedStrings(p.db, RequestTo(c, t), w.bufs[i], w.policy, w.maxBytes);
  }

  /** The IDs of later posts are still free. */
  lemma {:induction false} LaterIdsFree(db: Db, c: Chat, targets: seq<string>, w: World, j: nat)
    requires AllSucceed(db, c, w) && |targets| <= j < 5
    ensures PASTE + New(c.burn, w.bufs[j]) !in PostAll(db, c, targets, w).db.strings
  {
    if targets != [] {
      var n := |targets| - 1;
      LaterIdsFree(db, c, targets[..n], w, j);
      NamesOfIds(c.burn, w.bufs[n], w.bufs[j]);
      StepStrings(PostAll(db, c, targets[..n], w), c, targets[n], w, n);
    }
  }

  function TotalSpellings(targets: seq<string>): nat {
    if targets == [] then 0 else TotalSpellings(targets[..|targets| - 1]) + |Spellings(targets[|targets| - 1])|
  }

  /** A request that succeeds: its effect on the inbox of `h`. */
  lemma StepSucceeds(p: Progress, c: Chat, t: string, w: World, i: nat, h: string)
    requires Usable(w) && i < 5 && w.reaches(i) && c.sender != "" && t != ""
    requires UploadResult(p.db, RequestTo(c, t), w.bufs[i], w.maxBytes).Ok?
    ensures LRange(Step(p, c, t, w, i).db, InboxName(h, c.sender)) == LRange(p.db, InboxName(h, c.sender))
              + (if h in Spellings(t) then [EventOf(RequestTo(c, t), w.bufs[i])] else [])
  {
    UploadedQueue(p.db, RequestTo(c, t), w.bufs[i], w.policy, w.maxBytes, h);
  }

  lemma TargetsOfRest(targets: seq<string>)
    requires targets != [] && "" !in targets
    ensures targets[|targets| - 1] != "" && "" !in targets[..|targets| - 1]
  {
    assert targets[|targets| - 1] in targets;
  }

  lemma NextSucceeds(db: Db, c: Chat, targets: seq<string>, w: World)
    requires AllSucceed(db, c, w) && 0 < |targets| <= 5
    ensures var n := |targets| - 1;
            var p := PostAll(db, c, targets[..n], w);
            && UploadResult(p.db, RequestTo(c, targets[n]), w.bufs[n], w.maxBytes) == Ok(New(c.burn, w.bufs[n]))
            && PostAll(db, c, targets, w) == Step(p, c, targets[n], w, n)
  {
    var n := |targets| - 1;
    LaterIdsFree(db, c, targets[..n], w, n);
    UploadSucceeds(PostAll(db, c, targets[..n], w).db, c, targets[n], w, n);
  }

  /** What posting to some of the targets leaves in an inbox, exactly and in order. */
  lemma {:induction false} PostedQueue(db: Db, c: Chat, targets: seq<string>, w: World, h: string)
    requires AllSucceed(db, c, w) && |targets| <= 5 && c.sender != "" && "" !in targets
    ensures LRange(PostAll(db, c, targets, w).db, InboxName(h, c.sender)) ==
            LRange(db, InboxName(h, c.sender)) + Copies(c, targets, w.bufs, h)
  {
    if targets != [] {
      var n := |targets| - 1;
      TargetsOfRest(targets);
      PostedQueue(db, c, targets[..n], w, h);
      NextSucceeds(db, c, targets, w);
      StepSucceeds(PostAll(db, c, targets[..n], w), c, targets[n], w, n, h);
      Associative(LRange(db, InboxName(h, c.sender)), Copies(c, targets[..n], w.bufs, h),
             if h in Spellings(targets[n]) then [EventOf(RequestTo(c, targets[n]), w.bufs[n])] else []);
    }
  }

  /** How much is published, and which ID comes back. */
  lemma {:induction false} PostedEvents(db: Db, c: Chat, targets: seq<string>, w: World)
    requires AllSucceed(db, c, w) && |targets| <= 5 && "" !in targets
    ensures var p := PostAll(db, c, targets, w);
            && |p.events| == TotalSpellings(targets)
            && p.firstId == (if targets == [] then "" else New(c.burn, w.bufs[0]))
  {
    if targets != [] {
      TargetsOfRest(targets);
      PostedEvents(db, c, targets[..|targets| - 1], w);
      NextSucceeds(db, c, targets, w);
    }
  }

  lemma TotalOfAppend(xs: seq<string>, x: string)
    ensures TotalSpellings(xs + [x]) == TotalSpellings(xs) + |Spellings(x)|
  {
    assert (xs + [x])[..|xs|] == xs;
  }

  /** Dropping repetitions and blanks only lowers the total. */
  lemma {:induction false} TotalOfDedup(xs: seq<string>)
    ensures TotalSpellings(Dedup(xs)) <= TotalSpellings(xs)
  {
    if xs != [] {
      TotalOfDedup(xs[..|xs| - 1]);
      TotalOfAppend(Dedup(xs[..|xs| - 1]), xs[|xs| - 1]);
    }
  }

  lemma {:induction false} TotalOfNonEmpty(xs: seq<string>)
    ensures TotalSpellings(NonEmpty(xs)) <= TotalSpellings(xs)
  {
    if xs != [] {
      TotalOfNonEmpty(xs[..|xs| - 1]);
      assert xs[|xs| - 1] == "" ==> NonEmpty(xs) == NonEmpty(xs[..|xs| - 1]);
      TotalOfAppend(NonEmpty(xs[..|xs| - 1]), xs[|xs| - 1]);
    }
  }

  lemma {:induction false} TotalOfPrefix(xs: seq<string>, n: nat)
    requires n <= |xs|
    requires forall i :: 0 <= i < n ==> |Spellings(xs[i])| <= Allowance(i)
    ensures TotalSpellings(xs[..n]) <= Budget(n)
  {
    if n > 0 {
      TotalOfPrefix(xs, n - 1);
      assert xs[..n] == xs[..n - 1] + [xs[n - 1]];
      TotalOfAppend(xs[..n - 1], xs[n - 1]);
    }
  }

  /** At most 5 for the handle as given, 3 for each spelling in capitals, 4 for the one in small letters. */
  function Allowance(i: nat): nat {
    if i == 0 then 5 else if i == 2 then 4 else 3
  }

  function Budget(n: nat): nat {
    if n == 0 then 0 else Budget(n - 1) + Allowance(n - 1)
  }

  lemma BudgetOfFive()
    ensures Budget(5) == 18
  {
    assert Budget(2) == 8 && Budget(4) == 15;
  }

  lemma VariantBudget(t: string, n: nat)
    requires n < 5
    ensures |Spellings(Variants(t)[n])| <= Allowance(n)
  {
    var v := Variants(t)[n];
    SpellingCount(v);
    CaseFolding(t, t);
    if n == 2 {
      assert ToLower(v) == v;
    } else if n == 3 {
      CaseFolding(TrimPrefix(t, PV), t);
      UpperOfPrefixed(ToUpper(TrimPrefix(t, PV)));
    } else if n == 4 {
      UpperOfPrefixed(ToUpper(t));
      assert ToUpper(v) == v;
    }
  }

  lemma {:induction false} CopiesOfMember(c: Chat, targets: seq<string>, bufs: seq<bytes>, h: string)
    requires |targets| <= |bufs| && forall i :: 0 <= i < |targets| ==> |bufs[i]| == RANDOM_LENGTH
    ensures Copies(c, targets, bufs, h) != [] <==> exists t :: t in targets && h in Spellings(t)
    ensures |Copies(c, targets, bufs, h)| <= |targets|
  {
    if targets != [] {
      var n := |targets| - 1;
      CopiesOfMember(c, targets[..n], bufs, h);
      assert forall t :: t in targets <==> t in targets[..n] || t == targets[n];
    }
  }

  /** Who receives: every non-empty spelling of the recipient, and nobody with another name. */
  lemma WhoReceives(c: Chat, bufs: seq<bytes>, h: string)
    requires |bufs| == 5 && forall i :: 0 <= i < 5 ==> |bufs[i]| == RANDOM_LENGTH
    ensures var t, copies := TrimSpace(c.recipient), Copies(c, ClientTargets(c.recipient), bufs, h);
            && (h != "" && h in Variants(t) ==> |copies| >= 1)
            && (copies != [] ==> Name(h) == Name(t))
  {
    var t, targets := TrimSpace(c.recipient), ClientTargets(c.recipient);
    CopiesOfMember(c, targets, bufs, h);
    if h != "" && h in Variants(t) {
      assert h in targets && h == Variants(h)[0] && h in Spellings(h);
    }
    if Copies(c, targets, bufs, h) != [] {
      var x :| x in targets && h in Spellings(x);
      VariantKeepsName(t, x);
      VariantKeepsName(x, h);
    }
  }

  lemma AtMostEighteenPairs(recipient: string)
    ensures TotalSpellings(ClientTargets(recipient)) <= 18
    ensures ClientTargets(recipient) != []
  {
    var xs := Variants(TrimSpace(recipient));
    assert xs[3] in ClientTargets(recipient);
    forall i | 0 <= i < 5 ensures |Spellings(xs[i])| <= Allowance(i) {
      VariantBudget(TrimSpace(recipient), i);
    }
    TotalOfPrefix(xs, 5);
    AllFive(xs);
    TotalOfDedup(xs);
    TotalOfNonEmpty(Dedup(xs));
    BudgetOfFive();
  }

  lemma AllFive(xs: seq<string>)
    requires |xs| == 5
    ensures xs[..5] == xs
  {
  }

  // ---- All copies together ----

  /** The copies that reach the inboxes of all the handles in `hs`. */
  function CopiesIn(c: Chat, targets: seq<string>, bufs: seq<bytes>, hs: seq<string>): nat
    requires |targets| <= |bufs| && forall i :: 0 <= i < |targets| ==> |bufs[i]| == RANDOM_LENGTH
  {
    if hs == [] then 0 else |Copies(c, targets, bufs, hs[0])| + CopiesIn(c, targets, bufs, hs[1..])
  }

  /** How many of the handles in `hs` are in `xs`. */
  function Among(hs: seq<string>, xs: seq<string>): (among: seq<string>)
    ensures forall h :: h in among <==> h in hs && h in xs
  {
    if hs == [] then [] else (if hs[0] in xs then [hs[0]] else []) + Among(hs[1..], xs)
  }

  lemma {:induction false} AmongDistinct(hs: seq<string>, xs: seq<string>)
    requires Distinct(hs)
    ensures Distinct(Among(hs, xs)) && |Among(hs, xs)| <= |xs|
  {
    if hs != [] {
      assert Distinct(hs[1..]);
      AmongDistinct(hs[1..], xs);
      assert hs[0] !in hs[1..];
    }
    AmongFew(Among(hs, xs), xs);
  }

  lemma AmongFew(ys: seq<string>, xs: seq<string>)
    requires Distinct(ys) && forall y :: y in ys ==> y in xs
    ensures |ys| <= |xs|
  {
    var s := set x | x in xs;
    SizeOfDistinct(ys, s);
    SetOfSeq(xs);
  }

  lemma {:induction false} SetOfSeq(xs: seq<string>)
    ensures |set x | x in xs| <= |xs|
  {
    if xs != [] {
      SetOfSeq(xs[1..]);
      assert (set x | x in xs) == (set x | x in xs[1..]) + {xs[0]};
    }
  }

  lemma {:induction false} CopiesInMore(c: Chat, targets: seq<string>, bufs: seq<bytes>, hs: seq<string>)
    requires 0 < |targets| <= |bufs| && forall i :: 0 <= i < |targets| ==> |bufs[i]| == RANDOM_LENGTH
    ensures CopiesIn(c, targets, bufs, hs) ==
            CopiesIn(c, targets[..|targets| - 1], bufs, hs) + |Among(hs, Spellings(targets[|targets| - 1]))|
    decreases hs
  {
    if hs != [] {
      CopiesInMore(c, targets, bufs, hs[1..]);
    }
  }

  /** Over any number of different inboxes, no more copies are made than there are pairs of a client target and
      one of its server spellings. */
  lemma {:induction false} CopiesBounded(c: Chat, targets: seq<string>, bufs: seq<bytes>, hs: seq<string>)
    requires |targets| <= |bufs| && forall i :: 0 <= i < |targets| ==> |bufs[i]| == RANDOM_LENGTH
    requires Distinct(hs)
    ensures CopiesIn(c, targets, bufs, hs) <= TotalSpellings(targets)
    decreases |targets|
  {
    if targets == [] {
      NoCopies(c, bufs, hs);
    } else {
      var n := |targets| - 1;
      CopiesBounded(c, targets[..n], bufs, hs);
      CopiesInMore(c, targets, bufs, hs);
      AmongDistinct(hs, Spellings(targets[n]));
    }
  }

  lemma {:induction false} NoCopies(c: Chat, bufs: seq<bytes>, hs: seq<string>)
    ensures CopiesIn(c, [], bufs, hs) == 0
  {
    if hs != [] {
      NoCopies(c, bufs, hs[1..]);
    }
  }

  /** At most 18 copies are queued, over any number of different inboxes. */
  lemma AtMostEighteen(c: Chat, bufs: seq<bytes>, hs: seq<string>)
    requires |bufs| == 5 && (forall i :: 0 <= i < 5 ==> |bufs[i]| == RANDOM_LENGTH) && Distinct(hs)
    ensures ClientTargets(c.recipient) != []
    ensures CopiesIn(c, ClientTargets(c.recipient), bufs, hs) <= TotalSpellings(ClientTargets(c.recipient)) <= 18
  {
    AtMostEighteenPairs(c.recipient);
    CopiesBounded(c, ClientTargets(c.recipient), bufs, hs);
  }

  // ---- The bound is attained ----

  /** Over inboxes that miss no spelling, there are as many copies as pairs. */
  lemma {:induction false} CopiesOfAll(c: Chat, targets: seq<string>, bufs: seq<bytes>, hs: seq<string>)
    requires |targets| <= |bufs| && forall i :: 0 <= i < |targets| ==> |bufs[i]| == RANDOM_LENGTH
    requires Distinct(hs) && forall t, h :: t in targets && h in Spellings(t) ==> h in hs
    ensures CopiesIn(c, targets, bufs, hs) == TotalSpellings(targets)
    decreases |targets|
  {
    if targets == [] {
      NoCopies(c, bufs, hs);
    } else {
      var n := |targets| - 1;
      assert targets[n] in targets && forall t :: t in targets[..n] ==> t in targets;
      CopiesOfAll(c, targets[..n], bufs, hs);
      CopiesInMore(c, targets, bufs, hs);
      AmongDistinct(hs, Spellings(targets[n]));
      AmongFew(Spellings(targets[n]), Among(hs, Spellings(targets[n])));
    }
  }

  function AllSpellings(targets: seq<string>): (hs: seq<string>)
    ensures forall t, h :: t in targets && h in Spellings(t) ==> h in hs
  {
    if targets == [] then [] else Spellings(targets[0]) + AllSpellings(targets[1..])
  }

  lemma {:induction false} DedupDistinct(xs: seq<string>)
    requires Distinct(xs) && "" !in xs
    ensures NonEmpty(Dedup(xs)) == xs
  {
    if xs != [] {
      var init, x := xs[..|xs| - 1], xs[|xs| - 1];
      assert xs == init + [x] && x !in init && x in xs;
      DedupDistinct(init);
      assert Dedup(xs) == Dedup(init) + [x];
      NonEmptyAppend(Dedup(init), x);
    }
  }

  const BOBS := ["pv-Bob", "PV-BOB", "pv-bob", "PV-PV-BOB", "BOB"]

  lemma BobsFolded()
    ensures ToUpper("pv-Bob") == ToUpper("pv-bob") == ToUpper("PV-BOB") == "PV-BOB" == PV + "BOB"
    ensures ToLower("pv-Bob") == ToLower("PV-BOB") == ToLower("pv-bob") == "pv-bob"
    ensures ToUpper("PV-PV-BOB") == "PV-PV-BOB" == PV + "PV-BOB" && ToLower("PV-PV-BOB") == "pv-pv-bob"
    ensures ToUpper("BOB") == "BOB" && ToLower("BOB") == "bob"
  {
  }

  lemma BobsVariants()
    ensures Variants("pv-Bob") == BOBS
    ensures Variants("PV-BOB") == ["PV-BOB", "PV-BOB", "pv-bob", "PV-BOB", "BOB"]
    ensures Variants("pv-bob") == ["pv-bob", "PV-BOB", "pv-bob", "PV-PV-BOB", "BOB"]
    ensures Variants("PV-PV-BOB") == ["PV-PV-BOB", "PV-PV-BOB", "pv-pv-bob", "PV-PV-BOB", "PV-BOB"]
    ensures Variants("BOB") == ["BOB", "BOB", "bob", "PV-BOB", "BOB"]
  {
    BobsFolded();
    assert "pv-Bob"[0] != PV[0] && "pv-bob"[0] != PV[0] && "BOB"[0] != PV[0];
    assert (PV + "BOB")[3..] == "BOB" && (PV + "PV-BOB")[3..] == "PV-BOB";
  }

  lemma SomeSpellings(h: string, ys: seq<string>)
    requires Distinct(ys) && forall y :: y in ys ==> y in Variants(h)
    ensures |ys| <= |Spellings(h)|
  {
    AmongFew(ys, Spellings(h));
  }

  lemma ThreeSpellings(h: string, i: nat, j: nat, k: nat)
    requires i < 5 && j < 5 && k < 5
    requires var v := Variants(h); v[i] != v[j] && v[j] != v[k] && v[i] != v[k]
    ensures |Spellings(h)| >= 3
  {
    var v := Variants(h);
    SomeSpellings(h, [v[i], v[j], v[k]]);
  }

  lemma FourSpellings(h: string)
    requires var v := Variants(h);
             v[1] != v[2] && v[1] != v[3] && v[1] != v[4] && v[2] != v[3] && v[2] != v[4] && v[3] != v[4]
    ensures |Spellings(h)| >= 4
  {
    var v := Variants(h);
    SomeSpellings(h, [v[1], v[2], v[3], v[4]]);
  }

  lemma BobsSpellings(i: nat)
    requires i < 5
    ensures |Spellings(BOBS[i])| >= Allowance(i)
  {
    BobsVariants();
    BobsDiffer();
    match i {
      case 0 => SomeSpellings("pv-Bob", Variants("pv-Bob"));
      case 1 => ThreeSpellings("PV-BOB", 0, 2, 4);
      case 2 => FourSpellings("pv-bob");
      case 3 =>
        assert "PV-PV-BOB"[0] != "pv-pv-bob"[0];
        ThreeSpellings("PV-PV-BOB", 0, 2, 4);
      case _ =>
        assert "BOB"[0] != "bob"[0];
        ThreeSpellings("BOB", 0, 2, 3);
    }
  }

  lemma {:induction false} TotalAtLeast(xs: seq<string>, n: nat)
    requires n <= |xs|
    requires forall i :: 0 <= i < n ==> |Spellings(xs[i])| >= Allowance(i)
    ensures TotalSpellings(xs[..n]) >= Budget(n)
  {
    if n > 0 {
      TotalAtLeast(xs, n - 1);
      assert xs[..n] == xs[..n - 1] + [xs[n - 1]];
      TotalOfAppend(xs[..n - 1], xs[n - 1]);
    }
  }

  lemma BobsTotal()
    ensures TotalSpellings(BOBS) >= 18
  {
    forall i: nat | i < 5 ensures |Spellings(BOBS[i])| >= Allowance(i) {
      BobsSpellings(i);
    }
    TotalAtLeast(BOBS, 5);
    assert BOBS[..5] == BOBS;
    BudgetOfFive();
  }

  lemma BobsTargets()
    ensures ClientTargets("pv-Bob") == BOBS
  {
    assert Trimmed("pv-Bob");
    BobsVariants();
    BobsDiffer();
    DedupDistinct(Variants("pv-Bob"));
  }

  lemma BobsDiffer()
    ensures Distinct(BOBS) && "" !in BOBS
  {
    assert |BOBS[0]| == |BOBS[1]| == |BOBS[2]| == 6 && |BOBS[3]| == 9 && |BOBS[4]| == 3;
    assert BOBS[0][0] != BOBS[1][0] && BOBS[0][3] != BOBS[2][3] && BOBS[1][0] != BOBS[2][0];
  }

  /** A message to "pv-Bob" makes 18 copies: 5 + 3 + 4 + 3 + 3. */
  lemma EighteenAttained(c: Chat, bufs: seq<bytes>) returns (hs: seq<string>)
    requires c.recipient == "pv-Bob" && |bufs| == 5 && forall i :: 0 <= i < 5 ==> |bufs[i]| == RANDOM_LENGTH
    ensures Distinct(hs) && CopiesIn(c, ClientTargets(c.recipient), bufs, hs) == 18
  {
    var targets := ClientTargets(c.recipient);
    hs := Dedup(AllSpellings(targets));
    CopiesOfAll(c, targets, bufs, hs);
    BobsTargets();
    BobsTotal();
    AtMostEighteenPairs(c.recipient);
  }

  // ---- What the copies say, and how long they live ----

  /** The lifetime a chat asks for is a day if it names none, and it is granted in nanoseconds, within the policy. */
  function Granted(c: Chat, p: TtlPolicy): int {
    var asked := Wrap64((if c.ttlSeconds <= 0 then 86400 else c.ttlSeconds) * 1_000_000_000);
    if asked < p.min then p.min else if asked > p.max then p.max else asked
  }

  /** Every copy names the sender, carries the ciphertext, in base64 if it was not, and an ID in the mode chosen. */
  lemma {:induction false} CopiesSay(c: Chat, targets: seq<string>, bufs: seq<bytes>, h: string, e: Envelope)
    requires |targets| <= |bufs| && forall i :: 0 <= i < |targets| ==> |bufs[i]| == RANDOM_LENGTH
    requires e in Copies(c, targets, bufs, h)
    ensures e.sender == c.sender && IsBurnAfterReading(e.id) == c.burn
    ensures e.ciphertext == if Decode(c.ciphertext).Some? then c.ciphertext else Encode(c.ciphertext)
  {
    var n := |targets| - 1;
    if e in Copies(c, targets[..n], bufs, h) {
      CopiesSay(c, targets[..n], bufs, h, e);
    } else {
      NewIsBijective(c.burn, bufs[n], e.id);
    }
  }

  /** Queue `k` lives for `lifetime` from now if it gained something, and is as it was otherwise. */
  ghost predicate Lives(before: Db, after: Db, k: string, gained: bool, lifetime: int) {
    && after.now == before.now
    && if gained then k in after.lists && after.lists[k].deadline == Some(before.now + lifetime)
       else (k in after.lists <==> k in before.lists) && (k in before.lists ==> after.lists[k] == before.lists[k])
  }

  lemma LivesOn(a: Db, b: Db, c: Db, k: string, first: bool, second: bool, lifetime: int)
    requires Lives(a, b, k, first, lifetime) && Lives(b, c, k, second, lifetime)
    ensures Lives(a, c, k, first || second, lifetime)
  {
  }

  /** An inbox that gained a copy lives for the granted lifetime from now; the others keep their deadlines. */
  lemma {:induction false} CopiesLive(db: Db, c: Chat, targets: seq<string>, w: World, h: string)
    requires AllSucceed(db, c, w) && |targets| <= 5 && c.sender != "" && "" !in targets
    ensures Lives(db, PostAll(db, c, targets, w).db, InboxName(h, c.sender), Copies(c, targets, w.bufs, h) != [], Granted(c, w.policy))
  {
    if targets != [] {
      var n, k := |targets| - 1, InboxName(h, c.sender);
      var p := PostAll(db, c, targets[..n], w);
      TargetsOfRest(targets);
      CopiesLive(db, c, targets[..n], w, h);
      NextSucceeds(db, c, targets, w);
      StepLives(p, c, targets[n], w, n, h);
      LivesOn(db, p.db, Step(p, c, targets[n], w, n).db, k, Copies(c, targets[..n], w.bufs, h) != [], h in Spellings(targets[n]),
              Granted(c, w.policy));
    }
  }

  lemma StepLives(p: Progress, c: Chat, t: string, w: World, i: nat, h: string)
    requires Usable(w) && i < 5 && w.reaches(i) && c.sender != "" && t != ""
    requires UploadResult(p.db, RequestTo(c, t), w.bufs[i], w.maxBytes).Ok?
    ensures Lives(p.db, Step(p, c, t, w, i).db, InboxName(h, c.sender), h in Spellings(t), Granted(c, w.policy))
  {
    GrantedIs(c, t, w.policy);
    InboxOf(t, h, c.sender);
    UploadLives(p.db, RequestTo(c, t), w.bufs[i], w.policy, w.maxBytes, InboxName(h, c.sender));
  }

  lemma UploadLives(db: Db, req: UploadRequest, buf: bytes, policy: TtlPolicy, maxBytes: int, k: string)
    requires |buf| == RANDOM_LENGTH && req.sender != "" && req.recipient != "" && UploadResult(db, req, buf, maxBytes).Ok?
    ensures Lives(db, Uploaded(db, req, buf, policy, maxBytes), k,
                  exists t :: t in Variants(req.recipient) && k == InboxName(t, req.sender), policy.Resolve(req.ttlSeconds))
  {
    var after := Uploaded(db, req, buf, policy, maxBytes);
    UploadStoresFor(db, req, buf, policy, maxBytes);
    assert Queued(db, after, req, New(req.burn, buf), policy.Resolve(req.ttlSeconds), k);
  }

  lemma GrantedIs(c: Chat, t: string, p: TtlPolicy)
    ensures p.Resolve(RequestTo(c, t).ttlSeconds) == Granted(c, p)
  {
  }

  lemma InboxOf(target: string, h: string, sender: string)
    ensures (exists t :: t in Variants(target) && InboxName(h, sender) == InboxName(t, sender)) <==> h in Spellings(target)
  {
    forall t ensures InboxName(h, sender) == InboxName(t, sender) <==> t == h {
      InboxNamesDiffer(h, sender, t, sender);
    }
    assert h in Spellings(target) <==> h in Variants(target);
  }

  /** One chat message, when every request succeeds: each inbox gains exactly its copies; the inbox of
      every non-empty spelling of the recipient gains at least one, an inbox of another name none; at most
      18 copies are queued over all inboxes together, and 18 published; and the caller gets the ID of the
      first. */
  lemma ChatFanOut(db: Db, c: Chat, w: World, h: string, hs: seq<string>)
    requires AllSucceed(db, c, w) && c.sender != "" && Distinct(hs)
    ensures var p := PostAll(db, c, ClientTargets(c.recipient), w);
            var copies := Copies(c, ClientTargets(c.recipient), w.bufs, h);
            && LRange(p.db, InboxName(h, c.sender)) == LRange(db, InboxName(h, c.sender)) + copies
            && (h != "" && h in Variants(TrimSpace(c.recipient)) ==> |copies| >= 1)
            && (copies != [] ==> Name(h) == Name(TrimSpace(c.recipient)))
            && CopiesIn(c, ClientTargets(c.recipient), w.bufs, hs) <= 18 && |p.events| <= 18
            && Outcome(p) == Ok(New(c.burn, w.bufs[0]))
  {
    PostedQueue(db, c, ClientTargets(c.recipient), w, h);
    PostedEvents(db, c, ClientTargets(c.recipient), w);
    WhoReceives(c, w.bufs, h);
    AtMostEighteen(c, w.bufs, hs);
  }
}
