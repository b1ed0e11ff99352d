/** The dashboard's session: contacts, conversations, the expiry pruner and the set of message IDs already seen.
    The page and the calls to the local server are left out; the clock is an argument that never runs back. */
module Session {
  import opened Ascii

  datatype Contact = Contact(handle: string, displayName: string, fingerprint: string, publicKey: string, lastMessage: string)

  datatype Message = Message(id: string, sender: string, text: string, ttl: int, expiresAt: int, isOutgoing: bool)

  /** An event of the stream; missing strings and numbers are "" and 0, as the handler treats them. */
  datatype Event = Event(id: string, sender: string, group: string, isGroup: bool, isFile: bool, text: string, ttl: int)

  /** What the text of an event holds when it is the JSON of a file: its name under either key. */
  datatype Attachment = Attachment(name: string, filename: string)

  // ---- Expiry ----

  predicate Fresh(m: Message, now: int) {
    m.expiresAt == 0 || m.expiresAt > now
  }

  function Kept(log: seq<Message>, now: int): seq<Message> {
    if log == [] then []
    else Kept(log[..|log| - 1], now) + (if Fresh(log[|log| - 1], now) then [log[|log| - 1]] else [])
  }

  /** `at` lists, from left to right, all the messages of `before` that have no expiry or one still ahead; `after` is
      what is found there. */
  ghost predicate Survivors(before: seq<Message>, after: seq<Message>, now: int, at: seq<nat>) {
    && |at| == |after|
    && (forall j :: 0 <= j < |at| ==> at[j] < |before| && after[j] == before[at[j]])
    && (forall i, j :: 0 <= i < j < |at| ==> at[i] < at[j])
    && (forall i :: 0 <= i < |before| ==> (i in at <==> before[i].expiresAt == 0 || now < before[i].expiresAt))
  }

  ghost predicate PrunedTo(before: seq<Message>, after: seq<Message>, now: int) {
    exists at :: Survivors(before, after, now, at)
  }

  /** Pruning leaves the live messages, in their order and number, and no others. */
  lemma {:induction false} KeptSurvives(log: seq<Message>, now: int) returns (at: seq<nat>)
    ensures Survivors(log, Kept(log, now), now, at)
  {
    at := [];
    if log != [] {
      var n := |log| - 1;
      at := KeptSurvives(log[..n], now);
      assert forall i :: 0 <= i < n ==> log[..n][i] == log[i];
      if Fresh(log[n], now) {
        at := at + [n];
      }
    }
  }

  lemma LiveAfterPruning(before: seq<Message>, after: seq<Message>, now: int, m: Message)
    requires PrunedTo(before, after, now) && m in after
    ensures m.expiresAt == 0 || now < m.expiresAt
  {
    var at :| Survivors(before, after, now, at);
    var j :| 0 <= j < |after| && after[j] == m;
    assert at[j] in at;
  }

  lemma KeptIsPruned(log: seq<Message>, now: int)
    ensures PrunedTo(log, Kept(log, now), now)
  {
    var at := KeptSurvives(log, now);
  }

  /** What is shown under a key; nothing, before the first message. */
  function Conversation(conversations: map<string, seq<Message>>, k: string): seq<Message> {
    if k in conversations then conversations[k] else []
  }

  /** The conversation under `k` is pruned, and the others are as they were. */
  ghost predicate Drawn(before: map<string, seq<Message>>, after: map<string, seq<Message>>, k: string, now: int) {
    k in after && after == before[k := after[k]] && PrunedTo(Conversation(before, k), after[k], now)
  }

  /** So are those not in `todo`. */
  ghost predicate DrawnBut(before: map<string, seq<Message>>, after: map<string, seq<Message>>, todo: set<string>, now: int) {
    && after.Keys == before.Keys
    && forall k :: k in before ==> if k in todo then after[k] == before[k] else PrunedTo(before[k], after[k], now)
  }

  lemma DrawnOneMore(before: map<string, seq<Message>>, mid: map<string, seq<Message>>, after: map<string, seq<Message>>,
                     todo: set<string>, k: string, now: int)
    requires DrawnBut(before, mid, todo, now) && k in todo && todo <= before.Keys && Drawn(mid, after, k, now)
    ensures DrawnBut(before, after, todo - {k}, now)
  {
  }

  lemma AllLive(before: map<string, seq<Message>>, after: map<string, seq<Message>>, now: int)
    requires DrawnBut(before, after, {}, now)
    ensures forall k, m :: k in after && m in after[k] ==> m.expiresAt == 0 || now < m.expiresAt
  {
    forall k, m | k in after && m in after[k] ensures m.expiresAt == 0 || now < m.expiresAt {
      LiveAfterPruning(before[k], after[k], now, m);
    }
  }

  lemma {:induction false} KeptAppend(a: seq<Message>, b: seq<Message>, now: int)
    ensures Kept(a + b, now) == Kept(a, now) + Kept(b, now)
    decreases |b|
  {
    if b == [] {
      assert a + b == a;
    } else {
      assert (a + b)[..|a + b| - 1] == a + b[..|b| - 1];
      KeptAppend(a, b[..|b| - 1], now);
    }
  }

  /** Pruning again later is as good as pruning once, later. */
  lemma {:induction false} KeptTwice(log: seq<Message>, t: int, u: int)
    requires t <= u
    ensures Kept(Kept(log, t), u) == Kept(log, u)
  {
    if log != [] {
      var init, last := log[..|log| - 1], log[|log| - 1..];
      KeptTwice(init, t, u);
      assert last[..0] == [];
      assert Kept(log, t) == Kept(init, t) + Kept(last, t);
      KeptAppend(Kept(init, t), Kept(last, t), u);
    }
  }

  /** What one conversation has been through since it was last removed: everything appended to it, how much of
      that when it was last pruned and at what time (its creation, before any pruning), and whether every
      message since then came with a positive lifetime. */
  datatype Past = Past(log: seq<Message>, cut: nat, at: int, positive: bool)

  /** The conversation is the log, pruned as of the last time it was. */
  ghost predicate Follows(conversation: seq<Message>, p: Past) {
    && p.cut <= |p.log|
    && conversation == Kept(p.log[..p.cut], p.at) + p.log[p.cut..]
    && (p.positive ==> conversation == Kept(p.log, p.at))
  }

  function Appended(p: Past, m: Message): Past {
    p.(log := p.log + [m], positive := p.positive && m.ttl > 0)
  }

  /** A message arrives; if that opens the conversation, it is also pruned. */
  function AfterArrival(p: Past, m: Message, opens: bool, now: int): Past {
    if opens then Pruned(Appended(p, m), now) else Appended(p, m)
  }

  function Pruned(p: Past, now: int): Past {
    Past(p.log, |p.log|, now, true)
  }

  /** A conversation starts when it is first needed. */
  function PastOf(past: map<string, Past>, k: string, now: int): Past {
    if k in past then past[k] else Past([], 0, now, true)
  }

  lemma AppendFollows(conversation: seq<Message>, p: Past, m: Message, now: int)
    requires Follows(conversation, p) && p.at <= now && m.expiresAt == now + m.ttl * 1000
    ensures Follows(conversation + [m], Appended(p, m))
  {
    assert (p.log + [m])[..p.cut] == p.log[..p.cut];
    assert (p.log + [m])[..|p.log|] == p.log;
  }

  lemma PruneFollows(conversation: seq<Message>, p: Past, now: int)
    requires Follows(conversation, p) && p.at <= now
    ensures Follows(Kept(conversation, now), Pruned(p, now))
  {
    var a, b := p.log[..p.cut], p.log[p.cut..];
    assert p.log == a + b && p.log[..|p.log|] == p.log;
    KeptAppend(Kept(a, p.at), b, now);
    KeptTwice(a, p.at, now);
    KeptAppend(a, b, now);
  }

  /** Each conversation follows its own past, none of which is later than `clock`. */
  ghost predicate AllFollow(conversations: map<string, seq<Message>>, past: map<string, Past>, clock: int) {
    && conversations.Keys == past.Keys
    && forall k :: k in past ==> Follows(conversations[k], past[k]) && past[k].at <= clock
  }

  lemma FollowUpdate(conversations: map<string, seq<Message>>, past: map<string, Past>, clock: int, k: string,
                     conversation: seq<Message>, p: Past, now: int)
    requires AllFollow(conversations, past, clock) && clock <= now
    requires Follows(conversation, p) && p.at <= now
    ensures AllFollow(conversations[k := conversation], past[k := p], now)
  {
  }

  lemma FollowRemove(conversations: map<string, seq<Message>>, past: map<string, Past>, clock: int, k: string)
    requires AllFollow(conversations, past, clock)
    ensures AllFollow(conversations - {k}, past - {k}, clock)
  {
  }

  lemma UpdateTwice(past: map<string, Past>, k: string, p: Past, q: Past)
    ensures past[k := p][k := q] == past[k := q]
  {
  }

  lemma UpdateTwiceMore(before: map<string, seq<Message>>, k: string, c: seq<Message>, after: map<string, seq<Message>>)
    requires k in after
    ensures after == before[k := c][k := after[k]] ==> after == before[k := after[k]]
    ensures Conversation(before[k := c], k) == c
  {
  }

  function PrunedBut(past: map<string, Past>, todo: set<string>, now: int): map<string, Past> {
    map k | k in past :: if k in todo then past[k] else Pruned(past[k], now)
  }

  lemma PrunedOneMore(past: map<string, Past>, todo: set<string>, k: string, now: int)
    requires k in todo && todo <= past.Keys
    ensures PrunedBut(past, todo, now)[k := Pruned(past[k], now)] == PrunedBut(past, todo - {k}, now)
    ensures PrunedBut(past, todo, now)[k] == past[k]
  {
  }

  // ---- Contacts ----

  /** What happened to a handle, ignoring case: it was touched, or its correspondence removed. */
  datatype Mention = Touch(name: string) | Removal(name: string)

  /** When `n` was last touched, or -1 if it was not, or was removed since. */
  function LastTouch(h: seq<Mention>, n: string): (t: int)
    ensures -1 <= t < |h|
    ensures t >= 0 ==> h[t] == Touch(n)
  {
    if h == [] then -1
    else if h[|h| - 1].name != n then LastTouch(h[..|h| - 1], n)
    else if h[|h| - 1].Touch? then |h| - 1
    else -1
  }

  predicate LatestFirst(names: seq<string>, h: seq<Mention>) {
    forall i, j :: 0 <= i < j < |names| ==> LastTouch(h, names[i]) > LastTouch(h, names[j])
  }

  /** The touched handles that were not removed since, each once, the latest touched first. */
  ghost predicate Recent(names: seq<string>, h: seq<Mention>) {
    && (forall n :: n in names <==> LastTouch(h, n) >= 0)
    && LatestFirst(names, h)
  }

  /** No other list is. */
  lemma RecentIsUnique(a: seq<string>, b: seq<string>, h: seq<Mention>)
    requires Recent(a, h) && Recent(b, h)
    ensures a == b
  {
    SameOrder(a, b, h);
  }

  lemma {:induction false} SameOrder(a: seq<string>, b: seq<string>, h: seq<Mention>)
    requires forall n :: n in a <==> n in b
    requires forall n :: n in a ==> LastTouch(h, n) >= 0
    requires LatestFirst(a, h) && LatestFirst(b, h)
    ensures a == b
    decreases |a|
  {
    if a == [] {
      assert forall n :: n !in b;
    } else {
      assert a[0] in b && b != [] && b[0] in a;
      assert a[0] == b[0];
      forall n ensures n in a[1..] <==> n in b[1..] {
        assert n in a <==> n == a[0] || n in a[1..];
        assert n in b <==> n == b[0] || n in b[1..];
      }
      SameOrder(a[1..], b[1..], h);
    }
  }

  function WithoutName(names: seq<string>, n: string): seq<string> {
    if names == [] then []
    else
      var init, last := WithoutName(names[..|names| - 1], n), names[|names| - 1];
      if last == n then init else init + [last]
  }

  lemma {:induction false} WithoutNameHolds(names: seq<string>, n: string, x: string)
    ensures x in WithoutName(names, n) <==> x in names && x != n
  {
    if names != [] {
      var init, last := names[..|names| - 1], names[|names| - 1];
      WithoutNameHolds(init, n, x);
      assert x in names <==> x in init || x == last;
    }
  }

  lemma {:induction false} WithoutNameIs(names: seq<string>, n: string, h: seq<Mention>)
    requires LatestFirst(names, h)
    ensures forall x :: x in WithoutName(names, n) <==> x in names && x != n
    ensures LatestFirst(WithoutName(names, n), h)
  {
    forall x ensures x in WithoutName(names, n) <==> x in names && x != n {
      WithoutNameHolds(names, n, x);
    }
    if names != [] {
      var init, last := names[..|names| - 1], names[|names| - 1];
      WithoutNameIs(init, n, h);
      forall x | x in WithoutName(init, n) ensures LastTouch(h, x) > LastTouch(h, last) {
        var i :| 0 <= i < |init| && init[i] == x;
        assert names[i] == x;
      }
    }
  }

  lemma LastTouchAfter(h: seq<Mention>, e: Mention, n: string)
    ensures LastTouch(h + [e], n) == if e.name != n then LastTouch(h, n) else if e.Touch? then |h| else -1
  {
    assert (h + [e])[..|h|] == h;
  }

  lemma RemovalKeepsRecent(names: seq<string>, n: string, h: seq<Mention>)
    requires Recent(names, h)
    ensures Recent(WithoutName(names, n), h + [Removal(n)])
  {
    WithoutNameIs(names, n, h);
    forall x ensures LastTouch(h + [Removal(n)], x) == if x == n then -1 else LastTouch(h, x) {
      LastTouchAfter(h, Removal(n), x);
    }
  }

  lemma TouchKeepsRecent(names: seq<string>, n: string, h: seq<Mention>)
    requires Recent(names, h)
    ensures Recent([n] + WithoutName(names, n), h + [Touch(n)])
  {
    WithoutNameIs(names, n, h);
    forall x ensures LastTouch(h + [Touch(n)], x) == if x == n then |h| else LastTouch(h, x) {
      LastTouchAfter(h, Touch(n), x);
    }
  }

  function Names(cs: seq<Contact>): (ns: seq<string>)
    ensures |ns| == |cs|
  {
    seq(|cs|, i requires 0 <= i < |cs| => ToLower(cs[i].handle))
  }

  /** The filter by which both touching and removing take a contact out of the list. */
  function Without(cs: seq<Contact>, n: string): seq<Contact> {
    if cs == [] then []
    else
      var init, last := Without(cs[..|cs| - 1], n), cs[|cs| - 1];
      if ToLower(last.handle) == n then init else init + [last]
  }

  lemma {:induction false} NamesWithout(cs: seq<Contact>, n: string)
    ensures Names(Without(cs, n)) == WithoutName(Names(cs), n)
    ensures forall c :: c in Without(cs, n) ==> c in cs
    ensures n !in Names(cs) ==> Without(cs, n) == cs
  {
    if cs != [] {
      var init, last := cs[..|cs| - 1], cs[|cs| - 1];
      NamesWithout(init, n);
      assert Names(cs)[..|cs| - 1] == Names(init);
      assert cs == init + [last] && last in cs;
      assert n !in Names(cs) ==> Names(cs)[|cs| - 1] != n;
      assert forall x :: x in Names(init) ==> x in Names(cs);
      assert Names(Without(init, n) + [last]) == Names(Without(init, n)) + [ToLower(last.handle)];
    }
  }

  function Find(cs: seq<Contact>, n: string): (r: Option<Contact>)
    ensures r.None? <==> n !in Names(cs)
    ensures r.Some? ==> r.value in cs && ToLower(r.value.handle) == n
  {
    if cs == [] then None
    else if ToLower(cs[0].handle) == n then
      assert Names(cs)[0] == n;
      Some(cs[0])
    else
      assert Names(cs) == [ToLower(cs[0].handle)] + Names(cs[1..]);
      Find(cs[1..], n)
  }

  ghost predicate ContactList(contacts: seq<Contact>, mentions: seq<Mention>) {
    && Recent(Names(contacts), mentions)
    && forall c :: c in contacts ==> Trimmed(c.handle) && c.handle != ""
  }

  lemma NamesCons(c: Contact, cs: seq<Contact>)
    ensures Names([c] + cs) == [ToLower(c.handle)] + Names(cs)
  {
  }

  lemma TouchList(contacts: seq<Contact>, mentions: seq<Mention>, contact: Contact)
    requires ContactList(contacts, mentions) && Trimmed(contact.handle) && contact.handle != ""
    ensures var n, after := ToLower(contact.handle), [contact] + Without(contacts, ToLower(contact.handle));
            && ContactList(after, mentions + [Touch(n)])
            && (n !in Names(contacts) ==> Without(contacts, n) == contacts)
  {
    var n := ToLower(contact.handle);
    var rest := Without(contacts, n);
    NamesWithout(contacts, n);
    NamesCons(contact, rest);
    TouchKeepsRecent(Names(contacts), n, mentions);
    forall c | c in [contact] + rest ensures Trimmed(c.handle) && c.handle != "" {
      assert c == contact || c in rest;
    }
  }

  lemma RemoveList(contacts: seq<Contact>, mentions: seq<Mention>, n: string)
    requires ContactList(contacts, mentions)
    ensures ContactList(Without(contacts, n), mentions + [Removal(n)])
  {
    NamesWithout(contacts, n);
    WithoutNameIs(Names(contacts), n, mentions);
    RemovalKeepsRecent(Names(contacts), n, mentions);
  }

  /** A blank handle is nobody's. */
  function Touches(rawHandle: string): seq<Mention> {
    if TrimSpace(rawHandle) == "" then [] else [Touch(ToLower(TrimSpace(rawHandle)))]
  }

  predicate Listed(contacts: seq<Contact>, handle: string) {
    ToLower(handle) in Names(contacts)
  }

  /** The list with that contact in front. */
  function Touched(contacts: seq<Contact>, handle: string, displayName: string, fp: string, pk: string, text: string): seq<Contact> {
    [Refreshed(Find(contacts, ToLower(handle)), handle, displayName, fp, pk, text)] + Without(contacts, ToLower(handle))
  }

  lemma TouchedOk(contacts: seq<Contact>, mentions: seq<Mention>, handle: string, displayName: string, fp: string, pk: string, text: string)
    requires ContactList(contacts, mentions) && Trimmed(handle) && handle != ""
    ensures ContactList(Touched(contacts, handle, displayName, fp, pk, text), mentions + [Touch(ToLower(handle))])
    ensures Find(contacts, ToLower(handle)).None? ==> Without(contacts, ToLower(handle)) == contacts
  {
    var known := Find(contacts, ToLower(handle));
    TouchList(contacts, mentions, Refreshed(known, handle, displayName, fp, pk, text));
  }

  /** Touching one contact delists no other. */
  lemma StillListed(before: seq<Contact>, after: seq<Contact>, mentions: seq<Mention>, rawHandle: string, handle: string)
    requires ContactList(before, mentions) && ContactList(after, mentions + Touches(rawHandle))
    requires Listed(before, handle)
    ensures Listed(after, handle)
  {
    if TrimSpace(rawHandle) == "" {
      assert mentions + Touches(rawHandle) == mentions;
    } else {
      LastTouchAfter(mentions, Touch(ToLower(TrimSpace(rawHandle))), ToLower(handle));
    }
  }

  /** The open chat after the contact named `n` is gone. */
  function NextActive(contacts: seq<Contact>, active: string, n: string): string {
    if ToLower(active) != n then active else if contacts != [] then contacts[0].handle else ""
  }

  lemma NextListed(contacts: seq<Contact>, mentions: seq<Mention>, active: string, n: string)
    requires ContactList(contacts, mentions) && (active == "" || Listed(contacts, active))
    ensures var next := NextActive(Without(contacts, n), active, n); next == "" || Listed(Without(contacts, n), next)
  {
    var rest := Without(contacts, n);
    if ToLower(active) != n {
      NamesWithout(contacts, n);
      WithoutNameIs(Names(contacts), n, mentions);
    } else if rest != [] {
      assert Names(rest)[0] == ToLower(rest[0].handle);
    }
  }

  /** Contacts are stored trimmed, so a target with blanks around it is never a listed one. */
  lemma ListedIfTrimmed(after: seq<Contact>, mentions: seq<Mention>, rawHandle: string)
    requires ContactList(after, mentions + Touches(rawHandle))
    ensures rawHandle == "" || Listed(after, rawHandle) <==> Trimmed(rawHandle)
  {
    if Listed(after, rawHandle) {
      var i :| 0 <= i < |after| && Names(after)[i] == ToLower(rawHandle);
      TrimmedLower(after[i].handle, rawHandle);
    }
    if Trimmed(rawHandle) && rawHandle != "" {
      LastTouchAfter(mentions, Touch(ToLower(rawHandle)), ToLower(rawHandle));
    }
  }

  // ---- Any run of touches, selections and removals ----

  datatype Act =
    | Touching(rawHandle: string, displayName: string, fp: string, pk: string, text: string)
    | Selecting(handle: string)
    | Removing(handle: string)

  /** The contacts and the open chat, after one of the three methods and after a run of them. */
  datatype Sidebar = Sidebar(contacts: seq<Contact>, active: string)

  function Acted(s: Sidebar, a: Act): Sidebar {
    match a
    case Touching(h, name, fp, pk, text) =>
      if TrimSpace(h) == "" then s else s.(contacts := Touched(s.contacts, TrimSpace(h), name, fp, pk, text))
    case Selecting(h) => s.(active := h)
    case Removing(h) =>
      var rest := Without(s.contacts, ToLower(h));
      Sidebar(rest, NextActive(rest, s.active, ToLower(h)))
  }

  function ActedAll(acts: seq<Act>): Sidebar {
    if acts == [] then Sidebar([], "") else Acted(ActedAll(acts[..|acts| - 1]), acts[|acts| - 1])
  }

  function MentionsOf(acts: seq<Act>): seq<Mention> {
    if acts == [] then []
    else
      MentionsOf(acts[..|acts| - 1])
      + match acts[|acts| - 1]
        case Touching(h, _, _, _, _) => Touches(h)
        case Selecting(_) => []
        case Removing(h) => [Removal(ToLower(h))]
  }

  /** Only what is in the list can be selected. */
  predicate OffersOnly(acts: seq<Act>) {
    acts == []
    || (OffersOnly(acts[..|acts| - 1])
        && (acts[|acts| - 1].Selecting? ==> Listed(ActedAll(acts[..|acts| - 1]).contacts, acts[|acts| - 1].handle)))
  }

  predicate OpenListed(s: Sidebar) {
    s.active == "" || Listed(s.contacts, s.active)
  }

  lemma ActKeepsList(s: Sidebar, mentions: seq<Mention>, a: Act)
    requires ContactList(s.contacts, mentions)
    ensures ContactList(Acted(s, a).contacts, mentions + match a
              case Touching(h, _, _, _, _) => Touches(h)
              case Selecting(_) => []
              case Removing(h) => [Removal(ToLower(h))])
    ensures OpenListed(s) && (a.Selecting? ==> Listed(s.contacts, a.handle)) ==> OpenListed(Acted(s, a))
  {
    match a {
      case Touching(h, name, fp, pk, text) =>
        if TrimSpace(h) == "" {
          assert mentions + Touches(h) == mentions;
        } else {
          TouchedOk(s.contacts, mentions, TrimSpace(h), name, fp, pk, text);
          if Listed(s.contacts, s.active) {
            StillListed(s.contacts, Acted(s, a).contacts, mentions, h, s.active);
          }
        }
      case Selecting(_) => assert mentions + [] == mentions;
      case Removing(h) =>
        RemoveList(s.contacts, mentions, ToLower(h));
        if OpenListed(s) {
          NextListed(s.contacts, mentions, s.active, ToLower(h));
        }
    }
  }

  /** From an empty session, whatever is touched, selected and removed: the list is the recency order of the
      record, each contact once ignoring case, and the open chat, chosen from the list, stays a listed one. */
  lemma {:induction false} SidebarRun(acts: seq<Act>)
    ensures ContactList(ActedAll(acts).contacts, MentionsOf(acts))
    ensures OffersOnly(acts) ==> OpenListed(ActedAll(acts))
  {
    if acts != [] {
      var init := acts[..|acts| - 1];
      SidebarRun(init);
      ActKeepsList(ActedAll(init), MentionsOf(init), acts[|acts| - 1]);
    }
  }

  lemma AfterTouch(before: seq<Contact>, after: seq<Contact>, mentions: seq<Mention>, rawHandle: string, active: string)
    requires ContactList(before, mentions) && ContactList(after, mentions + Touches(rawHandle))
    ensures active == "" || Listed(before, active) ==> active == "" || Listed(after, active)
    ensures rawHandle == "" || Listed(after, rawHandle) <==> Trimmed(rawHandle)
  {
    ListedIfTrimmed(after, mentions, rawHandle);
    if Listed(before, active) {
      StillListed(before, after, mentions, rawHandle, active);
    }
  }

  lemma AfterBlank(contacts: seq<Contact>, mentions: seq<Mention>, rawHandle: string)
    requires ContactList(contacts, mentions) && TrimSpace(rawHandle) == ""
    ensures mentions + Touches(rawHandle) == mentions
    ensures rawHandle == "" || Listed(contacts, rawHandle) <==> Trimmed(rawHandle)
  {
    assert mentions + [] == mentions;
    ListedIfTrimmed(contacts, mentions, rawHandle);
  }

  /** A handle and its lower-cased form are trimmed alike. */
  lemma TrimmedLower(a: string, b: string)
    requires ToLower(a) == ToLower(b)
    ensures Trimmed(a) <==> Trimmed(b)
  {
    assert |a| == |ToLower(a)| == |ToLower(b)| == |b|;
    if a != [] {
      assert LowerChar(a[0]) == ToLower(a)[0] == LowerChar(b[0]);
      assert LowerChar(a[|a| - 1]) == ToLower(a)[|a| - 1] == LowerChar(b[|a| - 1]);
    }
  }

  /** The IDs stored, in order, are those seen, and none was stored twice. */
  ghost predicate EachOnce(named: seq<string>, seen: set<string>) {
    if named == [] then seen == {}
    else named[|named| - 1] in seen && EachOnce(named[..|named| - 1], seen - {named[|named| - 1]})
  }

  lemma {:induction false} StoredTwiceNever(named: seq<string>, seen: set<string>, i: nat, j: nat)
    requires EachOnce(named, seen) && i < j < |named|
    ensures named[i] != named[j] && named[j] in seen
  {
    var n := |named| - 1;
    if j < n {
      StoredTwiceNever(named[..n], seen - {named[n]}, i, j);
    } else if i < n {
      StoredIsSeen(named[..n], seen - {named[n]}, i);
    }
  }

  lemma {:induction false} StoredIsSeen(named: seq<string>, seen: set<string>, i: nat)
    requires EachOnce(named, seen) && i < |named|
    ensures named[i] in seen
  {
    if i < |named| - 1 {
      StoredIsSeen(named[..|named| - 1], seen - {named[|named| - 1]}, i);
    }
  }

  lemma StoredOnce(named: seq<string>, seen: set<string>, id: string)
    requires EachOnce(named, seen) && id !in seen
    ensures EachOnce(named + [id], seen + {id})
  {
    assert (named + [id])[..|named|] == named && seen + {id} - {id} == seen;
  }

  predicate StartsWithHash(s: string) {
    s != [] && s[0] == '#'
  }

  function OrElse(a: string, b: string): string {
    if a != "" then a else b
  }

  /** The contact as touching leaves it: its first spelling stays. */
  function Refreshed(known: Option<Contact>, handle: string, displayName: string, fp: string, pk: string, text: string): Contact {
    var shown := if TrimSpace(displayName) != "" then TrimSpace(displayName) else handle;
    match known
    case None => Contact(handle, shown, OrElse(fp, "Verified"), pk, text)
    case Some(c) => Contact(c.handle, shown, OrElse(fp, c.fingerprint), OrElse(pk, c.publicKey), OrElse(text, c.lastMessage))
  }

  /** The lifetime of messages in a conversation that has none of its own set. */
  function MainTTL(convTTL: map<string, int>, defaultTTL: int, handle: string): int {
    if handle != "" && handle in convTTL && convTTL[handle] != 0 then convTTL[handle]
    else if defaultTTL != 0 then defaultTTL else 300
  }

  /** The conversation an event belongs to. */
  function Target(data: Event, activeTarget: string): string {
    if data.isGroup || StartsWithHash(data.group) then data.group else OrElse(data.sender, activeTarget)
  }

  const CLIP := "\U{1F4CE} "

  /** The text that is stored and listed: of a file its name alone. */
  function Preview(text: string, file: Option<Attachment>): string {
    match file
    case Some(f) => CLIP + OrElse(f.name, OrElse(f.filename, "attachment"))
    case None => text
  }

  /** The message an event becomes. */
  function Incoming(data: Event, file: Option<Attachment>, activeTarget: string, mainTTL: int, myHandle: string,
                    now: int, localId: string): (m: Message)
    ensures m.expiresAt == now + m.ttl * 1000
  {
    var ttl := if data.ttl != 0 then data.ttl else mainTTL;
    var sender := OrElse(data.sender, activeTarget);
    Message(OrElse(data.id, localId), sender, Preview(data.text, file), ttl, now + ttl * 1000, ToLower(sender) == ToLower(myHandle))
  }

  /** The message that is sent. A lifetime chosen for messages goes before the conversation's. */
  function Outgoing(text: string, customTTL: int, mainTTL: int, myHandle: string, now: int, localId: string): (m: Message)
    ensures m.expiresAt == now + m.ttl * 1000
  {
    var ttl := if customTTL > 0 then customTTL else mainTTL;
    Message(localId, myHandle, text, ttl, now + ttl * 1000, true)
  }

  // ---- Whose message it is, where it goes and how long it lives ----

  /** A group's event goes to the group, any other to its sender, or to the open chat if it names none. */
  lemma EventGoesTo(data: Event, active: string)
    ensures data.isGroup || (data.group != "" && data.group[0] == '#') ==> Target(data, active) == data.group
    ensures !data.isGroup && (data.group == "" || data.group[0] != '#') ==>
              Target(data, active) == if data.sender == "" then active else data.sender
  {
  }

  /** Its own lifetime goes before the conversation's, in seconds from now; it counts as one's own if the sender is,
      ignoring case; and of a file only a name is shown. */
  lemma EventBecomes(data: Event, file: Option<Attachment>, active: string, mainTTL: int, me: string, now: int, localId: string)
    ensures var m := Incoming(data, file, active, mainTTL, me, now, localId);
            && m.id == (if data.id == "" then localId else data.id)
            && m.sender == (if data.sender == "" then active else data.sender)
            && m.ttl == (if data.ttl == 0 then mainTTL else data.ttl) && m.expiresAt == now + 1000 * m.ttl
            && (m.isOutgoing <==> ToUpper(m.sender) == ToUpper(me))
            && (file.None? ==> m.text == data.text)
            && (file.Some? && file.value.name != "" ==> m.text == "\U{1F4CE} " + file.value.name)
            && (file.Some? && file.value.name == "" && file.value.filename != "" ==> m.text == "\U{1F4CE} " + file.value.filename)
            && (file == Some(Attachment("", "")) ==> m.text == "\U{1F4CE} attachment")
  {
    CaseFolding(OrElse(data.sender, active), me);
  }

  /** A lifetime chosen for messages goes before the conversation's, that before the session's, and 300 seconds are
      for want of any. */
  lemma LifetimeOrder(text: string, custom: int, convTTL: map<string, int>, defaultTTL: int, k: string, me: string, now: int, id: string)
    ensures var main := MainTTL(convTTL, defaultTTL, k);
            var m := Outgoing(text, custom, main, me, now, id);
            && (k != "" && k in convTTL && convTTL[k] != 0 ==> main == convTTL[k])
            && (k == "" || k !in convTTL || convTTL[k] == 0 ==> main == if defaultTTL == 0 then 300 else defaultTTL)
            && m.text == text && m.id == id && m.sender == me && m.isOutgoing
            && m.ttl == (if custom <= 0 then main else custom) && m.expiresAt == now + 1000 * m.ttl
  {
  }

  /** What touching shows: the first contact is the touched one, in its first spelling, with what is new of its
      details; a known one keeps what is not given again. The others keep everything. */
  lemma TouchedDetails(contacts: seq<Contact>, h: string, name: string, fp: string, pk: string, text: string, known: Contact)
    ensures var after := Touched(contacts, h, name, fp, pk, text);
            && after[0].displayName == (if TrimSpace(name) == "" then h else TrimSpace(name))
            && (!Listed(contacts, h) ==>
                  after[0] == Contact(h, after[0].displayName, if fp == "" then "Verified" else fp, pk, text) && after[1..] == contacts)
            && (known in contacts && ToLower(known.handle) == ToLower(h) && OneEach(contacts) ==>
                  && after[0].handle == known.handle
                  && after[0].fingerprint == (if fp == "" then known.fingerprint else fp)
                  && after[0].publicKey == (if pk == "" then known.publicKey else pk)
                  && after[0].lastMessage == (if text == "" then known.lastMessage else text))
            && (known in after[1..] <==> known in contacts && ToLower(known.handle) != ToLower(h))
  {
    var n := ToLower(h);
    NamesWithout(contacts, n);
    WithoutHolds(contacts, n, known);
    if known in contacts && ToLower(known.handle) == n && OneEach(contacts) {
      FindIs(contacts, known);
    }
  }

  lemma {:induction false} FindIs(contacts: seq<Contact>, known: Contact)
    requires known in contacts && OneEach(contacts)
    ensures Find(contacts, ToLower(known.handle)) == Some(known)
  {
    var i :| 0 <= i < |contacts| && contacts[i] == known;
    assert Names(contacts)[i] == ToLower(known.handle) && Names(contacts)[0] == ToLower(contacts[0].handle);
    if i > 0 {
      assert contacts[1..][i - 1] == known;
      assert forall j :: 0 <= j < |contacts| - 1 ==> Names(contacts[1..])[j] == Names(contacts)[j + 1];
      FindIs(contacts[1..], known);
    }
  }

  lemma ListedOnce(contacts: seq<Contact>, mentions: seq<Mention>)
    requires ContactList(contacts, mentions)
    ensures OneEach(contacts)
  {
  }

  /** No two contacts share a name. */
  predicate OneEach(contacts: seq<Contact>) {
    forall i, j :: 0 <= i < j < |contacts| ==> Names(contacts)[i] != Names(contacts)[j]
  }

  lemma {:induction false} WithoutHolds(cs: seq<Contact>, n: string, c: Contact)
    ensures c in Without(cs, n) <==> c in cs && ToLower(c.handle) != n
  {
    if cs != [] {
      WithoutHolds(cs[..|cs| - 1], n, c);
      assert cs == cs[..|cs| - 1] + [cs[|cs| - 1]];
    }
  }

  /** The message is at the end of that conversation, which is also pruned if this opens it; the others are as
      they were. */
  ghost predicate Arrived(before: map<string, seq<Message>>, after: map<string, seq<Message>>, k: string, m: Message,
                          opens: bool, now: int) {
    && k in after && after == before[k := after[k]]
    && if opens then PrunedTo(Conversation(before, k) + [m], after[k], now) else after[k] == Conversation(before, k) + [m]
  }

  class Session {
    const myHandle: string
    var activeTarget: string
    var customMsgTTL: int
    var defaultTTL: int
    var convTTL: map<string, int>
    var contacts: seq<Contact>
    var conversations: map<string, seq<Message>>
    var seen: set<string>

    /** Every touch and removal; the past of each conversation; the IDs of the messages ever stored, other
        than those that came without one; and the last time read. */
    ghost var mentions: seq<Mention>
    ghost var past: map<string, Past>
    ghost var named: seq<string>
    ghost var clock: int

    ghost predicate Valid()
      reads this
    {
      ContactList(contacts, mentions) && AllFollow(conversations, past, clock) && EachOnce(named, seen)
    }

    /** No chat is open, or one with a listed contact. */
    predicate ActiveListed()
      reads this
    {
      activeTarget == "" || Listed(contacts, activeTarget)
    }

    constructor (myHandle: string)
      ensures Valid() && ActiveListed() && this.myHandle == myHandle
      ensures contacts == [] && conversations == map[] && seen == {} && mentions == [] && past == map[] && named == []
    {
      this.myHandle := myHandle;
      activeTarget, customMsgTTL, defaultTTL, convTTL := "", 0, 300, map[];
      contacts, conversations, seen := [], map[], {};
      mentions, past, named, clock := [], map[], [], 0;
    }

    /** A blank handle is ignored; any other is moved to the front of the list, or added there. */
    method TouchContact(rawHandle: string, text: string, rawDisplayName: string, fp: string, pk: string)
      requires Valid()
      modifies this`contacts, this`mentions
      ensures Valid()
      ensures mentions == old(mentions) + Touches(rawHandle)
      ensures contacts == if TrimSpace(rawHandle) == "" then old(contacts)
                          else Touched(old(contacts), TrimSpace(rawHandle), rawDisplayName, fp, pk, text)
      ensures old(ActiveListed()) ==> ActiveListed()
      ensures rawHandle == "" || Listed(contacts, rawHandle) <==> Trimmed(rawHandle)
    {
      var handle := TrimSpace(rawHandle);
      if handle == "" {
        AfterBlank(contacts, mentions, rawHandle);
        return;
      }
      MoveToFront(handle, text, rawDisplayName, fp, pk);
      AfterTouch(old(contacts), contacts, old(mentions), rawHandle, activeTarget);
    }

    method MoveToFront(handle: string, text: string, rawDisplayName: string, fp: string, pk: string)
      requires Valid() && Trimmed(handle) && handle != ""
      modifies this`contacts, this`mentions
      ensures Valid()
      ensures mentions == old(mentions) + [Touch(ToLower(handle))]
      ensures contacts == Touched(old(contacts), handle, rawDisplayName, fp, pk, text)
    {
      TouchedOk(contacts, mentions, handle, rawDisplayName, fp, pk, text);
      mentions := mentions + [Touch(ToLower(handle))];
      var existing := Find(contacts, ToLower(handle));
      var contact := Refreshed(existing, handle, rawDisplayName, fp, pk, text);
      if existing.None? {
        contacts := [contact] + contacts;
      } else {
        contacts := [contact] + Without(contacts, ToLower(handle));
      }
    }

    method PruneConversation(key: string, now: int)
      requires Valid() && now >= clock
      modifies this`conversations, this`past, this`clock
      ensures Valid() && clock == now
      ensures past == old(past)[key := Pruned(PastOf(old(past), key, now), now)]
      ensures Drawn(old(conversations), conversations, key, now)
    {
      clock := now;
      var msgs := if key in conversations then conversations[key] else [];
      ghost var p := PastOf(past, key, now);
      PruneFollows(msgs, p, now);
      KeptIsPruned(msgs, now);
      FollowUpdate(conversations, past, now, key, Kept(msgs, now), Pruned(p, now), now);
      past := past[key := Pruned(p, now)];
      conversations := conversations[key := Kept(msgs, now)];
    }

    /** Drawing the open conversation prunes it first. */
    method RenderActiveConversation(now: int)
      requires Valid() && now >= clock
      modifies this`conversations, this`past, this`clock
      ensures Valid() && clock == now
      ensures past == if activeTarget == "" || contacts == [] then old(past)
                      else old(past)[activeTarget := Pruned(PastOf(old(past), activeTarget, now), now)]
      ensures activeTarget == "" || contacts == [] ==> conversations == old(conversations)
      ensures activeTarget != "" && contacts != [] ==>
                Drawn(old(conversations), conversations, activeTarget, now)
    {
      if activeTarget == "" || |contacts| == 0 {
        clock := now;
        return;
      }
      PruneConversation(activeTarget, now);
    }

    method SelectContact(handle: string, now: int)
      requires Valid() && now >= clock
      modifies this`activeTarget, this`customMsgTTL, this`conversations, this`past, this`clock
      ensures Valid() && clock == now && activeTarget == handle && customMsgTTL == 0
      ensures ActiveListed() <==> handle == "" || Listed(contacts, handle)
      ensures past == if handle == "" || contacts == [] then old(past)
                      else old(past)[handle := Pruned(PastOf(old(past), handle, now), now)]
      ensures handle == "" || contacts == [] ==> conversations == old(conversations)
      ensures handle != "" && contacts != [] ==>
                Drawn(old(conversations), conversations, handle, now)
    {
      activeTarget := handle;
      customMsgTTL := 0;
      RenderActiveConversation(now);
    }

    method DropConversation(handle: string)
      requires Valid()
      modifies this`conversations, this`convTTL, this`past
      ensures Valid()
      ensures convTTL == old(convTTL) - {handle} && past == old(past) - {handle}
      ensures conversations == old(conversations) - {handle}
    {
      FollowRemove(conversations, past, clock, handle);
      conversations := conversations - {handle};
      past := past - {handle};
      convTTL := convTTL - {handle};
    }

    method DropContact(norm: string)
      requires Valid()
      modifies this`contacts, this`mentions
      ensures Valid()
      ensures mentions == old(mentions) + [Removal(norm)]
      ensures contacts == Without(old(contacts), norm)
    {
      RemoveList(contacts, mentions, norm);
      contacts := Without(contacts, norm);
      mentions := mentions + [Removal(norm)];
    }

    /** The contact goes in any spelling; the conversation only under the spelling given. If it was open, the
        next contact is opened instead. */
    method RemoveCorrespondence(handle: string, now: int)
      requires Valid() && now >= clock
      modifies this`activeTarget, this`contacts, this`conversations, this`convTTL, this`mentions, this`past, this`clock
      ensures Valid() && clock == now
      ensures mentions == old(mentions) + [Removal(ToLower(handle))]
      ensures activeTarget == if ToLower(old(activeTarget)) != ToLower(handle) then old(activeTarget)
                              else if contacts != [] then contacts[0].handle else ""
      ensures old(ActiveListed()) ==> ActiveListed()
      ensures past == if activeTarget == "" || contacts == [] then old(past) - {handle}
                      else (old(past) - {handle})[activeTarget := Pruned(PastOf(old(past) - {handle}, activeTarget, now), now)]
      ensures if activeTarget == "" || contacts == [] then conversations == old(conversations) - {handle}
              else Drawn(old(conversations) - {handle}, conversations, activeTarget, now)
      ensures contacts == Without(old(contacts), ToLower(handle)) && convTTL == old(convTTL) - {handle}
    {
      var norm := ToLower(handle);
      if ActiveListed() { NextListed(contacts, mentions, activeTarget, norm); }
      DropContact(norm);
      DropConversation(handle);
      if ToLower(activeTarget) == norm {
        activeTarget := if |contacts| > 0 then contacts[0].handle else "";
      }
      RenderActiveConversation(now);
    }

    method Append(key: string, msg: Message, now: int)
      requires Valid() && now >= clock && msg.expiresAt == now + msg.ttl * 1000
      modifies this`conversations, this`past, this`clock
      ensures Valid() && clock == now
      ensures past == old(past)[key := Appended(PastOf(old(past), key, now), msg)]
      ensures conversations == old(conversations)[key := Conversation(old(conversations), key) + [msg]]
    {
      ghost var p := PastOf(past, key, now);
      var list := if key in conversations then conversations[key] else [];
      AppendFollows(list, p, msg, now);
      FollowUpdate(conversations, past, clock, key, list + [msg], Appended(p, msg), now);
      clock := now;
      conversations := conversations[key := list + [msg]];
      past := past[key := Appended(p, msg)];
    }

    /** A new message goes to the end of its conversation and its contact to the front. */
    method Record(targetKey: string, msg: Message, now: int)
      requires Valid() && now >= clock && msg.expiresAt == now + msg.ttl * 1000
      modifies this`conversations, this`past, this`clock, this`contacts, this`mentions
      ensures Valid() && clock == now
      ensures mentions == old(mentions) + Touches(targetKey)
      ensures past == old(past)[targetKey := Appended(PastOf(old(past), targetKey, now), msg)]
      ensures conversations == old(conversations)[targetKey := Conversation(old(conversations), targetKey) + [msg]]
      ensures contacts == if TrimSpace(targetKey) == "" then old(contacts)
                          else Touched(old(contacts), TrimSpace(targetKey), targetKey, "", "", msg.text)
      ensures Listed(old(contacts), activeTarget) ==> Listed(contacts, activeTarget)
    {
      Append(targetKey, msg, now);
      TouchContact(targetKey, msg.text, targetKey, "", "");
      if Listed(old(contacts), activeTarget) {
        StillListed(old(contacts), contacts, old(mentions), targetKey, activeTarget);
      }
    }

    /** The conversation is also opened if none is. */
    method Receive(targetKey: string, msg: Message, now: int)
      requires Valid() && now >= clock && msg.expiresAt == now + msg.ttl * 1000
      modifies this`conversations, this`past, this`clock, this`contacts, this`mentions, this`activeTarget, this`customMsgTTL
      ensures Valid() && clock == now
      ensures mentions == old(mentions) + Touches(targetKey)
      ensures activeTarget == OrElse(old(activeTarget), targetKey)
      ensures past == old(past)[targetKey :=
                AfterArrival(PastOf(old(past), targetKey, now), msg, old(activeTarget) == "" && targetKey != "" && contacts != [], now)]
      ensures Arrived(old(conversations), conversations, targetKey, msg, old(activeTarget) == "" && targetKey != "" && contacts != [], now)
      ensures contacts == if TrimSpace(targetKey) == "" then old(contacts)
                          else Touched(old(contacts), TrimSpace(targetKey), targetKey, "", "", msg.text)
      ensures old(activeTarget) != "" && old(ActiveListed()) ==> ActiveListed()
      ensures old(activeTarget) == "" ==> (ActiveListed() <==> Trimmed(targetKey))
    {
      Record(targetKey, msg, now);
      if activeTarget == "" {
        ghost var p, mid := past[targetKey], conversations;
        SelectContact(targetKey, now);
        UpdateTwiceMore(old(conversations), targetKey, mid[targetKey], conversations);
        UpdateTwice(old(past), targetKey, p, Pruned(p, now));
        ListedIfTrimmed(contacts, old(mentions), targetKey);
      }
    }

    /** An event is stored unless it is empty or its ID was seen before; then it goes to the end of its
        conversation. `file` is what a JSON parser makes of its text. */
    method OnMessage(data: Event, file: Option<Attachment>, now: int, localId: string) returns (stored: bool)
      requires Valid() && now >= clock
      modifies this
      ensures Valid()
      ensures stored <==> (data.text != "" || data.isFile) && (data.id == "" || data.id !in old(seen))
      ensures !stored ==> past == old(past) && named == old(named) && mentions == old(mentions)
                          && contacts == old(contacts) && conversations == old(conversations) && activeTarget == old(activeTarget)
      ensures stored ==> named == old(named) + (if data.id != "" then [data.id] else [])
      ensures stored ==>
                var key := Target(data, old(activeTarget));
                var m := Incoming(data, file, old(activeTarget), MainTTL(old(convTTL), old(defaultTTL), key), myHandle, now, localId);
                && mentions == old(mentions) + Touches(key)
                && activeTarget == OrElse(old(activeTarget), key)
                && past == old(past)[key :=
                     AfterArrival(PastOf(old(past), key, now), m, old(activeTarget) == "" && key != "" && contacts != [], now)]
                && (if old(activeTarget) == "" then ActiveListed() <==> Trimmed(key) else old(ActiveListed()) ==> ActiveListed())
                && Arrived(old(conversations), conversations, key, m, old(activeTarget) == "" && key != "" && contacts != [], now)
                && contacts == (if TrimSpace(key) == "" then old(contacts)
                                else Touched(old(contacts), TrimSpace(key), key, "", "", m.text))
    {
      if data.text == "" && !data.isFile {
        return false;
      }
      if data.id != "" && data.id in seen {
        return false;
      }
      Remember(data.id);
      var targetKey := Target(data, activeTarget);
      var msg := Incoming(data, file, activeTarget, MainTTL(convTTL, defaultTTL, targetKey), myHandle, now, localId);
      Receive(targetKey, msg, now);
      stored := true;
    }

    /** Sending stores the message locally at once, under a new local ID, in the open conversation. */
    method SendMessage(rawText: string, now: int, localId: string) returns (sent: bool)
      requires Valid() && now >= clock && localId !in seen && localId != ""
      modifies this`conversations, this`past, this`clock, this`contacts, this`mentions, this`seen, this`named
      ensures Valid()
      ensures sent <==> TrimSpace(rawText) != "" && activeTarget != ""
      ensures !sent ==> past == old(past) && named == old(named) && mentions == old(mentions) && contacts == old(contacts)
      ensures sent ==>
                var m := Outgoing(TrimSpace(rawText), old(customMsgTTL), old(MainTTL(convTTL, defaultTTL, activeTarget)),
                                  myHandle, now, localId);
                && named == old(named) + [localId]
                && mentions == old(mentions) + Touches(activeTarget)
                && past == old(past)[old(activeTarget) := Appended(PastOf(old(past), old(activeTarget), now), m)]
                && conversations == old(conversations)[activeTarget := Conversation(old(conversations), activeTarget) + [m]]
                && contacts == (if TrimSpace(activeTarget) == "" then old(contacts)
                                else Touched(old(contacts), TrimSpace(activeTarget), activeTarget, "", "", m.text))
      ensures old(ActiveListed()) ==> ActiveListed()
    {
      var text := TrimSpace(rawText);
      if text == "" || activeTarget == "" {
        return false;
      }
      var mainTTL := MainTTL(convTTL, defaultTTL, activeTarget);
      var msg := Outgoing(text, customMsgTTL, mainTTL, myHandle, now, localId);
      Remember(localId);
      Record(activeTarget, msg, now);
      sent := true;
    }

    method Remember(id: string)
      requires Valid() && (id != "" ==> id !in seen)
      modifies this`seen, this`named
      ensures Valid()
      ensures named == old(named) + (if id != "" then [id] else [])
    {
      if id != "" {
        StoredOnce(named, seen, id);
        seen := seen + {id};
        named := named + [id];
      } else {
        assert named + [] == named;
      }
    }

    /** The pruner: every conversation is pruned. */
    method PruneExpired(now: int)
      requires Valid() && now >= clock
      modifies this`conversations, this`past, this`clock
      ensures Valid() && clock == now
      ensures past == PrunedBut(old(past), {}, now)
      ensures DrawnBut(old(conversations), conversations, {}, now)
      ensures forall k, m :: k in conversations && m in conversations[k] ==> m.expiresAt == 0 || now < m.expiresAt
    {
      clock := now;
      var todo := conversations.Keys;
      while todo != {}
        invariant Valid() && clock == now && todo <= old(past).Keys
        invariant past == PrunedBut(old(past), todo, now)
        invariant DrawnBut(old(conversations), conversations, todo, now)
      {
        var target :| target in todo;
        PrunedOneMore(old(past), todo, target, now);
        ghost var mid := conversations;
        PruneConversation(target, now);
        DrawnOneMore(old(conversations), mid, conversations, todo, target, now);
        todo := todo - {target};
      }
      AllLive(old(conversations), conversations, now);
    }
  }
}
