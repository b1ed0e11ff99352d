/** The Redis commands the relay issues, each as a function on the database. Time is an abstract clock;
    a key whose deadline has come is gone. Strings, lists, sets and hashes live under key names that
    never coincide (see KeyNamesDiffer in RelayStore), so each kind has its own map. */
module Redis {
  import opened Ascii
  import opened Base64

  /** A queued message: the JSON event, taken as the record it stands for. */
  datatype Envelope = Envelope(id: string, ciphertext: bytes, sender: string)

  datatype Cell<+V> = Cell(value: V, deadline: Option<int>)

  datatype Db = Db(
    now: int,
    strings: map<string, Cell<bytes>>,
    lists: map<string, Cell<seq<Envelope>>>,
    sets: map<string, Cell<set<string>>>,
    hashes: map<string, map<string, string>>)

  const EMPTY := Db(0, map[], map[], map[], map[])

  /** A list is never empty, and no deadline has passed. */
  predicate Live(db: Db) {
    && (forall k :: k in db.lists ==> db.lists[k].value != [])
    && (forall k :: k in db.strings ==> Pending(db.strings[k].deadline, db.now))
    && (forall k :: k in db.lists ==> Pending(db.lists[k].deadline, db.now))
    && (forall k :: k in db.sets ==> Pending(db.sets[k].deadline, db.now))
  }

  predicate Pending(deadline: Option<int>, now: int) {
    deadline.Some? ==> now < deadline.value
  }

  // ---- Strings ----

  function SetNX(db: Db, k: string, v: bytes, ttl: int): (Db, bool) {
    if k in db.strings then (db, false)
    else (db.(strings := db.strings[k := Cell(v, if ttl > 0 then Some(db.now + ttl) else None)]), true)
  }

  function Get(db: Db, k: string): Option<bytes> {
    if k in db.strings then Some(db.strings[k].value) else None
  }

  function GetDel(db: Db, k: string): (Db, Option<bytes>) {
    (db.(strings := db.strings - {k}), Get(db, k))
  }

  // ---- Lists and sets ----

  function RPush(db: Db, k: string, m: Envelope): Db {
    var cell := if k in db.lists then db.lists[k].(value := db.lists[k].value + [m]) else Cell([m], None);
    db.(lists := db.lists[k := cell])
  }

  function LRange(db: Db, k: string): seq<Envelope> {
    if k in db.lists then db.lists[k].value else []
  }

  function SAdd(db: Db, k: string, x: string): Db {
    var cell := if k in db.sets then db.sets[k].(value := db.sets[k].value + {x}) else Cell({x}, None);
    db.(sets := db.sets[k := cell])
  }

  /** Removing the last member removes the set. */
  function SRem(db: Db, k: string, x: string): Db {
    if k !in db.sets then db
    else if db.sets[k].value - {x} == {} then db.(sets := db.sets - {k})
    else db.(sets := db.sets[k := db.sets[k].(value := db.sets[k].value - {x})])
  }

  function SMembers(db: Db, k: string): set<string> {
    if k in db.sets then db.sets[k].value else {}
  }

  // ---- Hashes ----

  function HGetAll(db: Db, k: string): map<string, string> {
    if k in db.hashes then db.hashes[k] else map[]
  }

  function HSet(db: Db, k: string, field: string, v: string): Db {
    db.(hashes := db.hashes[k := HGetAll(db, k)[field := v]])
  }

  function HSetNX(db: Db, k: string, field: string, v: string): (Db, bool) {
    if field in HGetAll(db, k) then (db, false) else (HSet(db, k, field, v), true)
  }

  // ---- Any key ----

  function Del(db: Db, k: string): Db {
    db.(strings := db.strings - {k}, lists := db.lists - {k}, sets := db.sets - {k}, hashes := db.hashes - {k})
  }

  /** A deadline for a list or a set, whichever the key holds. */
  function Expire(db: Db, k: string, ttl: int): Db {
    if ttl <= 0 then Del(db, k)
    else
      var d := Some(db.now + ttl);
      db.(lists := if k in db.lists then db.lists[k := db.lists[k].(deadline := d)] else db.lists,
          sets := if k in db.sets then db.sets[k := db.sets[k].(deadline := d)] else db.sets)
  }

  function Keys(db: Db, pattern: string): set<string> {
    set k | k in db.strings.Keys + db.lists.Keys + db.sets.Keys + db.hashes.Keys && Glob(pattern, k)
  }

  function FlushDB(db: Db): Db {
    db.(strings := map[], lists := map[], sets := map[], hashes := map[])
  }

  /** The clock moves on and what has expired is gone. */
  function Advance(db: Db, t: int): Db {
    db.(now := t,
        strings := map k | k in db.strings && Pending(db.strings[k].deadline, t) :: db.strings[k],
        lists := map k | k in db.lists && Pending(db.lists[k].deadline, t) :: db.lists[k],
        sets := map k | k in db.sets && Pending(db.sets[k].deadline, t) :: db.sets[k])
  }

  /** EXPIRE: a lifetime that is not positive deletes the key; any other sets the deadline of what is there and
      touches nothing else. SREM: a set whose last member goes, goes too. */
  lemma ExpiredOrDue(db: Db, k: string, ttl: int, j: string)
    ensures var after := Expire(db, k, ttl);
            && (ttl <= 0 ==> k !in after.strings && k !in after.lists && k !in after.sets && k !in after.hashes)
            && (ttl > 0 && k in db.lists ==> k in after.lists && after.lists[k] == Cell(db.lists[k].value, Some(db.now + ttl)))
            && (ttl > 0 && k in db.sets ==> k in after.sets && after.sets[k] == Cell(db.sets[k].value, Some(db.now + ttl)))
            && (j != k ==> (j in after.lists <==> j in db.lists) && (j in db.lists ==> after.lists[j] == db.lists[j]))
            && (j != k ==> (j in after.sets <==> j in db.sets) && (j in db.sets ==> after.sets[j] == db.sets[j]))
  {
  }

  lemma MemberRemoved(db: Db, k: string, x: string, j: string)
    ensures var after := SRem(db, k, x);
            && SMembers(after, k) == SMembers(db, k) - {x}
            && (k in after.sets <==> k in db.sets && SMembers(after, k) != {})
            && (k in after.sets ==> after.sets[k].deadline == db.sets[k].deadline)
            && (j != k ==> SMembers(after, j) == SMembers(db, j))
  {
  }

  // ---- Glob patterns, as the documentation of KEYS defines them ----

  /** Does the bracket class that starts `p` contain `c`, and what follows the class? */
  function InClass(p: string, c: char): (r: (bool, string))
    ensures |r.1| <= |p|
  {
    if p == [] then (false, [])
    else if p[0] == ']' then (false, p[1..])
    else if p[0] == '\\' && |p| >= 2 then
      var r := InClass(p[2..], c); (r.0 || p[1] == c, r.1)
    else if |p| >= 3 && p[1] == '-' then
      var r := InClass(p[3..], c); (r.0 || p[0] <= c <= p[2] || p[2] <= c <= p[0], r.1)
    else
      var r := InClass(p[1..], c); (r.0 || p[0] == c, r.1)
  }

  predicate Glob(p: string, s: string)
    decreases |p| + |s|
  {
    if p == [] then s == []
    else if p[0] == '*' then Glob(p[1..], s) || (s != [] && Glob(p, s[1..]))
    else if s == [] then false
    else if p[0] == '?' then Glob(p[1..], s[1..])
    else if p[0] == '[' then
      var negated := |p| >= 2 && p[1] == '^';
      var r := InClass(if negated then p[2..] else p[1..], s[0]);
      r.0 != negated && Glob(r.1, s[1..])
    else if p[0] == '\\' && |p| >= 2 then p[1] == s[0] && Glob(p[2..], s[1..])
    else p[0] == s[0] && Glob(p[1..], s[1..])
  }

  predicate GlobFree(s: string) {
    forall c :: c in s ==> c != '*' && c != '?' && c != '[' && c != '\\'
  }

  lemma {:induction false} StarMatchesAll(s: string)
    ensures Glob("*", s)
  {
    assert "*"[1..] == [];
    if s != [] {
      StarMatchesAll(s[1..]);
    }
  }

  /** A literal prefix before a final star matches exactly the keys that start with it. */
  lemma {:induction false} PrefixPattern(p: string, s: string)
    requires GlobFree(p)
    ensures Glob(p + "*", s) <==> p <= s
  {
    if p == [] {
      assert p + "*" == "*";
      StarMatchesAll(s);
    } else {
      assert p[0] in p && (p + "*")[0] == p[0];
      if s != [] {
        assert forall c :: c in p[1..] ==> c in p;
        assert (p + "*")[1..] == p[1..] + "*";
        PrefixPattern(p[1..], s[1..]);
        assert p == [p[0]] + p[1..] && s == [s[0]] + s[1..];
      }
    }
  }
}
