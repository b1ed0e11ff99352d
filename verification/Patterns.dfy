/** Which recipients a full drain is safe for. The key scan takes the recipient as part of a glob pattern, and the
    index names senders without quoting, so a handle with a special character or a colon reaches too much or
    too little; this module shows that exactly the ordinary ones reach their own queues and no others. */
module Patterns {
  import opened Ascii
  import opened Redis
  import opened RelayStore

  /** The end of a scan pattern, and of the name of a queue. */
  function Scan(v: string): string {
    v + ":*"
  }

  function Text(x: string, s: string): string {
    x + ":" + s
  }

  /** On that database, a drain of `rec` reaches the queue from sender `s` to `r`, a handle without colons, just if it
      is its own. */
  ghost predicate KeepsToOwn(db: Db, rec: string, r: string, s: string) {
    ColonFree(r) && s != "" ==> (Reached(db, rec, InboxName(r, s)) <==> r == rec)
  }

  /** Among the queues of handles without colons a recipient's drain keeps to its own, on every database, exactly
      when the recipient has neither a colon nor a character special to glob patterns. (What it takes from
      handles with colons is in `RelayStore.ReachedIff`.) */
  lemma OwnQueuesOnlyIff(rec: string)
    ensures (forall db, r, s :: KeepsToOwn(db, rec, r, s)) <==> GlobFree(rec) && ColonFree(rec)
  {
    if !ColonFree(rec) {
      var i := FirstColon(rec);
      var db := Db(0, map[], map[], map[SENDERS + rec := Cell({"x"}, None)], map[]);
      MovedLeft(rec, "x", i);
      assert "x" in SMembers(db, SENDERS + rec);
      assert !KeepsToOwn(db, rec, rec[..i], rec[i + 1..] + ":" + "x");
    } else if !GlobFree(rec) {
      var r := SpecialReach(rec);
      assert SMembers(EMPTY, SENDERS + rec) == {};
      assert !KeepsToOwn(EMPTY, rec, r, "x");
    } else {
      forall db, r, s ensures KeepsToOwn(db, rec, r, s) {
        if ColonFree(r) {
          ReachedIsOwn(db, rec, r, s);
        }
      }
    }
  }

  lemma {:induction false} FirstColon(s: string) returns (i: nat)
    requires !ColonFree(s)
    ensures i < |s| && s[i] == ':' && ColonFree(s[..i])
  {
    i := 0;
    if s[0] != ':' {
      i := FirstColon(s[1..]);
      assert s[..i + 1] == [s[0]] + s[1..][..i];
      i := i + 1;
    }
  }

  predicate Special(c: char) {
    c == '*' || c == '?' || c == '[' || c == '\\'
  }

  /** The scan for a recipient with a special character misses its own queue or finds another one's. */
  lemma SpecialReach(rec: string) returns (r: string)
    requires ColonFree(rec) && !GlobFree(rec)
    ensures ColonFree(r) && (Glob(ScanPattern(rec), InboxName(r, "x")) <==> r != rec)
  {
    var u, c, v := FirstSpecial(rec);
    var w := [c] + v;
    FrontFree(u);
    assert forall x :: x in u || x in v ==> x in rec;
    SplitNames(rec, u, w, w);
    FrontIff(INBOX + u, Scan(w), Text(w, "x"));
    r := rec;
    if Glob(Scan(w), Text(w, "x")) {
      var y := OtherText(c, v);
      r := u + y;
      SplitNames(rec, u, w, y);
      FrontIff(INBOX + u, Scan(w), Text(y, "x"));
      assert r[|u|..] == y && rec[|u|..] == w;
    }
  }

  /** The first special character. */
  lemma {:induction false} FirstSpecial(rec: string) returns (u: string, c: char, v: string)
    requires !GlobFree(rec)
    ensures rec == u + ([c] + v) && GlobFree(u) && Special(c)
  {
    if Special(rec[0]) {
      u, c, v := [], rec[0], rec[1..];
    } else {
      assert GlobFree([rec[0]] + rec[1..]) <== GlobFree(rec[1..]);
      assert rec == [rec[0]] + rec[1..];
      var u', c', v' := FirstSpecial(rec[1..]);
      u, c, v := [rec[0]] + u', c', v';
      assert [rec[0]] + (u' + ([c] + v)) == ([rec[0]] + u') + ([c] + v);
    }
  }

  lemma SplitNames(rec: string, u: string, w: string, x: string)
    requires rec == u + w
    ensures ScanPattern(rec) == (INBOX + u) + Scan(w) && InboxName(u + x, "x") == (INBOX + u) + Text(x, "x")
  {
  }

  lemma FrontFree(u: string)
    requires GlobFree(u)
    ensures GlobFree(INBOX + u)
  {
    assert forall x :: x in INBOX + u ==> x in INBOX || x in u;
  }

  /** The first element of the pattern is longer than the one character it matches. */
  predicate TakesMore(v: string) {
    v != [] && (v[0] == '[' || v[0] == '\\')
  }

  lemma ScanTail(v: string, n: nat)
    requires n <= |v|
    ensures Scan(v)[n..] == Scan(v[n..])
  {
  }

  lemma TextTail(x: string, s: string)
    requires x != []
    ensures Text(x, s)[0] == x[0] && Text(x, s)[1..] == Text(x[1..], s) && Text(x, s)[1..] != []
  {
  }

  lemma {:induction false} Unclosed(p: string, c: char)
    requires ']' !in p
    ensures InClass(p, c).1 == []
    decreases |p|
  {
    if p != [] {
      assert p[0] in p && p[0] != ']';
      if p[0] == '\\' && |p| >= 2 {
        Unclosed(p[2..], c);
      } else if |p| >= 3 && p[1] == '-' {
        Unclosed(p[3..], c);
      } else {
        Unclosed(p[1..], c);
      }
    }
  }

  /** A bracket class either closes inside the recipient, leaving less of it, or swallows the whole pattern. */
  lemma {:induction false} ClassRest(a: string, c: char) returns (b: string, closed: bool)
    ensures InClass(Scan(a), c).1 == if closed then Scan(b) else []
    ensures closed ==> |b| < |a|
    decreases |a|
  {
    b, closed := [], false;
    if ']' !in a {
      Unclosed(Scan(a), c);
    } else if a[0] == ']' {
      ScanTail(a, 1);
      b, closed := a[1..], true;
    } else if a[0] == '\\' {
      ScanTail(a, 2);
      b, closed := ClassRest(a[2..], c);
    } else if |a| >= 3 && a[1] == '-' {
      ScanTail(a, 3);
      b, closed := ClassRest(a[3..], c);
    } else {
      ScanTail(a, 1);
      assert Scan(a)[1] != '-' by { if |a| > 1 { assert Scan(a)[1] == a[1]; } }
      b, closed := ClassRest(a[1..], c);
    }
  }

  /** What the first element of a pattern, other than a star, asks of the first character, and what is left of
      the pattern after it. */
  lemma OneElement(v: string, c: char) returns (ok: bool, rest: string, w: string)
    requires c != ':' && (v == [] || v[0] != '*')
    ensures forall t: string :: t != [] && t[0] == c ==> (Glob(Scan(v), t) <==> ok && Glob(rest, t[1..]))
    ensures ok && rest != [] ==> rest == Scan(w) && |w| < |v|
    ensures ok && rest != [] && TakesMore(v) ==> |w| + 1 < |v|
  {
    var p := Scan(v);
    ok, rest, w := false, [], [];
    if v == [] {
    } else if v[0] == '[' {
      var negated := |p| >= 2 && p[1] == '^';
      var n := if negated then 2 else 1;
      assert n <= |v|;
      ScanTail(v, n);
      var r := InClass(p[n..], c);
      var b, closed := ClassRest(v[n..], c);
      ok, rest, w := r.0 != negated, r.1, b;
    } else if v[0] == '\\' {
      if |v| >= 2 {
        ScanTail(v, 2);
        ok, rest, w := v[1] == c, p[2..], v[2..];
      }
    } else {
      ScanTail(v, 1);
      ok, rest, w := v[0] == '?' || v[0] == c, p[1..], v[1..];
    }
  }

  function Insert(x: string, j: nat, d: char): string
    requires j <= |x|
  {
    x[..j] + [d] + x[j..]
  }

  lemma InsertLater(x: string, s: string, j: nat, d: char)
    requires x != [] && j <= |x| - 1
    ensures Text(Insert(x, j + 1, d), s)[0] == x[0]
    ensures Text(Insert(x, j + 1, d), s)[1..] == Text(Insert(x[1..], j, d), s)
  {
    assert Insert(x, j + 1, d)[1..] == Insert(x[1..], j, d);
  }

  /** If a pattern that starts with a special character matches its own text, it matches another one too. */
  lemma OtherText(c: char, v: string) returns (y: string)
    requires Special(c) && ColonFree(v) && Glob(Scan([c] + v), Text([c] + v, "x"))
    ensures ColonFree(y) && y != [c] + v && Glob(Scan([c] + v), Text(y, "x"))
  {
    var p, t := Scan([c] + v), Text([c] + v, "x");
    TextTail([c] + v, "x");
    assert ([c] + v)[1..] == v;
    if c == '*' {
      y := ['a'] + ([c] + v);
      TextTail(y, "x");
      assert y[1..] == [c] + v && |y| > |[c] + v|;
    } else if c == '?' {
      y := ['a'] + v;
      TextTail(y, "x");
      assert y[1..] == v && y[0] != c;
      ScanTail([c] + v, 1);
    } else {
      var ok, rest, w := OneElement([c] + v, c);
      var j := RoomForOne(w, v, "x", 'a');
      y := [c] + Insert(v, j, 'a');
      TextTail(y, "x");
      assert y[1..] == Insert(v, j, 'a') && |y| > |[c] + v|;
      assert forall x :: x in y ==> x == c || x == 'a' || x in v;
    }
  }

  /** A pattern that matches a text longer than itself has a star to spare, and there is room for one more
      character before the colon. */
  lemma {:induction false} RoomForOne(v: string, x: string, s: string, d: char) returns (j: nat)
    requires ColonFree(x) && |v| < |x| && Glob(Scan(v), Text(x, s))
    ensures j <= |x| && Glob(Scan(v), Text(Insert(x, j, d), s))
    decreases |v|
  {
    j := 0;
    TextTail(x, s);
    assert x[0] in x && forall c :: c in x[1..] ==> c in x;
    if v != [] && v[0] == '*' {
      assert Text(Insert(x, 0, d), s)[1..] == Text(x, s);
    } else {
      var ok, rest, w := OneElement(v, x[0]);
      j := RoomForOne(w, x[1..], s, d);
      InsertLater(x, s, j, d);
      j := j + 1;
    }
  }
}
