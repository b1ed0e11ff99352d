/** Handle spellings: the variants the relay publishes to, the channels a listener subscribes to,
    and the spellings the dashboard tries when it looks up a key. */
module Handles {
  import opened Ascii

  const PV := "PV-"

  /** The five spellings of a handle, as UploadPaste, HandleStream and the client all list them. */
  function Variants(r: string): seq<string> {
    [r, ToUpper(r), ToLower(r), PV + ToUpper(TrimPrefix(r, PV)), TrimPrefix(ToUpper(r), PV)]
  }

  // ---- Canonical form: a name under a number of "PV-" prefixes ----

  function Depth(u: string): nat {
    if PV <= u then 1 + Depth(u[3..]) else 0
  }

  function Core(u: string): (c: string)
    ensures !(PV <= c)
  {
    if PV <= u then Core(u[3..]) else u
  }

  function Build(d: nat, core: string): (u: string)
    ensures d > 0 ==> PV <= u
  {
    if d == 0 then core else PV + Build(d - 1, core)
  }

  lemma {:induction false} BuildOf(u: string)
    ensures u == Build(Depth(u), Core(u))
    ensures ToUpper(u) == u ==> ToUpper(Core(u)) == Core(u)
  {
    if PV <= u {
      BuildOf(u[3..]);
      assert u == PV + u[3..];
      if ToUpper(u) == u {
        forall i | 0 <= i < |u[3..]| ensures ToUpper(u[3..])[i] == u[3..][i] {
          assert ToUpper(u)[i + 3] == u[i + 3];
        }
      }
    }
  }

  lemma {:induction false} PartsOfBuild(d: nat, core: string)
    requires !(PV <= core)
    ensures Depth(Build(d, core)) == d && Core(Build(d, core)) == core
  {
    if d > 0 {
      PartsOfBuild(d - 1, core);
      assert (PV + Build(d - 1, core))[3..] == Build(d - 1, core);
    }
  }

  /** The name behind a handle: upper-cased, all leading "PV-" removed. */
  function Name(r: string): string {
    Core(ToUpper(r))
  }

  function Level(r: string): nat {
    Depth(ToUpper(r))
  }

  /** The fewest and the most "PV-" prefixes any spelling of `r` carries. */
  function Lowest(r: string): nat {
    if Level(r) > 0 then Level(r) - 1 else 0
  }

  function Highest(r: string): nat {
    if PV <= r then Level(r) else Level(r) + 1
  }

  lemma UpperOfPrefixed(s: string)
    ensures PV <= s ==> PV <= ToUpper(s) && ToUpper(s[3..]) == ToUpper(s)[3..]
    ensures ToUpper(PV + s) == PV + ToUpper(s)
  {
    CaseFolding(PV, s);
    assert ToUpper(PV) == PV;
    if PV <= s {
      assert s == PV + s[3..];
      CaseFolding(PV, s[3..]);
    }
  }

  lemma SameUpper(r: string, x: string)
    requires ToUpper(x) == ToUpper(r)
    ensures Name(x) == Name(r) && Lowest(r) <= Level(x) <= Highest(r)
  {
    UpperOfPrefixed(r);
  }

  lemma OnePrefixMore(r: string, x: string)
    requires !(PV <= r) && ToUpper(x) == PV + ToUpper(r)
    ensures Name(x) == Name(r) && Level(x) == Level(r) + 1 == Highest(r)
  {
    assert (PV + ToUpper(r))[3..] == ToUpper(r);
  }

  lemma OnePrefixLess(r: string, x: string)
    requires PV <= ToUpper(r) && ToUpper(x) == ToUpper(r)[3..]
    ensures Name(x) == Name(r) && Level(x) == Level(r) - 1 == Lowest(r)
  {
  }

  /** What is left of an upper-cased handle without its prefix is upper-cased. */
  lemma UpperTail(r: string)
    requires PV <= ToUpper(r)
    ensures ToUpper(ToUpper(r)[3..]) == ToUpper(r)[3..]
  {
    var u := ToUpper(r);
    forall i | 0 <= i < |u[3..]| ensures ToUpper(u[3..])[i] == u[3..][i] {
      assert u[i + 3] == UpperChar(r[i + 3]);
    }
  }

  lemma PrefixedVariant(r: string)
    ensures var x := PV + ToUpper(TrimPrefix(r, PV));
            if PV <= r then ToUpper(x) == ToUpper(r) else ToUpper(x) == PV + ToUpper(r)
  {
    var t := TrimPrefix(r, PV);
    CaseFolding(t, t);
    UpperOfPrefixed(ToUpper(t));
    if PV <= r {
      assert r == PV + r[3..];
      UpperOfPrefixed(r[3..]);
    }
  }

  /** Every spelling of `r` names what `r` names, between its lowest and highest level. */
  lemma VariantKeepsName(r: string, x: string)
    requires x in Variants(r) || x == TrimPrefix(r, PV)
    ensures Name(x) == Name(r)
    ensures Lowest(r) <= Level(x) <= Highest(r)
  {
    CaseFolding(r, x);
    UpperOfPrefixed(r);
    if x == r || x == ToUpper(r) || x == ToLower(r) {
      SameUpper(r, x);
    } else if x == PV + ToUpper(TrimPrefix(r, PV)) {
      PrefixedVariant(r);
      if PV <= r { SameUpper(r, x); } else { OnePrefixMore(r, x); }
    } else if x == TrimPrefix(ToUpper(r), PV) {
      UpperTail(r);
      OnePrefixLess(r, x);
    } else {
      OnePrefixLess(r, x);
    }
  }

  lemma OwnLevel(r: string)
    ensures Build(Level(r), Name(r)) == ToUpper(r)
  {
    BuildOf(ToUpper(r));
  }

  lemma HigherLevel(r: string)
    requires !(PV <= r)
    ensures Build(Level(r) + 1, Name(r)) == PV + ToUpper(TrimPrefix(r, PV))
  {
    OwnLevel(r);
  }

  lemma LowerLevel(r: string)
    requires Level(r) > 0
    ensures Build(Level(r) - 1, Name(r)) == TrimPrefix(ToUpper(r), PV)
  {
    BuildOf(ToUpper(r)[3..]);
  }

  /** Every level in between is spelled, in capitals, by some variant. */
  lemma VariantAtLevel(r: string, d: nat)
    requires Lowest(r) <= d <= Highest(r)
    ensures Build(d, Name(r)) in Variants(r)
  {
    var vs := Variants(r);
    if d == Level(r) {
      OwnLevel(r);
      assert vs[1] == ToUpper(r);
    } else if d == Level(r) + 1 {
      HigherLevel(r);
      assert vs[3] == Build(d, Name(r));
    } else {
      LowerLevel(r);
      assert vs[4] == Build(d, Name(r));
    }
  }

  predicate Meet(r: string, h: string) {
    exists x :: x in Variants(r) && x in Variants(h)
  }

  /** Exactly when a publisher to `r` and a listener on `h` share a channel. */
  lemma Rendezvous(r: string, h: string)
    ensures Meet(r, h) <==>
            Name(r) == Name(h) && Lowest(r) <= Highest(h) && Lowest(h) <= Highest(r)
  {
    if Meet(r, h) {
      var x :| x in Variants(r) && x in Variants(h);
      VariantKeepsName(r, x);
      VariantKeepsName(h, x);
    }
    if Name(r) == Name(h) && Lowest(r) <= Highest(h) && Lowest(h) <= Highest(r) {
      var d := if Lowest(r) < Lowest(h) then Lowest(h) else Lowest(r);
      VariantAtLevel(r, d);
      VariantAtLevel(h, d);
    }
  }

  /** The two promises a user sees: case never matters, nor does one leading "PV-". */
  lemma CaseAndOnePrefixMeet(r: string, h: string)
    requires || ToUpper(r) == ToUpper(h)
             || ToUpper(h) == PV + ToUpper(r)
             || ToUpper(r) == PV + ToUpper(h)
    ensures Meet(r, h) && Name(r) == Name(h)
  {
    assert (PV + ToUpper(r))[3..] == ToUpper(r);
    assert (PV + ToUpper(h))[3..] == ToUpper(h);
    Rendezvous(r, h);
  }

  /** Two prefixes apart can be too far: "bob" and "PV-PV-PV-BOB" never meet, though they share a name. */
  lemma TooManyPrefixes()
    ensures Name("bob") == Name("PV-PV-PV-BOB") && !Meet("bob", "PV-PV-PV-BOB")
  {
    var h := "PV-PV-PV-BOB";
    assert ToUpper("bob") == "BOB" && ToUpper(h) == h;
    assert "BOB"[0] != PV[0];
    assert Build(3, "BOB") == PV + (PV + (PV + "BOB")) == h;
    PartsOfBuild(0, "BOB");
    PartsOfBuild(3, "BOB");
    Rendezvous("bob", h);
  }

  // ---- How many distinct spellings there are ----

  lemma DedupSize(xs: seq<string>, s: set<string>)
    requires forall x :: x in xs ==> x in s
    ensures |Dedup(xs)| <= |s|
  {
    SizeOfDistinct(Dedup(xs), s);
  }

  lemma {:induction false} SizeOfDistinct(ys: seq<string>, s: set<string>)
    requires forall i, j :: 0 <= i < j < |ys| ==> ys[i] != ys[j]
    requires forall y :: y in ys ==> y in s
    ensures |ys| <= |s|
  {
    if ys != [] {
      var y := ys[0];
      assert forall z :: z in ys[1..] ==> z in ys && z != y;
      SizeOfDistinct(ys[1..], s - {y});
    }
  }

  function Spellings(r: string): seq<string> {
    Dedup(Variants(r))
  }

  lemma SpellingCount(r: string)
    ensures |Spellings(r)| <= 5
    ensures ToLower(r) == r ==> |Spellings(r)| <= 4
    ensures ToUpper(r) == r ==> |Spellings(r)| <= 3
  {
    var v := Variants(r);
    if ToLower(r) == r {
      DedupSize(v, {v[1], v[2], v[3], v[4]});
      SizeOfFour(v[1], v[2], v[3], v[4]);
    }
    if ToUpper(r) == r {
      UpperOfPrefixed(r);
      if PV <= r {
        assert r == PV + r[3..];
        assert v[3] == r;
        DedupSize(v, {v[1], v[2], v[4]});
        SizeOfFour(v[1], v[2], v[4], v[4]);
        assert {v[1], v[2], v[4], v[4]} == {v[1], v[2], v[4]};
      } else {
        DedupSize(v, {v[1], v[2], v[3]});
      }
    }
  }

  lemma SizeOfFour(a: string, b: string, c: string, d: string)
    ensures |{a, b, c, d}| <= 4
    ensures |{a, b, c}| <= 3
  {
    assert {a, b, c, d} == {a, b, c} + {d};
  }

  // ---- Channels of a stream, and key lookup ----

  /** The distinct channels a stream listens on, collected by the loop of HandleStream. */
  method StreamChannels(handle: string) returns (channels: seq<string>)
    ensures channels == Spellings(handle)
    ensures forall r :: Meet(r, handle) <==> exists x :: x in Spellings(r) && x in channels
  {
    var all := Variants(handle);
    var seen: set<string> := {};
    channels := [];
    for i := 0 to |all|
      invariant channels == Dedup(all[..i])
      invariant forall x :: x in seen <==> x in all[..i]
    {
      var c := all[i];
      DedupOneMore(all, i);
      if c !in seen {
        seen := seen + {c};
        channels := channels + [c];
      }
    }
    assert all[..|all|] == all;
  }

  function Candidates(handle: string): seq<string> {
    var t := TrimSpace(handle);
    [t, ToUpper(t), ToLower(t), PV + ToUpper(TrimPrefix(t, PV)), TrimPrefix(t, PV), TrimPrefix(ToUpper(t), PV)]
  }

  lemma CandidateKeepsName(handle: string, c: string)
    requires c in Candidates(handle)
    ensures Name(c) == Name(TrimSpace(handle))
    ensures Lowest(TrimSpace(handle)) <= Level(c) <= Highest(TrimSpace(handle))
  {
    var t := TrimSpace(handle);
    assert c in Variants(t) || c == TrimPrefix(t, PV);
    VariantKeepsName(t, c);
  }

  predicate Registered(keys: map<string, string>, c: string) {
    c in keys && keys[c] != ""
  }

  /** The names were asked for in order, none twice, up to the first registered one. */
  predicate Stopped(keys: map<string, string>, all: seq<string>, found: Option<string>, asked: seq<string>) {
    if found.None? then asked == Dedup(all) && forall c :: c in all ==> !Registered(keys, c)
    else
      && Registered(keys, found.value) && found.value in all
      && asked <= Dedup(all) && asked != [] && asked[|asked| - 1] == found.value
      && forall c :: c in asked[..|asked| - 1] ==> !Registered(keys, c)
  }

  predicate FirstAt(keys: map<string, string>, all: seq<string>, i: int) {
    0 <= i < |all| && Registered(keys, all[i]) && forall j :: 0 <= j < i ==> !Registered(keys, all[j])
  }

  lemma StopsAt(keys: map<string, string>, all: seq<string>, i: nat)
    requires i < |all| && all[i] !in all[..i] && Registered(keys, all[i])
    requires forall x :: x in Dedup(all[..i]) ==> !Registered(keys, x)
    ensures Stopped(keys, all, Some(all[i]), Dedup(all[..i]) + [all[i]])
  {
    var asked := Dedup(all[..i]);
    DedupOneMore(all, i);
    DedupOfPrefix(all, i + 1);
    assert (asked + [all[i]])[..|asked|] == asked;
  }

  /** The loop of resolveKey. */
  method FirstRegistered(keys: map<string, string>, all: seq<string>) returns (found: Option<string>, asked: seq<string>)
    ensures Stopped(keys, all, found, asked)
    ensures found.Some? ==> exists i :: FirstAt(keys, all, i) && found.value == all[i]
  {
    found, asked := None, [];
    var seen: set<string> := {};
    for i := 0 to |all|
      invariant asked == Dedup(all[..i])
      invariant forall x :: x in seen <==> x in all[..i]
      invariant forall x :: x in asked ==> !Registered(keys, x)
    {
      var c := all[i];
      DedupOneMore(all, i);
      if c in seen {
        continue;
      }
      seen := seen + {c};
      if Registered(keys, c) {
        StopsAt(keys, all, i);
        assert FirstAt(keys, all, i);
        return Some(c), asked + [c];
      }
      asked := asked + [c];
    }
    assert all[..|all|] == all;
  }

  /** resolveKey. `keys` is what the relay answers for each spelling; `asked` is the list of requests made. */
  method ResolveKey(keys: map<string, string>, handle: string) returns (found: Option<string>, asked: seq<string>)
    ensures var t := TrimSpace(handle);
            found == if t == "" then None
                     else if Registered(keys, t) then Some(t)
                     else if Registered(keys, ToUpper(t)) then Some(ToUpper(t))
                     else if Registered(keys, ToLower(t)) then Some(ToLower(t))
                     else if Registered(keys, PV + ToUpper(TrimPrefix(t, PV))) then Some(PV + ToUpper(TrimPrefix(t, PV)))
                     else if Registered(keys, TrimPrefix(t, PV)) then Some(TrimPrefix(t, PV))
                     else if Registered(keys, TrimPrefix(ToUpper(t), PV)) then Some(TrimPrefix(ToUpper(t), PV))
                     else None
    ensures found.None? <==> TrimSpace(handle) == "" || forall c :: c in Candidates(handle) ==> !Registered(keys, c)
    ensures found.Some? ==> found.value in keys && keys[found.value] != ""
    ensures found.None? && TrimSpace(handle) in keys ==> TrimSpace(handle) == "" || keys[TrimSpace(handle)] == ""
    ensures found.None? && TrimSpace(handle) != "" ==> asked == Dedup(Candidates(handle))
    ensures found.Some? ==>
              && Registered(keys, found.value)
              && asked <= Dedup(Candidates(handle)) && asked != [] && asked[|asked| - 1] == found.value
              && (forall c :: c in asked[..|asked| - 1] ==> !Registered(keys, c))
              && Name(found.value) == Name(TrimSpace(handle))
  {
    found, asked := None, [];
    if TrimSpace(handle) == "" {
      return;
    }
    found, asked := FirstRegistered(keys, Candidates(handle));
    FirstOfSix(keys, Candidates(handle), found);
    if found.Some? {
      CandidateKeepsName(handle, found.value);
    }
  }

  lemma FirstOfSix(keys: map<string, string>, all: seq<string>, found: Option<string>)
    requires |all| == 6 && (found.None? ==> forall c :: c in all ==> !Registered(keys, c))
    requires found.Some? ==> exists i :: FirstAt(keys, all, i) && found.value == all[i]
    ensures found == if Registered(keys, all[0]) then Some(all[0])
                     else if Registered(keys, all[1]) then Some(all[1])
                     else if Registered(keys, all[2]) then Some(all[2])
                     else if Registered(keys, all[3]) then Some(all[3])
                     else if Registered(keys, all[4]) then Some(all[4])
                     else if Registered(keys, all[5]) then Some(all[5])
                     else None
  {
    assert all[0] in all && all[1] in all && all[2] in all && all[3] in all && all[4] in all && all[5] in all;
  }

  lemma {:induction false} DedupOfPrefix(xs: seq<string>, n: nat)
    requires n <= |xs|
    ensures Dedup(xs[..n]) <= Dedup(xs)
    decreases |xs|
  {
    if n == |xs| {
      assert xs[..n] == xs;
    } else {
      DedupOfPrefix(xs[..|xs| - 1], n);
      assert xs[..|xs| - 1][..n] == xs[..n];
    }
  }
}
