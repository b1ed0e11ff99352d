/** The argument normaliser of the command line: flags, with the values they take, before positionals. */
module Args {
  import opened Ascii

  predicate IsFlag(a: string) {
    a != [] && a[0] == '-'
  }

  predicate IsBoolFlag(a: string) {
    a in {"-burn", "--burn", "-force", "--force", "-h", "-help", "--help", "-v", "--version", "-version"}
  }

  /** A flag that takes the next argument as its value, unless that is a flag itself. */
  predicate Wants(a: string) {
    IsFlag(a) && '=' !in a && !IsBoolFlag(a)
  }

  /** What an argument list is made of: flags alone, flags with a value, and positionals. */
  datatype Token = Bare(flag: string) | Valued(flag: string, value: string) | Plain(word: string)

  function Words(t: Token): seq<string> {
    match t
    case Bare(f) => [f]
    case Valued(f, v) => [f, v]
    case Plain(w) => [w]
  }

  function Flat(ts: seq<Token>): seq<string> {
    if ts == [] then [] else Words(ts[0]) + Flat(ts[1..])
  }

  /** The token at the front of the list. */
  function Head(args: seq<string>): (t: Token)
    requires args != []
    ensures WellFormed(t) && Words(t) <= args
  {
    if !IsFlag(args[0]) then Plain(args[0])
    else if Wants(args[0]) && |args| > 1 && !IsFlag(args[1]) then Valued(args[0], args[1])
    else Bare(args[0])
  }

  function Tokens(args: seq<string>): seq<Token> {
    if args == [] then [] else [Head(args)] + Tokens(args[|Words(Head(args))|..])
  }

  predicate WellFormed(t: Token) {
    match t
    case Bare(f) => IsFlag(f)
    case Valued(f, v) => Wants(f) && !IsFlag(v)
    case Plain(w) => !IsFlag(w)
  }

  function Flags(ts: seq<Token>): seq<Token> {
    if ts == [] then [] else (if ts[0].Plain? then [] else [ts[0]]) + Flags(ts[1..])
  }

  function Plains(ts: seq<Token>): seq<Token> {
    if ts == [] then [] else (if ts[0].Plain? then [ts[0]] else []) + Plains(ts[1..])
  }

  predicate AllFlags(ts: seq<Token>) {
    ts == [] || (WellFormed(ts[0]) && !ts[0].Plain? && AllFlags(ts[1..]))
  }

  predicate AllPlain(ts: seq<Token>) {
    ts == [] || (WellFormed(ts[0]) && ts[0].Plain? && AllPlain(ts[1..]))
  }

  lemma {:induction false} Kinds(args: seq<string>)
    ensures AllFlags(Flags(Tokens(args))) && AllPlain(Plains(Tokens(args)))
    decreases |args|
  {
    if args != [] {
      var t := Head(args);
      var rest := Tokens(args[|Words(t)|..]);
      Kinds(args[|Words(t)|..]);
      assert Tokens(args)[1..] == rest;
      if t.Plain? {
        assert Plains(Tokens(args))[1..] == Plains(rest);
        assert Flags(Tokens(args)) == Flags(rest);
      } else {
        assert Flags(Tokens(args))[1..] == Flags(rest);
        assert Plains(Tokens(args)) == Plains(rest);
      }
    }
  }

  function FlagWords(args: seq<string>): seq<string> {
    Flat(Flags(Tokens(args)))
  }

  function PlainWords(args: seq<string>): seq<string> {
    Flat(Plains(Tokens(args)))
  }

  /** The stable partition of the tokens, written out again. */
  function Normalized(args: seq<string>): seq<string> {
    FlagWords(args) + PlainWords(args)
  }

  lemma HeadStep(args: seq<string>)
    requires args != []
    ensures var t := Head(args);
            var f, p := FlagWords(args[|Words(t)|..]), PlainWords(args[|Words(t)|..]);
            if t.Plain? then FlagWords(args) == f && PlainWords(args) == Words(t) + p
            else FlagWords(args) == Words(t) + f && PlainWords(args) == p
  {
    var t := Head(args);
    var rest := Tokens(args[|Words(t)|..]);
    assert Tokens(args)[1..] == rest;
    if t.Plain? {
      assert Plains(Tokens(args))[1..] == Plains(rest);
      assert Flags(Tokens(args)) == Flags(rest);
    } else {
      assert Flags(Tokens(args))[1..] == Flags(rest);
      assert Plains(Tokens(args)) == Plains(rest);
    }
  }

  /** The value of a flag is the next argument, if there is one it may take. */
  predicate Takes(args: seq<string>, i: nat)
    requires i < |args|
  {
    '=' !in args[i] && !IsBoolFlag(args[i]) && i + 1 < |args| && !IsFlag(args[i + 1])
  }

  lemma Advance(args: seq<string>, i: nat)
    requires i < |args|
    ensures !IsFlag(args[i]) ==>
              && FlagWords(args[i..]) == FlagWords(args[i + 1..])
              && PlainWords(args[i..]) == [args[i]] + PlainWords(args[i + 1..])
    ensures IsFlag(args[i]) && Takes(args, i) ==>
              && FlagWords(args[i..]) == [args[i], args[i + 1]] + FlagWords(args[i + 2..])
              && PlainWords(args[i..]) == PlainWords(args[i + 2..])
    ensures IsFlag(args[i]) && !Takes(args, i) ==>
              && FlagWords(args[i..]) == [args[i]] + FlagWords(args[i + 1..])
              && PlainWords(args[i..]) == PlainWords(args[i + 1..])
  {
    HeadStep(args[i..]);
    assert args[i..][1..] == args[i + 1..];
    if i + 1 < |args| {
      assert args[i..][2..] == args[i + 2..];
    }
  }

  predicate Collected(args: seq<string>, i: nat, flags: seq<string>, pos: seq<string>)
    requires i <= |args|
  {
    FlagWords(args) == flags + FlagWords(args[i..]) && PlainWords(args) == pos + PlainWords(args[i..])
  }

  lemma Collect(args: seq<string>, i: nat, n: nat, fs: seq<string>, ps: seq<string>, flags: seq<string>, pos: seq<string>)
    requires i + n <= |args| && Collected(args, i, flags, pos)
    requires FlagWords(args[i..]) == fs + FlagWords(args[i + n..])
    requires PlainWords(args[i..]) == ps + PlainWords(args[i + n..])
    ensures Collected(args, i + n, flags + fs, pos + ps)
  {
    Associative(flags, fs, FlagWords(args[i + n..]));
    Associative(pos, ps, PlainWords(args[i + n..]));
  }

  lemma CollectPlain(args: seq<string>, i: nat, flags: seq<string>, pos: seq<string>)
    requires i < |args| && Collected(args, i, flags, pos) && !IsFlag(args[i])
    ensures Collected(args, i + 1, flags, pos + [args[i]])
  {
    Advance(args, i);
    Collect(args, i, 1, [], [args[i]], flags, pos);
    TwoWords(pos, args[i], args[i], flags);
  }

  lemma CollectPair(args: seq<string>, i: nat, flags: seq<string>, pos: seq<string>)
    requires i < |args| && Collected(args, i, flags, pos) && IsFlag(args[i]) && Takes(args, i)
    ensures Collected(args, i + 2, flags + [args[i]] + [args[i + 1]], pos)
  {
    Advance(args, i);
    Collect(args, i, 2, [args[i], args[i + 1]], [], flags, pos);
    TwoWords(flags, args[i], args[i + 1], pos);
  }

  lemma CollectBare(args: seq<string>, i: nat, flags: seq<string>, pos: seq<string>)
    requires i < |args| && Collected(args, i, flags, pos) && IsFlag(args[i]) && !Takes(args, i)
    ensures Collected(args, i + 1, flags + [args[i]], pos)
  {
    Advance(args, i);
    Collect(args, i, 1, [args[i]], [], flags, pos);
    TwoWords(flags, args[i], args[i], pos);
  }

  lemma TwoWords(xs: seq<string>, a: string, b: string, ys: seq<string>)
    ensures xs + [a, b] == xs + [a] + [b] && ys + [] == ys
  {
  }

  lemma CollectedNone(args: seq<string>)
    ensures Collected(args, 0, [], [])
  {
    assert args[0..] == args;
  }

  lemma CollectedAll(args: seq<string>, flags: seq<string>, pos: seq<string>)
    requires Collected(args, |args|, flags, pos)
    ensures flags + pos == Normalized(args)
  {
    assert args[|args|..] == [];
  }

  /** normalizeArgs: one pass that appends to two lists and skips over the values it has taken. */
  method NormalizeArgs(args: seq<string>) returns (r: seq<string>)
    ensures r == Normalized(args)
  {
    var flags, pos: seq<string> := [], [];
    var i := 0;
    CollectedNone(args);
    while i < |args|
      invariant 0 <= i <= |args|
      invariant Collected(args, i, flags, pos)
    {
      var arg := args[i];
      if IsFlag(arg) {
        if Takes(args, i) { CollectPair(args, i, flags, pos); } else { CollectBare(args, i, flags, pos); }
        flags := flags + [arg];
        if Takes(args, i) {
          i := i + 1;
          flags := flags + [args[i]];
        }
      } else {
        CollectPlain(args, i, flags, pos);
        pos := pos + [arg];
      }
      i := i + 1;
    }
    CollectedAll(args, flags, pos);
    r := flags + pos;
  }

  lemma FlatCons(t: Token, ts: seq<Token>)
    ensures Flat([t] + ts) == Words(t) + Flat(ts)
  {
    assert ([t] + ts)[1..] == ts;
  }

  lemma HeadIsFront(args: seq<string>)
    requires args != []
    ensures args == Words(Head(args)) + args[|Words(Head(args))|..]
  {
  }

  /** The tokens spell the arguments. */
  lemma {:induction false} TokensSpell(args: seq<string>)
    ensures Flat(Tokens(args)) == args
  {
    if args != [] {
      var t := Head(args);
      var rest := args[|Words(t)|..];
      TokensSpell(rest);
      FlatCons(t, Tokens(rest));
      HeadIsFront(args);
    }
  }

  lemma MoveFront(ws: seq<string>, f: seq<string>, p: seq<string>, rest: seq<string>)
    requires multiset(f + p) == multiset(rest)
    ensures multiset((ws + f) + p) == multiset(ws + rest)
    ensures multiset(f + (ws + p)) == multiset(ws + rest)
  {
  }

  /** `at` lists positions of `ts` from left to right, where `part` is found. */
  ghost predicate InOrder(ts: seq<Token>, part: seq<Token>, at: seq<nat>) {
    && |at| == |part|
    && (forall j :: 0 <= j < |at| ==> at[j] < |ts| && part[j] == ts[at[j]])
    && (forall i, j :: 0 <= i < j < |at| ==> at[i] < at[j])
  }

  function Shifted(at: seq<nat>): (r: seq<nat>)
    ensures |r| == |at|
  {
    seq(|at|, j requires 0 <= j < |at| => at[j] + 1)
  }

  lemma InOrderKept(t: Token, ts: seq<Token>, part: seq<Token>, at: seq<nat>)
    requires InOrder(ts, part, at)
    ensures InOrder([t] + ts, part, Shifted(at)) && InOrder([t] + ts, [t] + part, [0] + Shifted(at))
  {
  }

  /** The positions in `fs` and `ps` are all there are, told apart by the token found there. */
  ghost predicate Covers(ts: seq<Token>, fs: seq<nat>, ps: seq<nat>) {
    forall i :: 0 <= i < |ts| ==> if ts[i].Plain? then i in ps else i in fs
  }

  lemma CoversMore(t: Token, ts: seq<Token>, fs: seq<nat>, ps: seq<nat>)
    requires Covers(ts, fs, ps)
    ensures if t.Plain? then Covers([t] + ts, Shifted(fs), [0] + Shifted(ps)) else Covers([t] + ts, [0] + Shifted(fs), Shifted(ps))
  {
    var all := [t] + ts;
    forall i | 0 < i < |all| ensures if all[i].Plain? then i in Shifted(ps) && i in [0] + Shifted(ps)
                                     else i in Shifted(fs) && i in [0] + Shifted(fs) {
      assert all[i] == ts[i - 1];
      PositionKept(if all[i].Plain? then ps else fs, i - 1);
    }
  }

  lemma PartitionOfCons(t: Token, ts: seq<Token>)
    ensures Flags([t] + ts) == if t.Plain? then Flags(ts) else [t] + Flags(ts)
    ensures Plains([t] + ts) == if t.Plain? then [t] + Plains(ts) else Plains(ts)
  {
    assert ([t] + ts)[1..] == ts;
  }

  /** Flags and positionals keep their own order, and every token is one or the other. */
  lemma {:induction false} StablePartition(ts: seq<Token>) returns (fs: seq<nat>, ps: seq<nat>)
    ensures InOrder(ts, Flags(ts), fs) && InOrder(ts, Plains(ts), ps) && Covers(ts, fs, ps)
  {
    fs, ps := [], [];
    if ts != [] {
      var t, rest := ts[0], ts[1..];
      var fs', ps' := StablePartition(rest);
      assert ts == [t] + rest;
      PartitionOfCons(t, rest);
      InOrderKept(t, rest, Flags(rest), fs');
      InOrderKept(t, rest, Plains(rest), ps');
      CoversMore(t, rest, fs', ps');
      fs := if t.Plain? then Shifted(fs') else [0] + Shifted(fs');
      ps := if t.Plain? then [0] + Shifted(ps') else Shifted(ps');
    }
  }

  lemma PositionKept(at: seq<nat>, i: nat)
    requires i in at
    ensures i + 1 in Shifted(at) && i + 1 in [0] + Shifted(at)
  {
    var j :| 0 <= j < |at| && at[j] == i;
    assert Shifted(at)[j] == i + 1;
    assert ([0] + Shifted(at))[j + 1] == i + 1;
  }

  lemma {:induction false} Permutation(args: seq<string>)
    ensures multiset(Normalized(args)) == multiset(args)
  {
    if args != [] {
      var ws, rest := Words(Head(args)), args[|Words(Head(args))|..];
      Permutation(rest);
      HeadStep(args);
      HeadIsFront(args);
      MoveFront(ws, FlagWords(rest), PlainWords(rest), rest);
    }
  }

  /** Nothing is lost or invented, and nothing changes places with its own kind: the tokens of the list are
      its flags in order and its positionals in order, one after the other. */
  lemma StablePermutation(args: seq<string>) returns (fs: seq<nat>, ps: seq<nat>)
    ensures multiset(Normalized(args)) == multiset(args)
    ensures Normalized(args) == Flat(Flags(Tokens(args)) + Plains(Tokens(args))) && Flat(Tokens(args)) == args
    ensures InOrder(Tokens(args), Flags(Tokens(args)), fs) && InOrder(Tokens(args), Plains(Tokens(args)), ps)
    ensures Covers(Tokens(args), fs, ps)
  {
    Permutation(args);
    TokensSpell(args);
    FlatOfConcat(Flags(Tokens(args)), Plains(Tokens(args)));
    fs, ps := StablePartition(Tokens(args));
  }

  /** A flag that is still waiting for a value when the positionals begin. */
  predicate Open(ts: seq<Token>) {
    ts != [] && ts[|ts| - 1].Bare? && Wants(ts[|ts| - 1].flag)
  }

  lemma {:induction false} RereadPlains(ps: seq<Token>)
    requires AllPlain(ps)
    ensures Tokens(Flat(ps)) == ps
  {
    if ps != [] {
      RereadPlains(ps[1..]);
      assert Flat(ps)[1..] == Flat(ps[1..]);
    }
  }

  lemma RereadHead(t: Token, tail: seq<string>)
    requires WellFormed(t)
    requires t.Bare? && Wants(t.flag) ==> tail == [] || IsFlag(tail[0])
    ensures Tokens(Words(t) + tail) == [t] + Tokens(tail)
  {
    assert (Words(t) + tail)[|Words(t)|..] == tail;
    assert Head(Words(t) + tail) == t;
  }

  lemma RereadOpen(t: Token, tail: seq<string>)
    requires t.Bare? && Wants(t.flag) && tail != [] && !IsFlag(tail[0])
    ensures Tokens(Words(t) + tail) == [Valued(t.flag, tail[0])] + Tokens(tail[1..])
  {
    assert (Words(t) + tail)[2..] == tail[1..];
  }

  /** The same tokens with a waiting last flag given the first positional. */
  function Swallowed(fs: seq<Token>, ps: seq<Token>): seq<Token> {
    if Open(fs) && ps != [] && ps[0].Plain? then fs[..|fs| - 1] + [Valued(fs[|fs| - 1].flag, ps[0].word)] + ps[1..]
    else fs + ps
  }

  lemma RereadWaiting(t: Token, ps: seq<Token>)
    requires Open([t]) && AllPlain(ps) && ps != []
    ensures Tokens(Words(t) + Flat(ps)) == [Valued(t.flag, ps[0].word)] + ps[1..]
  {
    RereadPlains(ps[1..]);
    assert Flat(ps)[1..] == Flat(ps[1..]);
    RereadOpen(t, Flat(ps));
  }

  lemma RereadLast(t: Token, ps: seq<Token>)
    requires WellFormed(t) && !t.Plain? && AllPlain(ps)
    ensures Tokens(Words(t) + Flat(ps)) == Swallowed([t], ps)
  {
    if Open([t]) && ps != [] {
      RereadWaiting(t, ps);
      assert [t][..0] == [];
    } else {
      RereadPlains(ps);
      RereadHead(t, Flat(ps));
    }
  }

  lemma LastOfCons(t: Token, rest: seq<Token>)
    requires rest != []
    ensures var fs := [t] + rest; fs[|fs| - 1] == rest[|rest| - 1] && fs[..|fs| - 1] == [t] + rest[..|rest| - 1]
  {
  }

  lemma SwallowedStep(t: Token, rest: seq<Token>, ps: seq<Token>)
    requires rest != []
    ensures Swallowed([t] + rest, ps) == [t] + Swallowed(rest, ps)
  {
    LastOfCons(t, rest);
    if Open(rest) && ps != [] && ps[0].Plain? {
      var init, v := rest[..|rest| - 1], [Valued(rest[|rest| - 1].flag, ps[0].word)];
      Associative([t], init, v);
      Associative([t], init + v, ps[1..]);
    } else {
      Associative([t], rest, ps);
    }
  }

  lemma StartsWithFlag(fs: seq<Token>)
    requires AllFlags(fs) && fs != []
    ensures Flat(fs) != [] && IsFlag(Flat(fs)[0])
  {
  }

  lemma RereadStep(t: Token, rest: seq<Token>, ps: seq<Token>)
    requires WellFormed(t) && !t.Plain? && AllFlags(rest) && rest != []
    requires Tokens(Flat(rest) + Flat(ps)) == Swallowed(rest, ps)
    ensures Tokens(Words(t) + Flat(rest) + Flat(ps)) == Swallowed([t] + rest, ps)
  {
    var tail := Flat(rest) + Flat(ps);
    Associative(Words(t), Flat(rest), Flat(ps));
    StartsWithFlag(rest);
    assert tail[0] == Flat(rest)[0];
    RereadHead(t, tail);
    SwallowedStep(t, rest, ps);
  }

  /** How a list with all its flags in front is read again: as it was, except that a waiting flag takes
      the first positional. */
  lemma {:induction false} Reread(fs: seq<Token>, ps: seq<Token>)
    requires AllFlags(fs) && AllPlain(ps)
    ensures Tokens(Flat(fs) + Flat(ps)) == Swallowed(fs, ps)
  {
    if fs == [] {
      RereadPlains(ps);
      assert [] + Flat(ps) == Flat(ps) && [] + ps == ps;
    } else {
      var t, rest := fs[0], fs[1..];
      assert fs == [t] + rest;
      if rest == [] {
        assert Words(t) + [] == Words(t) && fs == [t];
        RereadLast(t, ps);
      } else {
        Reread(rest, ps);
        RereadStep(t, rest, ps);
      }
    }
  }

  lemma {:induction false} FlatOfConcat(a: seq<Token>, b: seq<Token>)
    ensures Flat(a + b) == Flat(a) + Flat(b)
  {
    if a == [] {
      assert a + b == b;
    } else {
      assert (a + b)[1..] == a[1..] + b;
      FlatOfConcat(a[1..], b);
    }
  }

  lemma {:induction false} PartitionOfPlains(ps: seq<Token>)
    requires AllPlain(ps)
    ensures Flags(ps) == [] && Plains(ps) == ps
  {
    if ps != [] {
      PartitionOfPlains(ps[1..]);
    }
  }

  lemma {:induction false} PartitionOfConcat(fs: seq<Token>, ps: seq<Token>)
    requires AllFlags(fs) && AllPlain(ps)
    ensures Flags(fs + ps) == fs && Plains(fs + ps) == ps
  {
    if fs == [] {
      PartitionOfPlains(ps);
      assert fs + ps == ps;
    } else {
      PartitionOfConcat(fs[1..], ps);
      HeadAndTail(fs, ps);
      assert [fs[0]] + fs[1..] == fs && [] + ps == ps;
    }
  }

  lemma {:induction false} ReplaceLast(fs: seq<Token>, v: Token)
    requires AllFlags(fs) && fs != [] && WellFormed(v) && !v.Plain?
    ensures AllFlags(fs[..|fs| - 1] + [v])
  {
    var gs := fs[..|fs| - 1] + [v];
    if |fs| > 1 {
      ReplaceLast(fs[1..], v);
      assert gs[1..] == fs[1..][..|fs| - 2] + [v];
    }
  }

  lemma {:induction false} LastIsFlag(fs: seq<Token>)
    requires AllFlags(fs) && fs != []
    ensures WellFormed(fs[|fs| - 1])
  {
    if |fs| > 1 {
      LastIsFlag(fs[1..]);
    }
  }

  /** Normalising a second time changes nothing. */
  lemma Idempotent(args: seq<string>)
    ensures Normalized(Normalized(args)) == Normalized(args)
  {
    var fs, ps := Flags(Tokens(args)), Plains(Tokens(args));
    Kinds(args);
    Reread(fs, ps);
    var ts := Tokens(Normalized(args));
    if Open(fs) && ps != [] {
      var last := Valued(fs[|fs| - 1].flag, ps[0].word);
      var gs := fs[..|fs| - 1] + [last];
      LastIsFlag(fs);
      ReplaceLast(fs, last);
      PartitionOfConcat(gs, ps[1..]);
      FlatOfConcat(gs, ps[1..]);
      TokensSpell(Normalized(args));
    } else {
      PartitionOfConcat(fs, ps);
    }
  }

  lemma SwallowedDiffers(fs: seq<Token>, ps: seq<Token>)
    requires Open(fs) && ps != [] && AllPlain(ps)
    ensures Swallowed(fs, ps) != fs + ps
  {
    var n := |fs| - 1;
    assert Swallowed(fs, ps)[n].Valued? && (fs + ps)[n] == fs[n];
  }

  /** Grouped a second time by the same rule, the arguments give the same tokens, flags first, exactly when no
      flag was left waiting for a value or there is no positional it could swallow. */
  lemma TokensPreserved(args: seq<string>)
    ensures Tokens(Normalized(args)) == Flags(Tokens(args)) + Plains(Tokens(args))
       <==> !Open(Flags(Tokens(args))) || Plains(Tokens(args)) == []
  {
    var fs, ps := Flags(Tokens(args)), Plains(Tokens(args));
    Kinds(args);
    Reread(fs, ps);
    if Open(fs) && ps != [] {
      SwallowedDiffers(fs, ps);
    }
  }

  // ---- The flag parser that runs next ----

  /** The flags a command declares, each boolean or not, and the values each accepts. */
  datatype FlagSet = FlagSet(boolean: map<string, bool>, accepts: (string, string) -> bool)

  datatype Setting = Setting(name: string, value: string)

  /** What parsing comes to: the settings in order, and the arguments after them; or an error. */
  datatype Outcome = Parsed(settings: seq<Setting>, rest: seq<string>) | Failed

  function UpToEquals(s: string): string {
    if s == [] || s[0] == '=' then [] else [s[0]] + UpToEquals(s[1..])
  }

  /** A flag without its one or two hyphens, its name, and the value written after an equals sign. */
  function Unhyphened(f: string): string {
    if |f| >= 2 && f[1] == '-' then f[2..] else if f != [] then f[1..] else []
  }

  function NameOf(f: string): string {
    UpToEquals(Unhyphened(f))
  }

  function Attached(f: string): string {
    var body, n := Unhyphened(f), |NameOf(f)|;
    if n < |body| then body[n + 1..] else []
  }

  predicate BadSyntax(f: string) {
    var body := Unhyphened(f);
    body == [] || body[0] == '-' || body[0] == '='
  }

  function Set(fl: FlagSet, s: Setting, later: Outcome): Outcome {
    if fl.accepts(s.name, s.value) && later.Parsed? then later.(settings := [s] + later.settings) else Failed
  }

  /** The parse of Go's `flag.FlagSet`: it stops at the first argument that is no flag or a lone hyphen, and
      after a double one; a flag that is not boolean takes whatever comes next as its value. */
  function GoParse(fl: FlagSet, args: seq<string>): Outcome {
    if args == [] || !IsFlag(args[0]) || |args[0]| < 2 then Parsed([], args)
    else if args[0] == "--" then Parsed([], args[1..])
    else if BadSyntax(args[0]) || NameOf(args[0]) !in fl.boolean then Failed
    else
      var name := NameOf(args[0]);
      if '=' in args[0] then Set(fl, Setting(name, Attached(args[0])), GoParse(fl, args[1..]))
      else if fl.boolean[name] then Set(fl, Setting(name, "true"), GoParse(fl, args[1..]))
      else if |args| > 1 then Set(fl, Setting(name, args[1]), GoParse(fl, args[2..]))
      else Failed
  }

  /** What a flag says by the normaliser's grouping. */
  function Meant(t: Token): Setting {
    match t
    case Bare(f) => Setting(NameOf(f), if '=' in f then Attached(f) else "true")
    case Valued(f, v) => Setting(NameOf(f), v)
    case Plain(w) => Setting([], w)
  }

  function AllMeant(ts: seq<Token>): seq<Setting> {
    if ts == [] then [] else [Meant(ts[0])] + AllMeant(ts[1..])
  }

  /** The command declares the flag and accepts the value; and, unless that is attached with an equals sign, it is
      boolean just if the normaliser gave it none. */
  predicate Agrees(fl: FlagSet, t: Token) {
    && !t.Plain? && !BadSyntax(t.flag)
    && NameOf(t.flag) in fl.boolean && fl.accepts(Meant(t).name, Meant(t).value)
    && (t.Bare? ==> '=' in t.flag || fl.boolean[NameOf(t.flag)])
    && (t.Valued? ==> !fl.boolean[NameOf(t.flag)])
  }

  function FlagsIn(ws: seq<string>): nat {
    if ws == [] then 0 else (if IsFlag(ws[0]) then 1 else 0) + FlagsIn(ws[1..])
  }

  /** Every setting comes from an argument that starts with a hyphen. */
  lemma {:induction false} SettingsAreFlags(fl: FlagSet, ws: seq<string>)
    ensures GoParse(fl, ws).Parsed? ==> |GoParse(fl, ws).settings| <= FlagsIn(ws)
    decreases |ws|
  {
    if ws != [] {
      SettingsAreFlags(fl, ws[1..]);
      if |ws| > 1 {
        assert FlagsIn(ws[1..]) >= FlagsIn(ws[1..][1..]) && ws[1..][1..] == ws[2..];
        SettingsAreFlags(fl, ws[2..]);
      }
    }
  }

  lemma {:induction false} NoFlagsInPlains(ps: seq<Token>)
    requires AllPlain(ps)
    ensures FlagsIn(Flat(ps)) == 0 && |Flat(ps)| == |ps|
  {
    if ps != [] {
      NoFlagsInPlains(ps[1..]);
      assert Flat(ps)[1..] == Flat(ps[1..]);
    }
  }

  lemma {:induction false} OneFlagEach(fs: seq<Token>, ps: seq<Token>)
    requires AllFlags(fs) && AllPlain(ps)
    ensures FlagsIn(Flat(fs) + Flat(ps)) == |fs| == |AllMeant(fs)|
  {
    NoFlagsInPlains(ps);
    if fs == [] {
      assert [] + Flat(ps) == Flat(ps);
    } else {
      var t, tail := fs[0], Flat(fs[1..]) + Flat(ps);
      OneFlagEach(fs[1..], ps);
      Associative(Words(t), Flat(fs[1..]), Flat(ps));
      WordsThen(t, tail);
    }
  }

  lemma WordsThen(t: Token, tail: seq<string>)
    requires WellFormed(t)
    ensures (Words(t) + tail)[0] == Words(t)[0] && (Words(t) + tail)[1..] == Words(t)[1..] + tail
    ensures (Words(t) + tail)[|Words(t)|..] == tail
    ensures FlagsIn(Words(t) + tail) == FlagsIn(tail) + if t.Plain? then 0 else 1
  {
    assert (Words(t) + tail)[1..] == Words(t)[1..] + tail;
    if t.Valued? {
      assert (Words(t) + tail)[1..][1..] == tail;
    } else {
      assert [] + tail == tail;
    }
  }

  /** A flag with no name, or undeclared, or with a value that is not accepted, stops the parser or fails. */
  lemma ParseRefused(fl: FlagSet, t: Token, tail: seq<string>)
    requires WellFormed(t) && !t.Plain?
    requires BadSyntax(t.flag) || NameOf(t.flag) !in fl.boolean
    ensures GoParse(fl, Words(t) + tail).Parsed? ==> GoParse(fl, Words(t) + tail).settings == []
  {
    WordsThen(t, tail);
  }

  /** A value after a boolean flag is where the parser stops. */
  lemma ParseStopped(fl: FlagSet, t: Token, tail: seq<string>)
    requires WellFormed(t) && t.Valued? && !BadSyntax(t.flag) && NameOf(t.flag) in fl.boolean && fl.boolean[NameOf(t.flag)]
    ensures GoParse(fl, Words(t) + tail) == Set(fl, Setting(NameOf(t.flag), "true"), Parsed([], [t.value] + tail))
  {
    WordsThen(t, tail);
    assert GoParse(fl, [t.value] + tail) == Parsed([], [t.value] + tail);
  }

  /** A flag that is not boolean and got no value takes the next argument, if there is one. */
  lemma ParseTook(fl: FlagSet, t: Token, tail: seq<string>)
    requires WellFormed(t) && t.Bare? && '=' !in t.flag
    requires !BadSyntax(t.flag) && NameOf(t.flag) in fl.boolean && !fl.boolean[NameOf(t.flag)]
    ensures GoParse(fl, Words(t) + tail) ==
            if tail == [] then Failed else Set(fl, Setting(NameOf(t.flag), tail[0]), GoParse(fl, tail[1..]))
  {
    WordsThen(t, tail);
    if tail != [] {
      assert (Words(t) + tail)[2..] == tail[1..];
    }
  }

  lemma ParseElse(fl: FlagSet, t: Token, tail: seq<string>)
    requires WellFormed(t) && !t.Plain? && !BadSyntax(t.flag) && NameOf(t.flag) in fl.boolean
    requires if t.Bare? then '=' in t.flag || fl.boolean[NameOf(t.flag)] else !fl.boolean[NameOf(t.flag)]
    ensures GoParse(fl, Words(t) + tail) == Set(fl, Meant(t), GoParse(fl, tail))
  {
    WordsThen(t, tail);
  }

  /** What is left for a flag that has taken the next argument: one setting less, or one positional less. */
  lemma AfterTaking(fl: FlagSet, rest: seq<Token>, ps: seq<Token>)
    requires AllFlags(rest) && AllPlain(ps) && Flat(rest) + Flat(ps) != []
    ensures GoParse(fl, (Flat(rest) + Flat(ps))[1..]) != Parsed(AllMeant(rest), Flat(ps))
  {
    var tail := Flat(rest) + Flat(ps);
    OneFlagEach(rest, ps);
    SettingsAreFlags(fl, tail[1..]);
    if rest != [] {
      StartsWithFlag(rest);
      assert tail[0] == Flat(rest)[0];
      assert FlagsIn(tail) == 1 + FlagsIn(tail[1..]);
    } else {
      assert tail == Flat(ps);
      PlainsStop(fl, tail[1..]);
    }
  }

  lemma {:induction false} PlainsStop(fl: FlagSet, ws: seq<string>)
    ensures GoParse(fl, ws).Parsed? ==> |GoParse(fl, ws).rest| <= |ws|
    decreases |ws|
  {
    if ws != [] {
      PlainsStop(fl, ws[1..]);
      if |ws| > 1 {
        PlainsStop(fl, ws[2..]);
      }
    }
  }

  /** A flag that does not agree leaves the parser with fewer settings, or with other arguments after them. */
  lemma ParseDisagreed(fl: FlagSet, t: Token, rest: seq<Token>, ps: seq<Token>)
    requires WellFormed(t) && !t.Plain? && !Agrees(fl, t) && AllFlags(rest) && AllPlain(ps)
    ensures GoParse(fl, Words(t) + (Flat(rest) + Flat(ps))) != Parsed([Meant(t)] + AllMeant(rest), Flat(ps))
  {
    var tail := Flat(rest) + Flat(ps);
    if BadSyntax(t.flag) || NameOf(t.flag) !in fl.boolean {
      ParseRefused(fl, t, tail);
    } else if t.Valued? && fl.boolean[NameOf(t.flag)] {
      ParseStopped(fl, t, tail);
      assert |[t.value] + tail| > |Flat(ps)|;
    } else if t.Bare? && '=' !in t.flag && !fl.boolean[NameOf(t.flag)] {
      ParseTook(fl, t, tail);
      if tail != [] {
        AfterTaking(fl, rest, ps);
        SetIs(fl, Setting(NameOf(t.flag), tail[0]), Meant(t), GoParse(fl, tail[1..]), AllMeant(rest), Flat(ps));
      }
    } else {
      ParseElse(fl, t, tail);
    }
  }

  lemma SetIs(fl: FlagSet, s: Setting, t: Setting, later: Outcome, settings: seq<Setting>, rest: seq<string>)
    ensures Set(fl, s, later) == Parsed([t] + settings, rest) ==> later == Parsed(settings, rest) && fl.accepts(s.name, s.value)
  {
    if later.Parsed? && [s] + later.settings == [t] + settings {
      assert later.settings == ([s] + later.settings)[1..] == settings;
    }
  }

  lemma ParsedStep(fl: FlagSet, t: Token, rest: seq<Token>, ps: seq<Token>)
    requires WellFormed(t) && !t.Plain? && AllFlags(rest) && AllPlain(ps)
    ensures GoParse(fl, Words(t) + (Flat(rest) + Flat(ps))) == Parsed([Meant(t)] + AllMeant(rest), Flat(ps))
       <==> Agrees(fl, t) && GoParse(fl, Flat(rest) + Flat(ps)) == Parsed(AllMeant(rest), Flat(ps))
  {
    if Agrees(fl, t) {
      var later := GoParse(fl, Flat(rest) + Flat(ps));
      ParseElse(fl, t, Flat(rest) + Flat(ps));
      SetIs(fl, Meant(t), Meant(t), later, AllMeant(rest), Flat(ps));
    } else {
      ParseDisagreed(fl, t, rest, ps);
    }
  }

  lemma {:induction false} ParsedIff(fl: FlagSet, fs: seq<Token>, ps: seq<Token>)
    requires AllFlags(fs) && AllPlain(ps)
    ensures GoParse(fl, Flat(fs) + Flat(ps)) == Parsed(AllMeant(fs), Flat(ps)) <==> forall t :: t in fs ==> Agrees(fl, t)
  {
    if fs == [] {
      NoFlagsInPlains(ps);
      assert [] + Flat(ps) == Flat(ps);
    } else {
      var t, rest := fs[0], fs[1..];
      ParsedIff(fl, rest, ps);
      Associative(Words(t), Flat(rest), Flat(ps));
      assert forall x :: x in fs <==> x == t || x in rest;
      ParsedStep(fl, t, rest, ps);
    }
  }

  /** For any command: the parser reads the normalised arguments as the normaliser grouped them, all flags with
      their values and all positionals left over, exactly when every flag agrees with what the command declares. */
  lemma ParsedAsGrouped(fl: FlagSet, args: seq<string>)
    ensures GoParse(fl, Normalized(args)) == Parsed(AllMeant(Flags(Tokens(args))), PlainWords(args))
       <==> forall t :: t in Flags(Tokens(args)) ==> Agrees(fl, t)
  {
    Kinds(args);
    ParsedIff(fl, Flags(Tokens(args)), Plains(Tokens(args)));
  }

  // ---- Three kinds of command line the grouping does not describe ----

  lemma TwoFlags(a: Token, b: Token)
    requires !a.Plain? && !b.Plain?
    ensures Flags([a, b]) == [a, b] && Plains([a, b]) == [] && Flat([a, b]) == Words(a) + Words(b)
  {
    assert [a, b] == [a] + ([b] + []);
    PartitionOfCons(a, [b] + []);
    PartitionOfCons(b, []);
    FlatCons(a, [b] + []);
    FlatCons(b, []);
    assert Words(b) + [] == Words(b);
  }

  lemma TokensOfTwo(a: Token, b: Token)
    requires WellFormed(a) && WellFormed(b) && !b.Plain?
    ensures Tokens(Words(a) + Words(b)) == [a, b]
  {
    assert Words(b) + [] == Words(b) && Tokens([]) == [];
    RereadHead(b, []);
    RereadHead(a, Words(b));
  }

  /** Two flags and nothing else are left as they are. */
  lemma TwoGroups(a: Token, b: Token)
    requires WellFormed(a) && WellFormed(b) && !a.Plain? && !b.Plain?
    ensures Tokens(Words(a) + Words(b)) == [a, b] && Normalized(Words(a) + Words(b)) == Words(a) + Words(b)
  {
    TokensOfTwo(a, b);
    TwoFlags(a, b);
    TokensSpell(Words(a) + Words(b));
  }

  /** A lone hyphen stops the parser and hides the flag behind it, although grouping a second time changes
      nothing. */
  lemma HyphenStops(fl: FlagSet, f: string, v: string)
    requires Wants(f) && !IsFlag(v)
    ensures var args := ["-", f, v];
            && GoParse(fl, Normalized(args)) == Parsed([], args)
            && Tokens(Normalized(args)) == Flags(Tokens(args)) + Plains(Tokens(args)) == [Bare("-"), Valued(f, v)]
  {
    var a, b := Bare("-"), Valued(f, v);
    assert Words(a) + Words(b) == ["-", f, v];
    TwoGroups(a, b);
    TwoFlags(a, b);
  }

  /** So does a double one, which is left out of what remains. */
  lemma DoubleHyphenStops(fl: FlagSet, f: string, v: string)
    requires Wants(f) && !IsFlag(v)
    ensures GoParse(fl, Normalized(["--", f, v])) == Parsed([], [f, v])
  {
    var a, b := Bare("--"), Valued(f, v);
    assert Words(a) + Words(b) == ["--", f, v];
    TwoGroups(a, b);
    assert ["--", f, v][1..] == [f, v];
  }

  lemma TenFlags(f: string)
    ensures IsBoolFlag(f) <==>
            f in ["-burn", "--burn", "-force", "--force", "-h", "-help", "--help", "-v", "--version", "-version"]
  {
  }

  lemma FlagWordFlag(f: string, w: string, g: string)
    requires IsFlag(f) && '=' !in f && !IsFlag(w) && IsFlag(g)
    ensures Normalized([f, w, g]) == if IsBoolFlag(f) then [f] + [g] + [w] else [f, w] + [g]
  {
    LastFlag(g);
    if IsBoolFlag(f) {
      TwoAfter(f, w, g);
    } else {
      assert [f, w, g][2..] == [g];
      HeadStep([f, w, g]);
    }
  }

  lemma TwoAfter(f: string, w: string, g: string)
    requires IsFlag(f) && IsBoolFlag(f) && !IsFlag(w) && FlagWords([g]) == [g] && PlainWords([g]) == []
    ensures Normalized([f, w, g]) == [f] + [g] + [w]
  {
    assert [f, w, g][1..] == [w, g] && [w, g][1..] == [g];
    HeadStep([w, g]);
    HeadStep([f, w, g]);
    assert [w] + [] == [w];
  }

  lemma LastFlag(g: string)
    requires IsFlag(g)
    ensures FlagWords([g]) == [g] && PlainWords([g]) == []
  {
    assert [g][1..] == [];
    HeadStep([g]);
    assert FlagWords([]) == [] && PlainWords([]) == [] && [g] + [] == [g];
  }

  /** A flag without a value attached leaves the word behind it in its place exactly if it is not one of these ten. */
  lemma KnownBooleans(f: string, w: string, g: string)
    requires f != "" && f[0] == '-' && '=' !in f && (w == "" || w[0] != '-') && g != "" && g[0] == '-'
    ensures var known := f in ["-burn", "--burn", "-force", "--force", "-h", "-help", "--help", "-v", "--version", "-version"];
            Normalized([f, w, g]) == if known then [f, g, w] else [f, w, g]
  {
    TenFlags(f);
    FlagWordFlag(f, w, g);
  }

  lemma WordFirst(w: string, a: Token, b: Token)
    requires !IsFlag(w) && WellFormed(a) && WellFormed(b) && !a.Plain? && !b.Plain?
    ensures var args := [w] + (Words(a) + Words(b));
            && Normalized(args) == Words(a) + Words(b) + [w]
            && Flags(Tokens(args)) == [a, b] && PlainWords(args) == [w]
  {
    var tail := Words(a) + Words(b);
    TwoGroups(a, b);
    TwoFlags(a, b);
    assert ([w] + tail)[1..] == tail;
    assert Tokens([w] + tail) == [Plain(w)] + [a, b];
    PartitionOfCons(Plain(w), [a, b]);
    HeadStep([w] + tail);
  }

  /** A value that starts with a hyphen is taken, although the normaliser counts it as a flag of its own, and
      even as one that waits for a value. */
  lemma HyphenIsTaken(fl: FlagSet, w: string, f: string, v: string)
    requires !IsFlag(w) && Wants(f) && Wants(v)
    requires !BadSyntax(f) && NameOf(f) in fl.boolean && !fl.boolean[NameOf(f)] && fl.accepts(NameOf(f), v)
    ensures var args := [w, f, v];
            && GoParse(fl, Normalized(args)) == Parsed([Setting(NameOf(f), v)], [w])
            && Flags(Tokens(args)) == [Bare(f), Bare(v)] && Open(Flags(Tokens(args))) && PlainWords(args) == [w]
  {
    WordFirst(w, Bare(f), Bare(v));
    assert [w] + (Words(Bare(f)) + Words(Bare(v))) == [w, f, v];
    assert Words(Bare(f)) + Words(Bare(v)) + [w] == Words(Bare(f)) + [v, w];
    TakenThenWord(fl, f, v, w);
  }

  lemma TakenThenWord(fl: FlagSet, f: string, v: string, w: string)
    requires Wants(f) && !BadSyntax(f) && !IsFlag(w)
    requires NameOf(f) in fl.boolean && !fl.boolean[NameOf(f)] && fl.accepts(NameOf(f), v)
    ensures GoParse(fl, Words(Bare(f)) + [v, w]) == Parsed([Setting(NameOf(f), v)], [w])
  {
    ParseTook(fl, Bare(f), [v, w]);
    assert [v, w][1..] == [w];
    assert GoParse(fl, [w]) == Parsed([], [w]);
  }

  /** A boolean flag the normaliser does not know, such as the dashboard's `-open`, hides what comes after the
      word behind it. */
  lemma UnknownHides(fl: FlagSet, f: string, w: string, g: string, v: string)
    requires Wants(f) && !IsFlag(w) && Wants(g) && !IsFlag(v)
    requires !BadSyntax(f) && NameOf(f) in fl.boolean && fl.boolean[NameOf(f)] && fl.accepts(NameOf(f), "true")
    ensures GoParse(fl, Normalized([f, w, g, v])) == Parsed([Setting(NameOf(f), "true")], [w, g, v])
  {
    var a, b := Valued(f, w), Valued(g, v);
    assert Words(a) + Words(b) == [f, w, g, v];
    TwoGroups(a, b);
    ParseStopped(fl, a, Words(b));
    assert [w] + Words(b) == [w, g, v];
  }

  lemma {:induction false} PlainName(s: string)
    requires '=' !in s
    ensures UpToEquals(s) == s
  {
    if s != [] {
      assert s[0] in s && forall c :: c in s[1..] ==> c in s;
      PlainName(s[1..]);
    }
  }

  lemma NameOfTtl()
    ensures NameOf("--ttl") == "ttl" && !BadSyntax("--ttl")
  {
    assert Unhyphened("--ttl") == "ttl";
    PlainName("ttl");
  }

  /** Such as these. The first is grouped the same twice over and misread; the second is not, and is read well. */
  lemma GroupingMisleads(fl: FlagSet)
    requires "ttl" in fl.boolean && !fl.boolean["ttl"] && fl.accepts("ttl", "-5")
    ensures GoParse(fl, Normalized(["-", "--to", "b"])) == Parsed([], ["-", "--to", "b"])
    ensures GoParse(fl, Normalized(["hello", "--ttl", "-5"])) == Parsed([Setting("ttl", "-5")], ["hello"])
  {
    HyphenStops(fl, "--to", "b");
    NameOfTtl();
    HyphenIsTaken(fl, "hello", "--ttl", "-5");
  }
}
