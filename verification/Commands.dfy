/** The commands' own flags, and what their parsers make of a command line that is written with them: flags in
    either spelling, with their values behind them or attached, and words, in any order. */
module Commands {
  import opened Ascii
  import opened Args

  /** One thing on a command line. `hyphens` is "-" or "--". */
  datatype Item =
    | Switch(hyphens: string, name: string)
    | Option(hyphens: string, name: string, value: string)
    | Joined(hyphens: string, name: string, value: string)
    | Word(word: string)

  function Spelled(i: Item): seq<string> {
    match i
    case Switch(h, n) => [h + n]
    case Option(h, n, v) => [h + n, v]
    case Joined(h, n, v) => [h + n + "=" + v]
    case Word(w) => [w]
  }

  function CommandLine(items: seq<Item>): seq<string> {
    if items == [] then [] else Spelled(items[0]) + CommandLine(items[1..])
  }

  predicate Hyphened(s: string) {
    s != "" && s[0] == '-'
  }

  /** A flag the command declares, used as it is declared: a boolean one alone, or any with an accepted value. */
  predicate Proper(fl: FlagSet, i: Item) {
    match i
    case Switch(h, n) => h in {"-", "--"} && n in fl.boolean && fl.boolean[n] && fl.accepts(n, "true")
    case Option(h, n, v) => h in {"-", "--"} && n in fl.boolean && !fl.boolean[n] && fl.accepts(n, v) && !Hyphened(v)
    case Joined(h, n, v) => h in {"-", "--"} && n in fl.boolean && fl.accepts(n, v)
    case Word(w) => !Hyphened(w)
  }

  predicate AllProper(fl: FlagSet, items: seq<Item>) {
    forall i :: i in items ==> Proper(fl, i)
  }

  /** What the user means: every flag with its value, and the words, each in order. */
  function Settings(items: seq<Item>): seq<Setting> {
    if items == [] then []
    else
      (match items[0]
       case Switch(_, n) => [Setting(n, "true")]
       case Option(_, n, v) => [Setting(n, v)]
       case Joined(_, n, v) => [Setting(n, v)]
       case Word(_) => [])
      + Settings(items[1..])
  }

  function TheWords(items: seq<Item>): seq<string> {
    if items == [] then [] else (if items[0].Word? then [items[0].word] else []) + TheWords(items[1..])
  }

  // ---- The flags of each command ----

  const INIT := map["handle" := false, "relay" := false, "config" := false, "force" := true]
  const IDENTITY := map["config" := false, "relay" := false]
  const SEND := map["to" := false, "file" := false, "ttl" := false, "burn" := true, "relay" := false, "config" := false]
  const READ := map["save" := false, "relay" := false, "config" := false]
  const CHAT := map["with" := false, "group" := false, "relay" := false, "config" := false]
  const TUI := map["with" := false, "relay" := false, "config" := false, "ttl" := false, "burn" := true]
  const SHELL := map["port" := false]
  const RUN := map["port" := false, "open" := true, "relay" := false, "config" := false]

  /** Names the parser can tell from their hyphens and values. */
  predicate GoodName(n: string) {
    n != "" && n[0] != '-' && '=' !in n
  }

  /** Of its booleans all but those in `unknown` are known to the normaliser, and none of its other flags. */
  predicate Knows(fl: FlagSet, unknown: set<string>) {
    forall n :: n in fl.boolean ==>
      && GoodName(n)
      && (IsBoolFlag("-" + n) <==> fl.boolean[n] && n !in unknown)
      && (IsBoolFlag("--" + n) <==> fl.boolean[n] && n !in unknown)
  }

  // ---- How the normaliser groups it ----

  lemma {:induction false} UpToEqualsOf(n: string, v: string)
    requires '=' !in n
    ensures UpToEquals(n) == n && UpToEquals(n + "=" + v) == n
  {
    if n == "" {
      assert n + "=" + v == "=" + v;
    } else {
      assert n[0] in n && forall c :: c in n[1..] ==> c in n;
      assert (n + "=" + v)[1..] == n[1..] + "=" + v && (n + "=" + v)[0] == n[0];
      UpToEqualsOf(n[1..], v);
    }
  }

  lemma PartsOfFlag(h: string, n: string, v: string)
    requires h in {"-", "--"} && GoodName(n)
    ensures IsFlag(h + n) && '=' !in h + n && !BadSyntax(h + n) && NameOf(h + n) == n
    ensures var f := h + n + "=" + v; IsFlag(f) && '=' in f && !BadSyntax(f) && NameOf(f) == n && Attached(f) == v
  {
    var f := h + n + "=" + v;
    assert Unhyphened(h + n) == n;
    assert f == h + (n + "=" + v) && f[|h| + |n|] == '=';
    assert Unhyphened(f) == n + "=" + v;
    UpToEqualsOf(n, v);
    assert (n + "=" + v)[|n| + 1..] == v;
    assert forall c :: c in h + n ==> c in h || c in n;
  }

  /** The token an item is, unless it is an unknown boolean with a word behind it. */
  function TokenOf(i: Item): Token {
    match i
    case Switch(h, n) => Bare(h + n)
    case Option(h, n, v) => Valued(h + n, v)
    case Joined(h, n, v) => Bare(h + n + "=" + v)
    case Word(w) => Plain(w)
  }

  predicate Loose(i: Item, unknown: set<string>) {
    i.Switch? && i.name in unknown
  }

  lemma TokenAgrees(fl: FlagSet, unknown: set<string>, i: Item)
    requires Knows(fl, unknown) && Proper(fl, i)
    ensures WellFormed(TokenOf(i)) && Words(TokenOf(i)) == Spelled(i)
    ensures !i.Word? ==> Agrees(fl, TokenOf(i)) && [Meant(TokenOf(i))] == Settings([i])
    ensures (i.Switch? && !Loose(i, unknown)) || i.Joined? ==> !Wants(TokenOf(i).flag)
    ensures Loose(i, unknown) ==> Wants(TokenOf(i).flag)
  {
    if !i.Word? {
      PartsOfFlag(i.hyphens, i.name, if i.Switch? then "" else i.value);
    }
    assert [i][1..] == [];
  }

  function TokensOf(items: seq<Item>): seq<Token> {
    if items == [] then [] else [TokenOf(items[0])] + TokensOf(items[1..])
  }

  /** An unknown boolean with a word right behind it. */
  predicate Grabs(items: seq<Item>, unknown: set<string>, i: int) {
    0 <= i < |items| - 1 && Loose(items[i], unknown) && items[i + 1].Word?
  }

  lemma StartOfLine(fl: FlagSet, unknown: set<string>, items: seq<Item>)
    requires Knows(fl, unknown) && AllProper(fl, items) && items != []
    ensures CommandLine(items) != [] && (IsFlag(CommandLine(items)[0]) <==> !items[0].Word?)
  {
    assert items[0] in items;
    TokenAgrees(fl, unknown, items[0]);
  }

  /** Where no unknown boolean has a word behind it, the normaliser groups the line into its items. */
  lemma {:induction false} GroupedAsItems(fl: FlagSet, unknown: set<string>, items: seq<Item>, tail: seq<string>)
    requires Knows(fl, unknown) && AllProper(fl, items) && forall i :: !Grabs(items, unknown, i)
    requires tail == [] || IsFlag(tail[0])
    ensures Tokens(CommandLine(items) + tail) == TokensOf(items) + Tokens(tail)
  {
    if items == [] {
      assert [] + tail == tail && [] + Tokens(tail) == Tokens(tail);
    } else {
      var rest := items[1..];
      assert items[0] in items && forall i :: i in rest ==> i in items;
      forall i ensures !Grabs(rest, unknown, i) {
        assert !Grabs(items, unknown, i + 1);
      }
      GroupedAsItems(fl, unknown, rest, tail);
      TokenAgrees(fl, unknown, items[0]);
      assert !Grabs(items, unknown, 0);
      if rest != [] {
        StartOfLine(fl, unknown, rest);
      }
      Associative(Spelled(items[0]), CommandLine(rest), tail);
      RereadHead(TokenOf(items[0]), CommandLine(rest) + tail);
      Associative([TokenOf(items[0])], TokensOf(rest), Tokens(tail));
    }
  }

  lemma SettingsCons(i: Item, items: seq<Item>)
    ensures Settings([i] + items) == Settings([i]) + Settings(items)
    ensures TheWords([i] + items) == (if i.Word? then [i.word] else []) + TheWords(items)
  {
    assert ([i] + items)[1..] == items && [i][1..] == [];
  }

  lemma AllMeantCons(t: Token, ts: seq<Token>)
    ensures AllMeant([t] + ts) == [Meant(t)] + AllMeant(ts)
  {
    assert ([t] + ts)[1..] == ts;
  }

  lemma {:induction false} PartsOfItems(fl: FlagSet, unknown: set<string>, items: seq<Item>)
    requires Knows(fl, unknown) && AllProper(fl, items)
    ensures AllMeant(Flags(TokensOf(items))) == Settings(items) && Flat(Plains(TokensOf(items))) == TheWords(items)
    ensures forall t :: t in Flags(TokensOf(items)) ==> Agrees(fl, t)
  {
    if items != [] {
      var i, rest := items[0], items[1..];
      var t := TokenOf(i);
      assert i in items && (forall x :: x in rest ==> x in items) && items == [i] + rest;
      PartsOfItems(fl, unknown, rest);
      TokenAgrees(fl, unknown, i);
      PartitionOfCons(t, TokensOf(rest));
      SettingsCons(i, rest);
      if t.Plain? {
        FlatCons(t, Plains(TokensOf(rest)));
        assert Settings([i]) == [] by { assert [i][1..] == []; }
      } else {
        AllMeantCons(t, Flags(TokensOf(rest)));
      }
    }
  }

  lemma ReadAsMeant(fl: FlagSet, unknown: set<string>, items: seq<Item>)
    requires Knows(fl, unknown) && AllProper(fl, items) && forall i :: !Grabs(items, unknown, i)
    ensures GoParse(fl, Normalized(CommandLine(items))) == Parsed(Settings(items), TheWords(items))
  {
    GroupedAsItems(fl, unknown, items, []);
    assert CommandLine(items) + [] == CommandLine(items) && TokensOf(items) + [] == TokensOf(items);
    PartsOfItems(fl, unknown, items);
    ParsedAsGrouped(fl, CommandLine(items));
  }

  // ---- Commands whose booleans the normaliser knows ----

  lemma BooleanNames()
    ensures IsBoolFlag("-" + "burn") && IsBoolFlag("--" + "burn") && GoodName("burn")
    ensures IsBoolFlag("-" + "force") && IsBoolFlag("--" + "force") && GoodName("force")
  {
    assert "-" + "burn" == "-burn" && "--" + "burn" == "--burn";
    assert "-" + "force" == "-force" && "--" + "force" == "--force";
  }

  /** A flag of one or two hyphens is a known boolean only under one of these names. */
  lemma OtherNames(n: string)
    requires GoodName(n) && n !in {"burn", "force", "h", "help", "v", "version"}
    ensures !IsBoolFlag("-" + n) && !IsBoolFlag("--" + n)
  {
    var one, two := "-" + n, "--" + n;
    assert one[1..] == n && two[2..] == n && one[1] != '-' && two[1] == '-';
    assert "--burn"[2..] == "burn" && "--force"[2..] == "force" && "--help"[2..] == "help" && "--version"[2..] == "version";
  }

  lemma ValuedName(n: string)
    requires n in {"handle", "relay", "config", "to", "file", "ttl", "save", "with", "group", "port", "open"}
    ensures GoodName(n) && !IsBoolFlag("-" + n) && !IsBoolFlag("--" + n)
  {
    OtherNames(n);
  }

  lemma KnownFlags(fl: FlagSet)
    requires fl.boolean in {INIT, IDENTITY, SEND, READ, CHAT, TUI, SHELL}
    ensures Knows(fl, {})
  {
    BooleanNames();
    forall n | n in fl.boolean && !fl.boolean[n] ensures GoodName(n) && !IsBoolFlag("-" + n) && !IsBoolFlag("--" + n) {
      ValuedName(n);
    }
  }

  /** For every command but `run`: whatever the order in which flags, values and words are written, the parser gives
      each flag its value and leaves exactly the words. */
  lemma CommandIsRead(fl: FlagSet, items: seq<Item>)
    requires fl.boolean in {INIT, IDENTITY, SEND, READ, CHAT, TUI, SHELL} && AllProper(fl, items)
    ensures GoParse(fl, Normalized(CommandLine(items))) == Parsed(Settings(items), TheWords(items))
  {
    KnownFlags(fl);
    ReadAsMeant(fl, {}, items);
  }

  // ---- `run`, whose boolean `-open` the normaliser does not know ----

  /** What the flags in front say, and then what the rest says. */
  function After(settings: seq<Setting>, later: Outcome): Outcome {
    if later.Parsed? then later.(settings := settings + later.settings) else Failed
  }

  lemma {:induction false} ParseInFront(fl: FlagSet, ts: seq<Token>, tail: seq<string>)
    requires AllFlags(ts) && forall t :: t in ts ==> Agrees(fl, t)
    ensures GoParse(fl, Flat(ts) + tail) == After(AllMeant(ts), GoParse(fl, tail))
  {
    var later := GoParse(fl, tail);
    if ts == [] {
      assert [] + tail == tail;
      assert later.Parsed? ==> [] + later.settings == later.settings;
    } else {
      assert ts[0] in ts && forall t :: t in ts[1..] ==> t in ts;
      ParseInFront(fl, ts[1..], tail);
      Associative(Words(ts[0]), Flat(ts[1..]), tail);
      ParseElse(fl, ts[0], Flat(ts[1..]) + tail);
      if later.Parsed? {
        Associative([Meant(ts[0])], AllMeant(ts[1..]), later.settings);
      }
    }
  }

  lemma {:induction false} FlagsOfConcat(a: seq<Token>, b: seq<Token>)
    ensures Flags(a + b) == Flags(a) + Flags(b) && Plains(a + b) == Plains(a) + Plains(b)
  {
    if a == [] {
      assert a + b == b && [] + Flags(b) == Flags(b) && [] + Plains(b) == Plains(b);
    } else {
      FlagsOfConcat(a[1..], b);
      assert a + b == [a[0]] + (a[1..] + b) && a == [a[0]] + a[1..];
      PartitionOfCons(a[0], a[1..] + b);
      PartitionOfCons(a[0], a[1..]);
      Associative([a[0]], Flags(a[1..]), Flags(b));
      Associative([a[0]], Plains(a[1..]), Plains(b));
    }
  }

  lemma {:induction false} ConcatOfItems(a: seq<Item>, b: seq<Item>)
    ensures CommandLine(a + b) == CommandLine(a) + CommandLine(b)
    ensures Settings(a + b) == Settings(a) + Settings(b) && TheWords(a + b) == TheWords(a) + TheWords(b)
  {
    if a == [] {
      assert a + b == b && [] + CommandLine(b) == CommandLine(b);
      assert [] + Settings(b) == Settings(b) && [] + TheWords(b) == TheWords(b);
    } else {
      ConcatOfItems(a[1..], b);
      assert a + b == [a[0]] + (a[1..] + b) && a == [a[0]] + a[1..];
      assert ([a[0]] + (a[1..] + b))[1..] == a[1..] + b;
      SettingsCons(a[0], a[1..] + b);
      SettingsCons(a[0], a[1..]);
      Associative(Spelled(a[0]), CommandLine(a[1..]), CommandLine(b));
      Associative(Settings([a[0]]), Settings(a[1..]), Settings(b));
      Associative(if a[0].Word? then [a[0].word] else [], TheWords(a[1..]), TheWords(b));
    }
  }

  lemma GrabToken(fl: FlagSet, unknown: set<string>, sw: Item, w: string, back: seq<string>)
    requires Knows(fl, unknown) && Proper(fl, sw) && !Hyphened(w) && Loose(sw, unknown)
    ensures var t, tail := Valued(sw.hyphens + sw.name, w), Spelled(sw) + [w] + back;
            && WellFormed(t) && !BadSyntax(t.flag) && NameOf(t.flag) == sw.name
            && Words(t) == Spelled(sw) + [w] && IsFlag(tail[0]) && Tokens(tail) == [t] + Tokens(back)
  {
    TokenAgrees(fl, unknown, sw);
    PartsOfFlag(sw.hyphens, sw.name, "");
    RereadHead(Valued(sw.hyphens + sw.name, w), back);
  }

  /** The first unknown boolean with a word behind it: what comes after both is flags the parser never sees, and
      the words the normaliser moved behind them. */
  lemma ReadToGrab(fl: FlagSet, unknown: set<string>, front: seq<Item>, sw: Item, w: string, back: seq<Item>)
    requires Knows(fl, unknown) && AllProper(fl, front) && Proper(fl, sw) && !Hyphened(w) && Loose(sw, unknown)
    requires forall i :: !Grabs(front, unknown, i)
    ensures var hidden := Tokens(CommandLine(back));
            GoParse(fl, Normalized(CommandLine(front) + (Spelled(sw) + [w] + CommandLine(back)))) ==
            Parsed(Settings(front) + [Setting(sw.name, "true")],
                   [w] + (Flat(Flags(hidden)) + (TheWords(front) + Flat(Plains(hidden)))))
  {
    var hidden, t := Tokens(CommandLine(back)), Valued(sw.hyphens + sw.name, w);
    var tail := Spelled(sw) + [w] + CommandLine(back);
    GrabToken(fl, unknown, sw, w, CommandLine(back));
    GroupedAsItems(fl, unknown, front, tail);
    PartsOfItems(fl, unknown, front);
    GrabNormalized(fl, TokensOf(front), t, hidden, CommandLine(front) + tail);
    var rest := Flat(Flags(hidden)) + (Flat(Plains(TokensOf(front))) + Flat(Plains(hidden)));
    FrontIsFlags(fl, unknown, front);
    ReadGrabbed(fl, Flags(TokensOf(front)), t, sw.name, rest);
  }

  lemma ReadGrabbed(fl: FlagSet, fs: seq<Token>, t: Token, name: string, rest: seq<string>)
    requires AllFlags(fs) && (forall x :: x in fs ==> Agrees(fl, x)) && WellFormed(t) && t.Valued?
    requires !BadSyntax(t.flag) && NameOf(t.flag) == name && name in fl.boolean && fl.boolean[name] && fl.accepts(name, "true")
    ensures GoParse(fl, Flat(fs) + (Words(t) + rest)) == Parsed(AllMeant(fs) + [Setting(name, "true")], [t.value] + rest)
  {
    ParseInFront(fl, fs, Words(t) + rest);
    ParseStopped(fl, t, rest);
  }

  lemma {:induction false} FrontIsFlags(fl: FlagSet, unknown: set<string>, items: seq<Item>)
    requires Knows(fl, unknown) && AllProper(fl, items)
    ensures AllFlags(Flags(TokensOf(items)))
  {
    if items != [] {
      assert items[0] in items && forall i :: i in items[1..] ==> i in items;
      TokenAgrees(fl, unknown, items[0]);
      FrontIsFlags(fl, unknown, items[1..]);
      PartitionOfCons(TokenOf(items[0]), TokensOf(items[1..]));
      var fs := Flags(TokensOf(items[1..]));
      assert ([TokenOf(items[0])] + fs)[1..] == fs;
    }
  }

  lemma GrabNormalized(fl: FlagSet, front: seq<Token>, t: Token, hidden: seq<Token>, args: seq<string>)
    requires Tokens(args) == front + ([t] + hidden) && t.Valued?
    ensures Normalized(args) ==
            Flat(Flags(front)) + (Words(t) + (Flat(Flags(hidden)) + (Flat(Plains(front)) + Flat(Plains(hidden)))))
  {
    FlagsOfConcat(front, [t] + hidden);
    PartitionOfCons(t, hidden);
    FlatOfConcat(Flags(front), [t] + Flags(hidden));
    FlatOfConcat(Plains(front), Plains(hidden));
    FlatCons(t, Flags(hidden));
    var moved := Flat(Plains(front)) + Flat(Plains(hidden));
    Associative(Words(t), Flat(Flags(hidden)), moved);
    Associative(Flat(Flags(front)), Words(t) + Flat(Flags(hidden)), moved);
  }

  // ---- When that does no harm ----

  /** Only words come after the word behind the unknown boolean, and the ones before it, if any, are that same word. */
  predicate Harmless(items: seq<Item>, i: int) {
    && 0 <= i < |items| - 1
    && (forall j :: i + 1 < j < |items| ==> items[j].Word?)
    && (forall j :: 0 <= j < i && items[j].Word? ==> items[j] == items[i + 1])
  }

  lemma {:induction false} Rotated(xs: seq<string>, w: string, ys: seq<string>)
    ensures [w] + (xs + ys) == xs + ([w] + ys) <==> forall x :: x in xs ==> x == w
  {
    if xs == [] {
      assert [w] + (xs + ys) == xs + ([w] + ys);
    } else {
      var rest := xs[1..];
      var a, b := [w] + (xs + ys), xs + ([w] + ys);
      Rotated(rest, w, ys);
      assert forall x :: x in xs <==> x == xs[0] || x in rest;
      assert a[0] == w && b[0] == xs[0] && b[1..] == rest + ([w] + ys);
      assert a[1..] == [xs[0]] + (rest + ys);
      if xs[0] == w {
        assert a == [w] + a[1..] && b == [w] + b[1..];
      } else {
        assert xs[0] in xs;
      }
    }
  }

  lemma {:induction false} WordsOnly(items: seq<Item>)
    requires forall i :: i in items ==> i.Word? && !Hyphened(i.word)
    ensures Settings(items) == []
    ensures Flags(Tokens(CommandLine(items))) == [] && Flat(Plains(Tokens(CommandLine(items)))) == TheWords(items)
  {
    if items != [] {
      var w, rest := items[0].word, items[1..];
      assert items[0] in items && forall i :: i in rest ==> i in items;
      WordsOnly(rest);
      assert CommandLine(items)[1..] == CommandLine(rest) && Head(CommandLine(items)) == Plain(w);
      PartitionOfCons(Plain(w), Tokens(CommandLine(rest)));
      FlatCons(Plain(w), Plains(Tokens(CommandLine(rest))));
    }
  }

  lemma {:induction false} SomeSetting(items: seq<Item>, j: nat)
    requires j < |items| && !items[j].Word?
    ensures Settings(items) != []
  {
    if j > 0 {
      SomeSetting(items[1..], j - 1);
    }
  }

  lemma {:induction false} WordsAre(items: seq<Item>, w: string)
    ensures (forall x :: x in TheWords(items) ==> x == w) <==> forall i :: i in items && i.Word? ==> i == Word(w)
  {
    if items != [] {
      var rest := items[1..];
      WordsAre(rest, w);
      assert items == [items[0]] + rest;
      assert forall x :: x in TheWords(items) <==> x in TheWords(rest) || (items[0].Word? && x == items[0].word);
      assert forall i :: i in items <==> i == items[0] || i in rest;
      if items[0].Word? {
        assert items[0] == Word(items[0].word) && items[0].word in TheWords(items) && items[0] in items;
      }
    }
  }

  lemma GrabIff(fl: FlagSet, unknown: set<string>, front: seq<Item>, sw: Item, w: string, back: seq<Item>)
    requires Knows(fl, unknown) && AllProper(fl, front) && AllProper(fl, back) && Proper(fl, sw) && !Hyphened(w) && Loose(sw, unknown)
    requires forall i :: !Grabs(front, unknown, i)
    ensures GoParse(fl, Normalized(CommandLine(front) + (Spelled(sw) + [w] + CommandLine(back)))) ==
              Parsed(Settings(front) + ([Setting(sw.name, "true")] + Settings(back)), TheWords(front) + ([w] + TheWords(back)))
       <==> (forall i :: i in back ==> i.Word?) && forall x :: x in TheWords(front) ==> x == w
  {
    var s := [Setting(sw.name, "true")];
    ReadToGrab(fl, unknown, front, sw, w, back);
    if forall i :: i in back ==> i.Word? {
      assert forall i :: i in back ==> Proper(fl, i);
      WordsOnly(back);
      Rotated(TheWords(front), w, TheWords(back));
      assert s + [] == s && [] + (TheWords(front) + TheWords(back)) == TheWords(front) + TheWords(back);
    } else {
      var j :| 0 <= j < |back| && !back[j].Word?;
      SomeSetting(back, j);
      assert |Settings(front) + (s + Settings(back))| > |Settings(front) + s|;
    }
  }

  /** For any command, whatever its unknown booleans: its line is read as meant exactly if each word right behind such
      a boolean does no harm there. */
  lemma ReadIff(fl: FlagSet, unknown: set<string>, items: seq<Item>)
    requires Knows(fl, unknown) && AllProper(fl, items)
    ensures GoParse(fl, Normalized(CommandLine(items))) == Parsed(Settings(items), TheWords(items))
       <==> forall i :: Grabs(items, unknown, i) ==> Harmless(items, i)
  {
    if g :| Grabs(items, unknown, g) && forall i :: i < g ==> !Grabs(items, unknown, i) {
      var front, sw, w, back := items[..g], items[g], items[g + 1].word, items[g + 2..];
      SplitAtGrab(fl, unknown, items, g);
      GrabIff(fl, unknown, front, sw, w, back);
      WordsAre(front, w);
      HarmlessThere(items, unknown, g);
    } else {
      NoFirst(items, unknown, |items|);
      ReadAsMeant(fl, unknown, items);
    }
  }

  lemma {:induction false} NoFirst(items: seq<Item>, unknown: set<string>, n: nat)
    requires forall g :: Grabs(items, unknown, g) ==> exists i :: i < g && Grabs(items, unknown, i)
    ensures forall i :: i < n ==> !Grabs(items, unknown, i)
  {
    if n > 0 {
      NoFirst(items, unknown, n - 1);
    }
  }

  lemma SplitAtGrab(fl: FlagSet, unknown: set<string>, items: seq<Item>, g: int)
    requires AllProper(fl, items) && Grabs(items, unknown, g) && forall i :: i < g ==> !Grabs(items, unknown, i)
    ensures var front, sw, w, back := items[..g], items[g], items[g + 1].word, items[g + 2..];
            && CommandLine(items) == CommandLine(front) + (Spelled(sw) + [w] + CommandLine(back))
            && Settings(items) == Settings(front) + ([Setting(sw.name, "true")] + Settings(back))
            && TheWords(items) == TheWords(front) + ([w] + TheWords(back))
            && AllProper(fl, front) && AllProper(fl, back) && Proper(fl, sw) && !Hyphened(w)
            && forall i :: !Grabs(front, unknown, i)
  {
    var front, back := items[..g], items[g + 2..];
    assert items == front + ([items[g]] + ([items[g + 1]] + back));
    ConcatAround(front, items[g], items[g + 1].word, back);
    assert items[g] in items && items[g + 1] in items;
    forall i ensures !Grabs(front, unknown, i) {
      assert i < g ==> !Grabs(items, unknown, i);
    }
  }

  lemma ConcatAround(front: seq<Item>, sw: Item, w: string, back: seq<Item>)
    requires sw.Switch?
    ensures var items := front + ([sw] + ([Word(w)] + back));
            && CommandLine(items) == CommandLine(front) + (Spelled(sw) + [w] + CommandLine(back))
            && Settings(items) == Settings(front) + ([Setting(sw.name, "true")] + Settings(back))
            && TheWords(items) == TheWords(front) + ([w] + TheWords(back))
  {
    ConcatOfItems(front, [sw] + ([Word(w)] + back));
    ConcatOfItems([sw], [Word(w)] + back);
    ConcatOfItems([Word(w)], back);
    OneItem(sw);
    OneItem(Word(w));
    Associative(Spelled(sw), [w], CommandLine(back));
    assert [] + Settings(back) == Settings(back) && [] + ([w] + TheWords(back)) == [w] + TheWords(back);
  }

  lemma OneItem(i: Item)
    ensures CommandLine([i]) == Spelled(i)
    ensures i.Switch? ==> Settings([i]) == [Setting(i.name, "true")] && TheWords([i]) == []
    ensures i.Word? ==> Settings([i]) == [] && TheWords([i]) == [i.word]
  {
    assert [i][1..] == [];
    assert Spelled(i) + [] == Spelled(i);
  }

  lemma HarmlessThere(items: seq<Item>, unknown: set<string>, g: int)
    requires Grabs(items, unknown, g) && forall i :: i < g ==> !Grabs(items, unknown, i)
    ensures (forall i :: Grabs(items, unknown, i) ==> Harmless(items, i)) <==>
            (forall i :: i in items[g + 2..] ==> i.Word?)
            && forall i :: i in items[..g] && i.Word? ==> i == Word(items[g + 1].word)
  {
    assert items[g + 1] == Word(items[g + 1].word);
    var back := items[g + 2..];
    assert forall i :: i in back <==> exists j :: g + 1 < j < |items| && items[j] == i;
    if Harmless(items, g) {
      assert forall i :: 0 <= i < |items| && Loose(items[i], unknown) ==> i <= g;
    }
  }

  /** `-open` with a word right behind it. */
  predicate OpenBefore(items: seq<Item>, i: int) {
    0 <= i < |items| - 1 && items[i].Switch? && items[i].name == "open" && items[i + 1].Word?
  }

  /** So for `run`: a word right behind `-open` may only be followed by words, and preceded by none but itself. */
  lemma RunIsReadIff(fl: FlagSet, items: seq<Item>)
    requires fl.boolean == RUN && AllProper(fl, items)
    ensures GoParse(fl, Normalized(CommandLine(items))) == Parsed(Settings(items), TheWords(items))
       <==> forall i :: OpenBefore(items, i) ==> Harmless(items, i)
  {
    RunFlags(fl);
    ReadIff(fl, {"open"}, items);
    assert forall i :: Grabs(items, {"open"}, i) <==> OpenBefore(items, i);
  }

  lemma RunFlags(fl: FlagSet)
    requires fl.boolean == RUN
    ensures Knows(fl, {"open"})
  {
    forall n | n in fl.boolean ensures GoodName(n) && !IsBoolFlag("-" + n) && !IsBoolFlag("--" + n) {
      ValuedName(n);
    }
  }
}
