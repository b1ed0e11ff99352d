/** Share links: what `send` prints and how `read` gets the ID back out of it. Characters stand for bytes. */
module ShareLinks {
  import opened Ascii
  import opened Base64
  import opened ShareIds

  const ESC := 27 as char

  // ---- Terminal colour codes ----

  predicate IsParam(c: char) {
    '0' <= c <= '9' || c == ';'
  }

  predicate IsLetter(c: char) {
    'a' <= c <= 'z' || 'A' <= c <= 'Z'
  }

  /** Length of the leading run of colour parameters. */
  function Run(s: string): (n: nat)
    ensures n <= |s|
    ensures n < |s| ==> !IsParam(s[n])
  {
    if s != [] && IsParam(s[0]) then 1 + Run(s[1..]) else 0
  }

  /** Length of the colour code that starts here, 0 if none does: ESC [ params letter, or [ params m. */
  function CodeLength(s: string): (n: nat)
    ensures n <= |s|
  {
    if |s| >= 2 && s[0] == ESC && s[1] == '[' then
      var n := Run(s[2..]);
      if 2 + n < |s| && IsLetter(s[2 + n]) then 3 + n else 0
    else if |s| >= 1 && s[0] == '[' then
      var n := Run(s[1..]);
      if 1 + n < |s| && s[1 + n] == 'm' then 2 + n else 0
    else 0
  }

  function StripCodes(s: string): string {
    if s == [] then []
    else
      var n := CodeLength(s);
      if n > 0 then StripCodes(s[n..]) else [s[0]] + StripCodes(s[1..])
  }

  /** No colour code starts anywhere in `s`. */
  predicate NoCodes(s: string) {
    s == [] || (CodeLength(s) == 0 && NoCodes(s[1..]))
  }

  // ---- URLs ----

  const HTTP := "http://"
  const HTTPS := "https://"

  predicate IsHttp(s: string) {
    HTTP <= s || HTTPS <= s
  }

  /** What follows the scheme. */
  function AfterScheme(s: string): string
    requires IsHttp(s)
  {
    if HTTP <= s then s[7..] else s[8..]
  }

  /** The text before the first `c`, all of it if there is none. */
  function Before(s: string, c: char): (t: string)
    ensures t <= s && c !in t
    ensures |t| < |s| ==> s[|t|] == c
    ensures c !in s ==> t == s
  {
    if s == [] || s[0] == c then [] else [s[0]] + Before(s[1..], c)
  }

  predicate IsControl(c: char) {
    c < ' ' || c == 127 as char
  }

  function HexValue(c: char): (v: Option<int>)
    ensures v.Some? ==> 0 <= v.value < 16
  {
    if '0' <= c <= '9' then Some((c - '0') as int)
    else if 'a' <= c <= 'f' then Some((c - 'a') as int + 10)
    else if 'A' <= c <= 'F' then Some((c - 'A') as int + 10)
    else None
  }

  /** The first character of escaped text and how many characters spell it. */
  function Unit(s: string): (r: Option<(char, nat)>)
    requires s != []
    ensures r.Some? ==> 1 <= r.value.1 <= |s|
  {
    if s[0] != '%' then Some((s[0], 1))
    else if |s| < 3 || HexValue(s[1]).None? || HexValue(s[2]).None? then None
    else Some(((HexValue(s[1]).value * 16 + HexValue(s[2]).value) as char, 3))
  }

  /** Percent-decoding; nothing when an escape is malformed. */
  function Unescape(s: string): Option<string> {
    if s == [] then Some([])
    else if Unit(s).None? then None
    else
      var rest := Unescape(s[Unit(s).value.1..]);
      if rest.None? then None else Some([Unit(s).value.0] + rest.value)
  }

  /** The decoded path of an http(s) URL; nothing when the URL does not parse.
      `authorityOk` is the parser's own verdict on the host part. */
  function UrlPath(s: string, authorityOk: string -> bool): Option<string>
    requires IsHttp(s)
  {
    var beforeFragment := Before(s, '#');
    if (exists c :: c in s && IsControl(c)) || Unescape(s[|beforeFragment|..]).None? then None
    else
      var hier := AfterScheme(s)[..|Before(Before(AfterScheme(s), '#'), '?')|];
      var authority := Before(hier, '/');
      if !authorityOk(authority) then None else Unescape(hier[|authority|..])
  }

  function TrimSlashesRight(s: string): (t: string)
    ensures t <= s && (t == [] || t[|t| - 1] != '/')
  {
    if s != [] && s[|s| - 1] == '/' then TrimSlashesRight(s[..|s| - 1]) else s
  }

  function TrimSlashesLeft(s: string): string {
    if s != [] && s[0] == '/' then TrimSlashesLeft(s[1..]) else s
  }

  /** The piece after the last slash. */
  function LastSegment(s: string): string {
    if '/' in s then LastSegment(s[|Before(s, '/')| + 1..]) else s
  }

  /** The ID in a clean piece of text: the last segment of a URL's path, or the text itself. */
  function IdOfText(text: string, authorityOk: string -> bool): string {
    if IsHttp(text) then
      var path := UrlPath(text, authorityOk);
      if path.Some? then IdOfPath(path.value) else text
    else text
  }

  function IdOfPath(path: string): string {
    LastSegment(TrimSlashesLeft(TrimSlashesRight(path)))
  }

  function ExtractPasteId(input: string, authorityOk: string -> bool): string {
    IdOfText(TrimSpace(StripCodes(input)), authorityOk)
  }

  /** The link that `send` prints for an ID on a relay. */
  function ShareLink(relay: string, id: string): string {
    TrimSlashesRight(relay) + "/paste/" + id
  }

  const CYAN := [ESC] + "[36m"
  const RESET := [ESC] + "[0m"

  /** The relay addresses the round trip is promised for: http(s), no query, no fragment, no control
      characters or colour codes, well-formed escapes, and a host the URL parser accepts. */
  predicate PlainRelay(relay: string, authorityOk: string -> bool) {
    var base := TrimSlashesRight(relay);
    && IsHttp(base)
    && '#' !in base && '?' !in base
    && (forall c :: c in base ==> !IsControl(c))
    && NoCodes(base)
    && var authority := Before(AfterScheme(base), '/');
       authorityOk(authority) && Unescape(AfterScheme(base)[|authority|..]).Some?
  }

  predicate Alphanumeric(id: string) {
    id != [] && forall c :: c in id ==> IsLetter(c) || '0' <= c <= '9'
  }

  // ---- What counts as a colour code, and text that is no link ----

  predicate Params(s: string) {
    forall c :: c in s ==> c == ';' || c in "0123456789"
  }

  lemma IsParamIs(c: char)
    ensures IsParam(c) <==> c == ';' || c in "0123456789"
  {
    if '0' <= c <= '9' { assert "0123456789"[c as int - 48] == c; }
  }

  lemma {:induction false} RunOf(ps: string, rest: string)
    requires Params(ps) && rest != "" && rest[0] != ';' && rest[0] !in "0123456789"
    ensures Run(ps + rest) == |ps|
  {
    if ps == "" {
      assert ps + rest == rest;
      IsParamIs(rest[0]);
    } else {
      assert ps[0] in ps && (forall c :: c in ps[1..] ==> c in ps) && (ps + rest)[1..] == ps[1..] + rest;
      IsParamIs(ps[0]);
      RunOf(ps[1..], rest);
    }
  }

  /** A code is ESC, a bracket, parameters and a letter, or the same without ESC and with an `m`; it is taken out
      whole, wherever it is. */
  lemma CodeIsStripped(ps: string, letter: char, rest: string)
    requires Params(ps) && ('a' <= letter <= 'z' || 'A' <= letter <= 'Z')
    ensures StripCodes([ESC] + "[" + ps + [letter] + rest) == StripCodes(rest)
    ensures letter == 'm' ==> StripCodes("[" + ps + [letter] + rest) == StripCodes(rest)
  {
    var a, b := [ESC] + "[" + ps + [letter] + rest, "[" + ps + [letter] + rest;
    LongCode(a, ps, letter, rest);
    if letter == 'm' {
      ShortCode(b, ps, rest);
    }
  }

  lemma LongCode(s: string, ps: string, letter: char, rest: string)
    requires Params(ps) && IsLetter(letter) && s == [ESC] + "[" + ps + [letter] + rest
    ensures CodeLength(s) == 3 + |ps| && s[3 + |ps|..] == rest
  {
    RunOf(ps, [letter] + rest);
    assert s[2..] == ps + ([letter] + rest) && s[2 + |ps|] == letter;
  }

  lemma ShortCode(s: string, ps: string, rest: string)
    requires Params(ps) && s == "[" + ps + ['m'] + rest
    ensures CodeLength(s) == 2 + |ps| && s[2 + |ps|..] == rest
  {
    RunOf(ps, ['m'] + rest);
    assert s[1..] == ps + (['m'] + rest) && s[1 + |ps|] == 'm';
  }

  /** Nothing else is: what is taken from the front is such a code. */
  lemma OnlyCodesAreStripped(s: string) returns (ps: string, letter: char)
    requires CodeLength(s) > 0
    ensures Params(ps) && ('a' <= letter <= 'z' || 'A' <= letter <= 'Z')
    ensures s[..CodeLength(s)] == [ESC] + "[" + ps + [letter] || (letter == 'm' && s[..CodeLength(s)] == "[" + ps + [letter])
  {
    var from := if s[0] == ESC then 2 else 1;
    var n := Run(s[from..]);
    ps, letter := s[from..][..n], s[from + n];
    RunIsParams(s[from..]);
    assert s[..from + n + 1] == s[..from] + ps + [letter];
  }

  lemma {:induction false} RunIsParams(s: string)
    ensures Params(s[..Run(s)])
  {
    if s != "" && IsParam(s[0]) {
      RunIsParams(s[1..]);
      assert s[..Run(s)] == [s[0]] + s[1..][..Run(s[1..])];
    }
  }

  lemma {:induction false} NoCodesKept(s: string)
    requires NoCodes(s)
    ensures StripCodes(s) == s
  {
    if s != "" {
      NoCodesKept(s[1..]);
    }
  }

  /** Text that is no link, as a bare ID, is taken as it is, without the white space around it. */
  lemma BareText(front: string, text: string, back: string, authorityOk: string -> bool)
    requires Blank(front) && Blank(back) && NoCodes(front + text + back)
    requires text == "" || (!Blank(text[..1]) && !Blank(text[|text| - 1..]))
    requires !("http://" <= text) && !("https://" <= text)
    ensures ExtractPasteId(front + text + back, authorityOk) == text
  {
    NoCodesKept(front + text + back);
    TrimSpaceIs(front, text, back);
  }

  lemma {:induction false} NoBracketNoCodes(s: string)
    requires ESC !in s && '[' !in s
    ensures NoCodes(s)
  {
    if s != "" {
      assert s[0] in s && forall c :: c in s[1..] ==> c in s;
      NoBracketNoCodes(s[1..]);
    }
  }

  // ---- Stripping colour codes leaves a link alone ----

  lemma {:induction false} RunStops(s: string, t: string)
    requires t != [] && !IsParam(t[0])
    ensures Run(s + t) == Run(s)
  {
    if s == [] {
    } else {
      assert (s + t)[1..] == s[1..] + t;
      RunStops(s[1..], t);
    }
  }

  /** A code cannot reach across a slash. */
  lemma CodeStops(s: string, t: string)
    requires s != [] && s != [ESC] && CodeLength(s) == 0
    requires t != [] && t[0] == '/'
    ensures CodeLength(s + t) == 0
  {
    if |s| >= 2 {
      assert (s + t)[2..] == s[2..] + t;
      RunStops(s[2..], t);
    }
    assert (s + t)[1..] == s[1..] + t;
    RunStops(s[1..], t);
  }

  /** With `t` behind it, no colour code starts inside `s`. */
  predicate PlainFront(s: string, t: string) {
    s == [] || (CodeLength(s + t) == 0 && PlainFront(s[1..], t))
  }

  lemma {:induction false} StripFront(s: string, t: string)
    requires PlainFront(s, t)
    ensures StripCodes(s + t) == s + StripCodes(t)
  {
    if s == [] {
      assert s + t == t;
    } else {
      HeadAndTail(s, t);
      StripFront(s[1..], t);
      HeadAndTail(s, StripCodes(t));
    }
  }

  lemma {:induction false} FrontOfBase(base: string, t: string)
    requires NoCodes(base) && (base == [] || base[|base| - 1] != ESC)
    requires t != [] && t[0] == '/'
    ensures PlainFront(base, t)
  {
    if base != [] {
      CodeStops(base, t);
      FrontOfBase(base[1..], t);
    }
  }

  lemma {:induction false} FrontOfPath(path: string, t: string)
    requires ESC !in path && '[' !in path
    ensures PlainFront(path, t)
  {
    if path != [] {
      assert (path + t)[0] == path[0] && path[0] in path;
      FrontOfPath(path[1..], t);
    }
  }

  // ---- Parsing the link ----

  lemma DropOf(s: string, t: string, n: nat)
    requires n <= |s|
    ensures (s + t)[n..] == s[n..] + t
  {
  }

  lemma {:induction false} BeforeOf(s: string, t: string, c: char)
    requires c !in s
    ensures Before(s + t, c) == s + Before(t, c)
  {
    if s == [] {
      assert s + t == t;
    } else {
      HeadAndTail(s, t);
      BeforeOf(s[1..], t, c);
      HeadAndTail(s, Before(t, c));
    }
  }

  lemma {:induction false} BeforeStays(s: string, t: string, c: char)
    requires c in s
    ensures Before(s + t, c) == Before(s, c)
  {
    assert (s + t)[1..] == s[1..] + t;
    if s[0] != c {
      BeforeStays(s[1..], t, c);
    }
  }

  lemma {:induction false} UnescapePlain(s: string)
    requires '%' !in s
    ensures Unescape(s) == Some(s)
  {
    if s != [] {
      assert s[0] in s;
      UnescapePlain(s[1..]);
      assert s == [s[0]] + s[1..];
    }
  }

  lemma {:induction false} UnescapeOf(s: string, t: string)
    requires Unescape(s).Some? && '%' !in t
    ensures Unescape(s + t) == Some(Unescape(s).value + t)
  {
    if s == [] {
      assert s + t == t;
      UnescapePlain(t);
    } else {
      var (c, n) := Unit(s).value;
      assert Unit(s + t) == Some((c, n));
      DropOf(s, t, n);
      UnescapeOf(s[n..], t);
      Associative([c], Unescape(s[n..]).value, t);
    }
  }

  lemma {:induction false} LastSegmentOf(s: string, id: string)
    requires '/' !in id
    ensures LastSegment(s + "/" + id) == id
    decreases |s|
  {
    var w := s + "/" + id;
    assert w[|s|] == '/';
    if '/' in s {
      var b := Before(s, '/');
      assert w == s + ("/" + id);
      BeforeStays(s, "/" + id, '/');
      assert w[|b| + 1..] == s[|b| + 1..] + "/" + id;
      LastSegmentOf(s[|b| + 1..], id);
    } else {
      assert w == s + ("/" + id);
      BeforeOf(s, "/" + id, '/');
      assert Before("/" + id, '/') == [];
      assert w[|s| + 1..] == id;
    }
  }

  /** Trimming slashes on the left either leaves a longer path or exactly the last segment. */
  lemma {:induction false} SlashesBeforeSegment(s: string, id: string) returns (t: string)
    requires '/' !in id && id != []
    ensures TrimSlashesLeft(s + "/" + id) == t + "/" + id || TrimSlashesLeft(s + "/" + id) == id
  {
    t := s;
    var w := s + "/" + id;
    if s == [] {
      assert w == "/" + id && w[1..] == id;
      assert TrimSlashesLeft(id) == id;
    } else if s[0] == '/' {
      assert w[1..] == s[1..] + "/" + id;
      t := SlashesBeforeSegment(s[1..], id);
    }
  }

  lemma LastOfPath(p: string, id: string)
    requires '/' !in id && id != []
    ensures IdOfPath(p + "/" + id) == id
  {
    var w := p + "/" + id;
    assert w[|w| - 1] == id[|id| - 1];
    var t := SlashesBeforeSegment(p, id);
    if TrimSlashesLeft(w) != id {
      LastSegmentOf(t, id);
    }
  }

  lemma PlainUrlPath(s: string, authorityOk: string -> bool)
    requires IsHttp(s) && '#' !in s && '?' !in s
    requires forall c :: c in s ==> !IsControl(c)
    ensures UrlPath(s, authorityOk) ==
            var authority := Before(AfterScheme(s), '/');
            if authorityOk(authority) then Unescape(AfterScheme(s)[|authority|..]) else None
  {
    var rest := AfterScheme(s);
    assert '#' !in rest && '?' !in rest;
    assert s[|Before(s, '#')|..] == [];
    assert rest[..|rest|] == rest;
  }

  lemma AuthorityOfLink(rest: string, tail: string)
    requires tail != [] && tail[0] == '/'
    ensures Before(rest + tail, '/') == Before(rest, '/')
    ensures (rest + tail)[|Before(rest, '/')|..] == rest[|Before(rest, '/')|..] + tail
  {
    if '/' in rest {
      BeforeStays(rest, tail, '/');
      DropOf(rest, tail, |Before(rest, '/')|);
    } else {
      BeforeOf(rest, tail, '/');
      BeforeOf(rest, [], '/');
      assert rest + [] == rest;
      DropOf(rest, tail, |rest|);
    }
  }

  predicate PlainChar(c: char) {
    c != '#' && c != '?' && c != '%' && c != '[' && !IsControl(c)
  }

  /** What the link adds to the relay address: a slash and characters no parser treats specially. */
  predicate PlainTail(tail: string) {
    tail != [] && tail[0] == '/' && forall c :: c in tail ==> PlainChar(c)
  }

  lemma TailIsPlain(id: string)
    requires Alphanumeric(id)
    ensures PlainTail("/paste/" + id) && '/' !in id
  {
    assert forall c :: c in "/paste/" ==> PlainChar(c);
  }

  lemma SchemeOfLink(base: string, tail: string)
    requires IsHttp(base)
    ensures IsHttp(base + tail) && AfterScheme(base + tail) == AfterScheme(base) + tail
    ensures base[0] == 'h'
  {
  }

  lemma PathOfLink(base: string, tail: string, authorityOk: string -> bool) returns (p: string)
    requires PlainRelay(base, authorityOk) && base == TrimSlashesRight(base) && PlainTail(tail)
    ensures IsHttp(base + tail)
    ensures UrlPath(base + tail, authorityOk) == Some(p + tail)
  {
    var rest := AfterScheme(base);
    var path := rest[|Before(rest, '/')|..];
    SchemeOfLink(base, tail);
    assert forall c :: c in base + tail ==> c in base || c in tail;
    PlainUrlPath(base + tail, authorityOk);
    AuthorityOfLink(rest, tail);
    UnescapeOf(path, tail);
    p := Unescape(path).value;
  }

  /** Stripping reaches past the address and its tail, whatever plain text or code comes after. */
  lemma StripLink(base: string, tail: string, after: string)
    requires NoCodes(base) && (base == [] || base[|base| - 1] != ESC) && PlainTail(tail)
    ensures StripCodes(base + (tail + after)) == base + (tail + StripCodes(after))
  {
    FrontOfPath(tail, after);
    StripFront(tail, after);
    FrontOfBase(base, tail + after);
    StripFront(base, tail + after);
  }

  lemma StripPlain(base: string, tail: string)
    requires NoCodes(base) && base != [] && base[|base| - 1] != ESC && PlainTail(tail)
    ensures StripCodes(base + tail) == base + tail
    ensures StripCodes(CYAN + (base + tail) + RESET) == base + tail
  {
    var link := base + tail;
    StripLink(base, tail, []);
    assert tail + [] == tail;
    StripLink(base, tail, RESET);
    ResetStripped();
    Associative(base, tail, RESET);
    Associative(CYAN, link, RESET);
    CyanStripped(link + RESET);
  }

  lemma IdOfUrl(text: string, path: string, authorityOk: string -> bool)
    requires IsHttp(text) && UrlPath(text, authorityOk) == Some(path)
    ensures IdOfText(text, authorityOk) == IdOfPath(path)
  {
  }

  lemma ReadsText(base: string, path: string, id: string, tail: string, authorityOk: string -> bool)
    requires PlainRelay(base, authorityOk) && base == TrimSlashesRight(base)
    requires id != [] && '/' !in id && tail == path + "/" + id && PlainTail(tail)
    ensures IdOfText(base + tail, authorityOk) == id
  {
    var p := PathOfLink(base, tail, authorityOk);
    IdOfUrl(base + tail, p + tail, authorityOk);
    SegmentAtEnd(p, path, id, tail);
  }

  lemma SegmentAtEnd(p: string, path: string, id: string, tail: string)
    requires id != [] && '/' !in id && tail == path + "/" + id
    ensures IdOfPath(p + tail) == id
  {
    assert p + tail == (p + path) + "/" + id;
    LastOfPath(p + path, id);
  }

  lemma LinkIsTrimmed(base: string, tail: string, id: string)
    requires base != [] && base[0] == 'h' && Alphanumeric(id) && |tail| >= |id| && tail[|tail| - |id|..] == id
    ensures Trimmed(base + tail)
  {
    var link := base + tail;
    assert link[|link| - 1] == tail[|tail| - 1] == id[|id| - 1];
    assert id[|id| - 1] in id;
  }

  lemma LinkParts(relay: string, id: string)
    ensures ShareLink(relay, id) == TrimSlashesRight(relay) + ("/paste/" + id)
    ensures "/paste/" + id == "/paste" + "/" + id
    ensures TrimSlashesRight(TrimSlashesRight(relay)) == TrimSlashesRight(relay)
  {
  }

  lemma ExtractOf(input: string, link: string, authorityOk: string -> bool)
    requires StripCodes(input) == link && Trimmed(link)
    ensures ExtractPasteId(input, authorityOk) == IdOfText(link, authorityOk)
  {
  }

  /** For any tail that ends in the ID: the link is read back, bare or coloured. */
  lemma TailRoundTrip(base: string, path: string, id: string, tail: string, authorityOk: string -> bool)
    requires PlainRelay(base, authorityOk) && base == TrimSlashesRight(base) && base != []
    requires Alphanumeric(id) && '/' !in id && tail == path + "/" + id && PlainTail(tail)
    ensures ExtractPasteId(base + tail, authorityOk) == id
    ensures ExtractPasteId(CYAN + (base + tail) + RESET, authorityOk) == id
  {
    assert base[|base| - 1] in base;
    StripPlain(base, tail);
    SchemeOfLink(base, tail);
    LinkIsTrimmed(base, tail, id);
    ReadsText(base, path, id, tail, authorityOk);
    ExtractOf(base + tail, base + tail, authorityOk);
    ExtractOf(CYAN + (base + tail) + RESET, base + tail, authorityOk);
  }

  /** Reading back a printed link, bare or still wrapped in the colours it was printed in, gives its ID. */
  lemma LinkRoundTrip(relay: string, id: string, authorityOk: string -> bool)
    requires PlainRelay(relay, authorityOk) && Alphanumeric(id)
    ensures ExtractPasteId(ShareLink(relay, id), authorityOk) == id
    ensures ExtractPasteId(CYAN + ShareLink(relay, id) + RESET, authorityOk) == id
  {
    LinkParts(relay, id);
    TailIsPlain(id);
    TailRoundTrip(TrimSlashesRight(relay), "/paste", id, "/paste/" + id, authorityOk);
  }

  lemma ResetStripped()
    ensures StripCodes(RESET) == []
  {
    assert RESET == [ESC] + "[" + "0" + ['m'] + "";
    CodeIsStripped("0", 'm', "");
  }

  lemma CyanStripped(s: string)
    ensures StripCodes(CYAN + s) == StripCodes(s)
  {
    assert CYAN + s == [ESC] + "[" + "36" + ['m'] + s;
    CodeIsStripped("36", 'm', s);
  }

  // ---- Percent escapes ----

  const HEX := "0123456789abcdef"
  const HEX_CAPITAL := "0123456789ABCDEF"

  lemma HexIs(c: char, v: nat)
    requires v < 16
    ensures HexValue(HEX[v]) == Some(v) == HexValue(HEX_CAPITAL[v])
    ensures HexValue(c).Some? <==> c in HEX || c in HEX_CAPITAL
  {
    if '0' <= c <= '9' { assert HEX[c as int - 48] == c; }
    if 'a' <= c <= 'f' { assert HEX[c as int - 97 + 10] == c; }
    if 'A' <= c <= 'F' { assert HEX_CAPITAL[c as int - 65 + 10] == c; }
  }

  predicate Bytes(s: string) {
    forall c :: c in s ==> c < 256 as char
  }

  /** Every character written as a percent sign and two digits, in capitals or not. */
  function Escape(s: string, capitals: bool): string
    requires Bytes(s)
  {
    if s == "" then ""
    else
      var digits := if capitals then HEX_CAPITAL else HEX;
      var v := s[0] as int;
      assert s[0] in s && forall c :: c in s[1..] ==> c in s;
      ['%', digits[v / 16], digits[v % 16]] + Escape(s[1..], capitals)
  }

  /** Decoding undoes escaping, and leaves alone what is not escaped. */
  lemma {:induction false} EscapeBack(s: string, capitals: bool)
    requires Bytes(s)
    ensures Unescape(Escape(s, capitals)) == Some(s)
  {
    if s != "" {
      var e := Escape(s, capitals);
      assert s[0] in s && forall c :: c in s[1..] ==> c in s;
      EscapeBack(s[1..], capitals);
      OneEscape(s[0], capitals, Escape(s[1..], capitals));
      assert e == ['%', e[1], e[2]] + Escape(s[1..], capitals) && [s[0]] + s[1..] == s;
    }
  }

  lemma OneEscape(c: char, capitals: bool, rest: string)
    requires c < 256 as char
    ensures var digits, v := if capitals then HEX_CAPITAL else HEX, c as int;
            var e := ['%', digits[v / 16], digits[v % 16]] + rest;
            Unit(e) == Some((c, 3)) && e[3..] == rest
  {
    HexIs('0', c as int / 16);
    HexIs('0', c as int % 16);
  }

  /** A percent sign without two digits behind it makes text undecodable. */
  lemma {:induction false} BadEscape(front: string, t: string)
    requires '%' !in front && t != "" && t[0] == '%'
    requires |t| < 3 || (t[1] !in HEX && t[1] !in HEX_CAPITAL) || (t[2] !in HEX && t[2] !in HEX_CAPITAL)
    ensures Unescape(front + t) == None
  {
    if front == "" {
      assert front + t == t;
      if |t| >= 3 {
        HexIs(t[1], 0);
        HexIs(t[2], 0);
      }
    } else {
      assert front[0] in front && (front + t)[1..] == front[1..] + t;
      BadEscape(front[1..], t);
    }
  }

  // ---- Links of ordinary relays, with what people add to them ----

  predicate HostChar(c: char) {
    c in SMALL || c in CAPITAL || c in "0123456789.-:"
  }

  /** An ordinary address, http or https, with any number of slashes at its end, is one the round trip is for. */
  lemma OrdinaryRelay(host: string, secure: bool, slashes: string, authorityOk: string -> bool)
    requires host != "" && (forall c :: c in host ==> HostChar(c)) && authorityOk(host)
    requires forall c :: c in slashes ==> c == '/'
    ensures PlainRelay((if secure then "https://" else "http://") + host + slashes, authorityOk)
  {
    var base := (if secure then "https://" else "http://") + host;
    assert host[|host| - 1] in host && base[|base| - 1] == host[|host| - 1];
    SlashesTrimmed(base, slashes);
    HostCharsPlain(host);
    SchemesPlain(host);
    BeforeOf(host, "", '/');
    assert host + "" == host && host[|host|..] == "" && Before("", '/') == "";
  }

  lemma HostCharsPlain(host: string)
    requires forall c :: c in host ==> HostChar(c)
    ensures forall c :: c in host ==> PlainChar(c) && c != '/' && c != ESC
  {
    forall c | c in host ensures PlainChar(c) && c != '/' && c != ESC {
      HostCharPlain(c);
    }
  }

  lemma HostCharPlain(c: char)
    requires HostChar(c)
    ensures PlainChar(c) && c != '/' && c != ESC
  {
    if c in SMALL {
      var i :| 0 <= i < 26 && SMALL[i] == c;
      PlacesAre(i);
    } else if c in CAPITAL {
      var i :| 0 <= i < 26 && CAPITAL[i] == c;
      PlacesAre(i);
    }
  }

  lemma SchemesPlain(host: string)
    requires forall c :: c in host ==> PlainChar(c) && c != '/' && c != ESC
    ensures var base := "http://" + host;
            IsHttp(base) && AfterScheme(base) == host && NoCodes(base) && forall c :: c in base ==> PlainChar(c)
    ensures var base := "https://" + host;
            IsHttp(base) && AfterScheme(base) == host && NoCodes(base) && forall c :: c in base ==> PlainChar(c)
  {
    SchemeChars();
    var a, b := "http://" + host, "https://" + host;
    assert forall c :: c in a ==> c in "http://" || c in host;
    assert forall c :: c in b ==> c in "https://" || c in host;
    NoBracketNoCodes(a);
    NoBracketNoCodes(b);
    assert "https://"[4] != "http://"[4];
  }

  lemma SchemeChars()
    ensures forall c :: c in "http://" || c in "https://" ==> PlainChar(c) && c != ESC
  {
  }

  lemma {:induction false} SlashesTrimmed(base: string, slashes: string)
    requires base != "" && base[|base| - 1] != '/' && forall c :: c in slashes ==> c == '/'
    ensures TrimSlashesRight(base + slashes) == base
  {
    if slashes == "" {
      assert base + slashes == base;
    } else {
      var n, s := |slashes| - 1, base + slashes;
      assert slashes[n] in slashes && s[|s| - 1] == slashes[n] && s[..|s| - 1] == base + slashes[..n];
      forall c | c in slashes[..n] ensures c == '/' {
        assert c in slashes;
      }
      SlashesTrimmed(base, slashes[..n]);
    }
  }

  // ---- URLs part by part ----

  predicate Starts(s: string, c: char) {
    s == "" || s[0] == c
  }

  /** A URL of a scheme, a host, a path, a query and a fragment, each perhaps empty but the first: it parses if it has
      no control character, the escapes of path and fragment are well-formed and the host is accepted, and
      then what counts is its path, decoded. */
  lemma UrlPathIs(secure: bool, host: string, path: string, query: string, fragment: string, authorityOk: string -> bool)
    requires '/' !in host && '?' !in host && '#' !in host && Starts(path, '/') && '?' !in path && '#' !in path
    requires Starts(query, '?') && '#' !in query && Starts(fragment, '#')
    ensures var s := (if secure then "https://" else "http://") + (host + (path + (query + fragment)));
            && IsHttp(s)
            && UrlPath(s, authorityOk) ==
               if (exists c :: c in s && (c < 32 as char || c == 127 as char)) || Unescape(fragment).None? || !authorityOk(host) then None
               else Unescape(path)
  {
    var scheme := if secure then "https://" else "http://";
    var rest := host + (path + (query + fragment));
    var s := scheme + rest;
    SchemeIs(secure, rest);
    FragmentOf(scheme, host, path, query, fragment);
    HierOf(host, path, query, fragment);
    BeforePart(host, path, '/');
    assert (host + path)[|host|..] == path;
    ControlIs(s);
  }

  lemma ControlIs(s: string)
    ensures (exists c :: c in s && IsControl(c)) <==> exists c :: c in s && (c < 32 as char || c == 127 as char)
  {
    assert forall c :: IsControl(c) <==> c < 32 as char || c == 127 as char;
  }

  lemma FragmentOf(scheme: string, host: string, path: string, query: string, fragment: string)
    requires '#' !in scheme && '#' !in host && '#' !in path && '#' !in query && Starts(fragment, '#')
    ensures var s := scheme + (host + (path + (query + fragment))); s[|Before(s, '#')|..] == fragment
  {
    var front := scheme + host + path + query;
    assert scheme + (host + (path + (query + fragment))) == front + fragment;
    BeforePart(front, fragment, '#');
  }

  lemma HierOf(host: string, path: string, query: string, fragment: string)
    requires '#' !in host && '#' !in path && '#' !in query && Starts(fragment, '#')
    requires '?' !in host && '?' !in path && Starts(query, '?')
    ensures var rest := host + (path + (query + fragment));
            rest[..|Before(Before(rest, '#'), '?')|] == host + path
  {
    var front := host + path + query;
    assert host + (path + (query + fragment)) == front + fragment;
    BeforePart(front, fragment, '#');
    BeforePart(host + path, query, '?');
    assert (front + fragment)[..|host + path|] == host + path;
  }

  lemma SchemeIs(secure: bool, rest: string)
    ensures var s := (if secure then "https://" else "http://") + rest;
            IsHttp(s) && AfterScheme(s) == rest
    ensures '#' !in "https://" && '#' !in "http://"
  {
    assert "https://"[4] != "http://"[4];
  }

  lemma BeforePart(front: string, part: string, c: char)
    requires c !in front && Starts(part, c)
    ensures Before(front + part, c) == front
  {
    BeforeOf(front, part, c);
    assert Before(part, c) == "" && front + "" == front;
  }

  /** Text that looks like a link and does not parse is taken as it is. */
  lemma UnparsedIsKept(text: string, authorityOk: string -> bool)
    ensures IsHttp(text) && UrlPath(text, authorityOk).None? ==> IdOfText(text, authorityOk) == text
    ensures IsHttp(text) && UrlPath(text, authorityOk).Some? ==>
              IdOfText(text, authorityOk) == IdOfPath(UrlPath(text, authorityOk).value)
  {
  }

  /** A query or a fragment behind a link does not change what is read, and neither do slashes behind the ID, nor
      any path in front of it. */
  lemma LinkWithMore(secure: bool, host: string, path: string, id: string, slashes: string, query: string, fragment: string,
                     authorityOk: string -> bool)
    requires '/' !in host && '?' !in host && '#' !in host && authorityOk(host)
    requires Starts(path, '/') && (forall c :: c in path ==> PlainChar(c)) && Alphanumeric(id)
    requires (forall c :: c in slashes ==> c == '/') && Starts(query, '?') && '#' !in query && Starts(fragment, '#') && '%' !in fragment
    requires forall c :: c in host + query + fragment ==> c >= 32 as char && c != 127 as char
    ensures var s := (if secure then "https://" else "http://") + (host + ((path + "/" + id + slashes) + (query + fragment)));
            IdOfText(s, authorityOk) == id
  {
    var whole := path + "/" + id + slashes;
    var scheme := if secure then "https://" else "http://";
    TailIsPlain(id);
    assert forall c :: c in whole ==> c in path || c == '/' || c in "/paste/" + id || c in slashes;
    SchemeChars();
    UrlPathIs(secure, host, whole, query, fragment, authorityOk);
    var s := scheme + (host + (whole + (query + fragment)));
    forall c | c in s ensures !(c < 32 as char || c == 127 as char) {
      assert c in scheme || c in whole || c in host + query + fragment;
    }
    UnescapePlain(fragment);
    UnescapePlain(whole);
    IdBeforeSlashes(path, id, slashes);
  }

  lemma IdBeforeSlashes(path: string, id: string, slashes: string)
    requires id != "" && '/' !in id && forall c :: c in slashes ==> c == '/'
    ensures IdOfPath(path + "/" + id + slashes) == id
  {
    var base := path + "/" + id;
    assert base[|base| - 1] == id[|id| - 1] && id[|id| - 1] in id;
    SlashesTrimmed(base, slashes);
    LastOfPath(path, id);
    assert TrimSlashesRight(base) == base;
  }

  function SeedOf(id: string): Option<bytes> {
    if IsShareId(id) then Some(Seed(id)) else None
  }

  lemma NewIsAlphanumeric(burn: bool, buf: bytes)
    requires |buf| == RANDOM_LENGTH
    ensures Alphanumeric(New(burn, buf))
  {
    var id := New(burn, buf);
    NewIsBijective(burn, buf, id);
    assert forall c :: c in id ==> c == id[0] || c in id[1..];
  }

  /** An ID is read from itself too, typed with white space around it. */
  lemma BareIdIsRead(front: string, back: string, burn: bool, buf: bytes, authorityOk: string -> bool)
    requires Blank(front) && Blank(back) && |buf| == RANDOM_LENGTH
    ensures ExtractPasteId(front + New(burn, buf) + back, authorityOk) == New(burn, buf)
  {
    var id := New(burn, buf);
    NewIsAlphanumeric(burn, buf);
    assert id[0] in id && id[|id| - 1] in id && id[0] in id[..1] && id[|id| - 1] in id[|id| - 1..];
    assert "http://"[4] == ':' && "https://"[5] == ':';
    assert forall c :: c in front + id + back ==> c in front || c in id || c in back;
    NoBracketNoCodes(front + id + back);
    BareText(front, id, back, authorityOk);
  }

  /** From end to end: the mode the sender chose decides how the relay will read, whichever link form is used. */
  lemma ModeSurvivesTheLink(relay: string, burn: bool, buf: bytes, authorityOk: string -> bool)
    requires PlainRelay(relay, authorityOk) && |buf| == RANDOM_LENGTH
    ensures IsBurnAfterReading(ExtractPasteId(CYAN + ShareLink(relay, New(burn, buf)) + RESET, authorityOk)) == burn
    ensures SeedOf(ExtractPasteId(ShareLink(relay, New(burn, buf)), authorityOk)) == Some(buf)
  {
    NewIsBijective(burn, buf, New(burn, buf));
    NewIsAlphanumeric(burn, buf);
    LinkRoundTrip(relay, New(burn, buf), authorityOk);
  }
}
