/** Server-sent events as the relay writes them and the client scans them (section 9.2 of the WHATWG HTML
    Standard, as far as the repository goes: one `data: ` line and one blank line per event). The field tag
    and the scanner's limit are parameters up to the last theorem, which sets them. */
module Sse {
  import opened Ascii
  import opened Base64

  const LF: byte := 10
  const CR: byte := 13
  const DATA: bytes := [100, 97, 116, 97, 58, 32]

  /** The scanner's buffer limit. A line and its line feed must fit into it. */
  const CAPACITY: nat := 16 * 1024 * 1024

  /** A field tag: no line feed, and no carriage return at its end. */
  predicate IsTag(tag: bytes) {
    LF !in tag && tag != [] && tag[|tag| - 1] != CR
  }

  /** What HandleStream writes for a list of payloads. */
  function Frame(tag: bytes, ps: seq<bytes>): bytes {
    if ps == [] then [] else Event(tag, ps[0]) + Frame(tag, ps[1..])
  }

  function Event(tag: bytes, p: bytes): bytes {
    tag + p + [LF, LF]
  }

  /** Length of the first line, without its line feed. */
  function LineLength(s: bytes): (n: nat)
    ensures n <= |s| && LF !in s[..n]
    ensures n < |s| ==> s[n] == LF
  {
    if s == [] || s[0] == LF then 0 else
      var n := 1 + LineLength(s[1..]);
      assert s[..n] == [s[0]] + s[1..][..n - 1];
      n
  }

  /** What follows the first line. */
  function AfterLine(s: bytes): (t: bytes)
    ensures s != [] ==> |t| < |s|
  {
    var n := LineLength(s);
    if n < |s| then s[n + 1..] else []
  }

  function DropReturn(line: bytes): bytes {
    if line != [] && line[|line| - 1] == CR then line[..|line| - 1] else line
  }

  /** The lines the scanner delivers: it stops for good at one that does not fit. */
  function Lines(cap: nat, s: bytes): seq<bytes>
    decreases |s|
  {
    if s == [] || LineLength(s) >= cap then []
    else [DropReturn(s[..LineLength(s)])] + Lines(cap, AfterLine(s))
  }

  /** The payload of one line, if it carries one. */
  function Payload(tag: bytes, line: bytes): seq<bytes> {
    if tag <= line then [line[|tag|..]] else []
  }

  function Payloads(tag: bytes, lines: seq<bytes>): seq<bytes> {
    if lines == [] then [] else Payload(tag, lines[0]) + Payloads(tag, lines[1..])
  }

  /** All that a client receives from a stream of bytes. */
  function Received(tag: bytes, cap: nat, s: bytes): seq<bytes> {
    Payloads(tag, Lines(cap, s))
  }

  lemma ReceivedStep(tag: bytes, cap: nat, s: bytes)
    requires s != [] && LineLength(s) < cap
    ensures Received(tag, cap, s) == Payload(tag, DropReturn(s[..LineLength(s)])) + Received(tag, cap, AfterLine(s))
  {
    var line, lines := DropReturn(s[..LineLength(s)]), Lines(cap, AfterLine(s));
    assert ([line] + lines)[1..] == lines;
  }

  /** ListenStream's scan of one connection. */
  method Listen(stream: bytes) returns (received: seq<bytes>)
    ensures received == Received(DATA, CAPACITY, stream)
  {
    received := [];
    var rest := stream;
    var tag, cap := DATA, CAPACITY;
    while rest != [] && LineLength(rest) < cap
      invariant received + Received(tag, cap, rest) == Received(tag, cap, stream)
      decreases |rest|
    {
      ReceivedStep(tag, cap, rest);
      var line := DropReturn(rest[..LineLength(rest)]);
      Associative(received, Payload(tag, line), Received(tag, cap, AfterLine(rest)));
      received := received + Payload(tag, line);
      rest := AfterLine(rest);
    }
  }

  /** Payloads that survive: no line feed, no carriage return at the end, and short enough. */
  predicate Intact(tag: bytes, cap: nat, p: bytes) {
    LF !in p && (p == [] || p[|p| - 1] != CR) && |tag| + |p| < cap
  }

  lemma {:induction false} LineLengthIs(s: bytes, t: bytes)
    requires LF !in s && t != [] && t[0] == LF
    ensures LineLength(s + t) == |s|
  {
    if s == [] {
      assert s + t == t;
    } else {
      assert (s + t)[1..] == s[1..] + t;
      LineLengthIs(s[1..], t);
    }
  }

  /** How one line, whatever it holds, is received. */
  lemma OneLine(tag: bytes, cap: nat, line: bytes, rest: bytes)
    requires LF !in line
    ensures Received(tag, cap, line + [LF] + rest) ==
            if |line| >= cap then [] else Payload(tag, DropReturn(line)) + Received(tag, cap, rest)
  {
    var s := line + [LF] + rest;
    assert s == line + ([LF] + rest);
    LineLengthIs(line, [LF] + rest);
    assert s[..|line|] == line && s[|line| + 1..] == rest;
    if |line| < cap {
      ReceivedStep(tag, cap, s);
    }
  }

  lemma TaggedLine(tag: bytes, p: bytes)
    requires IsTag(tag)
    ensures Payload(tag, DropReturn(tag + p)) == [DropReturn(p)]
    ensures LF !in p ==> LF !in tag + p
  {
    if p == [] {
      assert tag + p == tag;
    } else if p[|p| - 1] == CR {
      assert DropReturn(tag + p) == tag + p[..|p| - 1];
    }
  }

  lemma EventIsTwoLines(tag: bytes, p: bytes, rest: bytes)
    ensures Event(tag, p) + rest == tag + p + [LF] + ([LF] + rest)
  {
    assert [LF, LF] + rest == [LF] + ([LF] + rest);
  }

  lemma BlankLine(tag: bytes, cap: nat, rest: bytes)
    requires IsTag(tag) && cap > 0
    ensures Received(tag, cap, [LF] + rest) == Received(tag, cap, rest)
  {
    OneLine(tag, cap, [], rest);
    assert [] + [LF] + rest == [LF] + rest;
    assert [] + Received(tag, cap, rest) == Received(tag, cap, rest);
  }

  /** A payload without line feeds arrives with at most a carriage return taken off its end. */
  lemma UnbrokenEvent(tag: bytes, cap: nat, p: bytes, rest: bytes)
    requires IsTag(tag) && cap > 0 && LF !in p
    ensures Received(tag, cap, Event(tag, p) + rest) ==
            if |tag| + |p| >= cap then [] else [DropReturn(p)] + Received(tag, cap, rest)
  {
    var line, blank := tag + p, [LF] + rest;
    EventIsTwoLines(tag, p, rest);
    TaggedLine(tag, p);
    OneLine(tag, cap, line, blank);
    BlankLine(tag, cap, rest);
  }

  /** A payload with a line feed in it is cut there. */
  lemma BrokenEvent(tag: bytes, cap: nat, p: bytes, rest: bytes)
    requires IsTag(tag) && LF in p
    ensures var got := Received(tag, cap, Event(tag, p) + rest); got == [] || LF !in got[0]
  {
    var k := LineLength(p);
    var line, tail := tag + p[..k], p[k + 1..] + [LF, LF] + rest;
    assert p == p[..k] + [LF] + p[k + 1..];
    assert Event(tag, p) + rest == line + [LF] + tail;
    TaggedLine(tag, p[..k]);
    OneLine(tag, cap, line, tail);
  }

  /** The framing round trip, for every list of payloads, exactly when each of them is intact. */
  lemma {:induction false} RoundTripIff(tag: bytes, cap: nat, ps: seq<bytes>)
    requires IsTag(tag) && cap > 0
    ensures Received(tag, cap, Frame(tag, ps)) == ps <==> forall p :: p in ps ==> Intact(tag, cap, p)
  {
    if ps != [] {
      var p, rest := ps[0], ps[1..];
      RoundTripIff(tag, cap, rest);
      assert ps == [p] + rest && p in ps;
      assert Frame(tag, ps) == Event(tag, p) + Frame(tag, rest);
      if LF in p {
        BrokenEvent(tag, cap, p, Frame(tag, rest));
      } else {
        UnbrokenEvent(tag, cap, p, Frame(tag, rest));
        var got := Received(tag, cap, Frame(tag, rest));
        assert ([DropReturn(p)] + got)[1..] == got;
      }
    }
  }

  /** The same with the repository's own tag and limit. */
  lemma FramingRoundTrip(ps: seq<bytes>)
    ensures Received(DATA, CAPACITY, Frame(DATA, ps)) == ps <==>
            forall p :: p in ps ==> LF !in p && (p == [] || p[|p| - 1] != CR) && 6 + |p| < CAPACITY
  {
    RoundTripIff(DATA, CAPACITY, ps);
    assert forall p :: Intact(DATA, CAPACITY, p) <==>
      LF !in p && (p == [] || p[|p| - 1] != CR) && 6 + |p| < CAPACITY;
  }
}
