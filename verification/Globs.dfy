/** What the patterns of KEYS mean: a pattern is a list of elements, each with the texts it stands for, and the matcher
    on its spelling agrees. */
module Globs {
  import opened Ascii
  import opened Redis

  /** A member of a bracket class: a character, a range in either direction, or a character behind a backslash. */
  datatype Member = One(c: char) | Range(a: char, b: char) | Escaped(c: char)

  datatype Element = Star | AnyOne | Class(negated: bool, members: seq<Member>) | Quoted(c: char) | Literal(c: char)

  function MemberText(m: Member): string {
    match m
    case One(c) => [c]
    case Range(a, b) => [a, '-', b]
    case Escaped(c) => ['\\', c]
  }

  function ClassText(ms: seq<Member>): string {
    if ms == [] then [] else MemberText(ms[0]) + ClassText(ms[1..])
  }

  function ElementText(e: Element): string {
    match e
    case Star => "*"
    case AnyOne => "?"
    case Class(negated, ms) => "[" + (if negated then "^" else "") + ClassText(ms) + "]"
    case Quoted(c) => ['\\', c]
    case Literal(c) => [c]
  }

  function Pattern(es: seq<Element>): string {
    if es == [] then [] else ElementText(es[0]) + Pattern(es[1..])
  }

  /** No member begins with a character that would end the class or quote, and none but a range is followed
      by a hyphen. */
  predicate Clear(ms: seq<Member>) {
    ms == [] || (ClearOne(ms[0], ms[1..]) && Clear(ms[1..]))
  }

  predicate ClearOne(m: Member, rest: seq<Member>) {
    match m
    case One(c) => c != ']' && c != '\\' && (rest == [] || MemberText(rest[0])[0] != '-')
    case Range(a, _) => a != ']' && a != '\\'
    case Escaped(_) => true
  }

  predicate WellWritten(e: Element) {
    match e
    case Class(negated, ms) => Clear(ms) && (negated || ms == [] || MemberText(ms[0])[0] != '^')
    case Literal(c) => c != '*' && c != '?' && c != '[' && c != '\\'
    case _ => true
  }

  // ---- The meaning ----

  predicate Holds(m: Member, c: char) {
    match m
    case One(d) => c == d
    case Range(a, b) => a <= c <= b || b <= c <= a
    case Escaped(d) => c == d
  }

  predicate InMembers(ms: seq<Member>, c: char) {
    exists i :: 0 <= i < |ms| && Holds(ms[i], c)
  }

  predicate Takes(e: Element, c: char) {
    match e
    case Star => true
    case AnyOne => true
    case Class(negated, ms) => InMembers(ms, c) != negated
    case Quoted(d) => c == d
    case Literal(d) => c == d
  }

  /** A star stands for any text, any other element for one character. */
  predicate Matches(es: seq<Element>, s: string)
    decreases |es|
  {
    if es == [] then s == ""
    else if es[0].Star? then exists i :: 0 <= i <= |s| && Matches(es[1..], s[i..])
    else s != "" && Takes(es[0], s[0]) && Matches(es[1..], s[1..])
  }

  // ---- The matcher ----

  lemma {:induction false} ClassIs(ms: seq<Member>, rest: string, c: char)
    requires Clear(ms)
    ensures InClass(ClassText(ms) + "]" + rest, c) == (InMembers(ms, c), rest)
  {
    var p := ClassText(ms) + "]" + rest;
    if ms == [] {
      assert p == "]" + rest && p[1..] == rest;
    } else {
      var tail := ClassText(ms[1..]) + "]" + rest;
      ClassIs(ms[1..], rest, c);
      assert p == MemberText(ms[0]) + tail && p[|MemberText(ms[0])|..] == tail;
      MembersOf(ms, c);
      if ms[0].One? && ms[1..] != [] {
        assert tail[0] == MemberText(ms[1])[0];
      }
    }
  }

  lemma MembersOf(ms: seq<Member>, c: char)
    requires ms != []
    ensures InMembers(ms, c) <==> Holds(ms[0], c) || InMembers(ms[1..], c)
  {
    if InMembers(ms, c) {
      var i :| 0 <= i < |ms| && Holds(ms[i], c);
      assert i > 0 ==> ms[1..][i - 1] == ms[i];
    }
    if InMembers(ms[1..], c) {
      var i :| 0 <= i < |ms[1..]| && Holds(ms[1..][i], c);
      assert ms[i + 1] == ms[1..][i];
    }
  }

  lemma OneElementIs(e: Element, rest: string, s: string)
    requires WellWritten(e) && !e.Star?
    ensures Glob(ElementText(e) + rest, s) <==> s != "" && Takes(e, s[0]) && Glob(rest, s[1..])
  {
    var p := ElementText(e) + rest;
    match e {
      case AnyOne => assert p[1..] == rest;
      case Class(negated, ms) =>
        if s != "" {
          ClassElement(negated, ms, rest, s);
        }
      case Quoted(c) => assert p[2..] == rest;
      case Literal(c) => assert p[1..] == rest;
    }
  }

  lemma ClassElement(negated: bool, ms: seq<Member>, rest: string, s: string)
    requires WellWritten(Class(negated, ms)) && s != ""
    ensures Glob(ElementText(Class(negated, ms)) + rest, s) <==> InMembers(ms, s[0]) != negated && Glob(rest, s[1..])
  {
    ClassIs(ms, rest, s[0]);
    ClassStarts(negated, ms, rest);
    AfterBracket(ClassText(ms) + "]" + rest, s);
  }

  lemma ClassStarts(negated: bool, ms: seq<Member>, rest: string)
    ensures var body := ClassText(ms) + "]" + rest;
            && ElementText(Class(negated, ms)) + rest == (if negated then "[^" else "[") + body
            && body != "" && body[0] == if ms == [] then ']' else MemberText(ms[0])[0]
  {
  }

  lemma AfterBracket(body: string, s: string)
    requires s != ""
    ensures Glob("[^" + body, s) <==> InClass(body, s[0]).0 != true && Glob(InClass(body, s[0]).1, s[1..])
    ensures body != "" && body[0] != '^' ==>
              (Glob("[" + body, s) <==> InClass(body, s[0]).0 && Glob(InClass(body, s[0]).1, s[1..]))
  {
    assert ("[^" + body)[2..] == body && ("[" + body)[1..] == body;
  }

  lemma {:induction false} StarIs(rest: string, s: string)
    ensures Glob("*" + rest, s) <==> exists i :: 0 <= i <= |s| && Glob(rest, s[i..])
    decreases |s|
  {
    var p := "*" + rest;
    assert p[1..] == rest;
    if s == "" {
      assert s[0..] == s;
    } else {
      StarIs(rest, s[1..]);
      if Glob(rest, s) {
        assert s[0..] == s;
      }
      if Glob(p, s[1..]) {
        var i :| 0 <= i <= |s[1..]| && Glob(rest, s[1..][i..]);
        assert s[1..][i..] == s[i + 1..];
      }
      if i :| 0 <= i <= |s| && Glob(rest, s[i..]) {
        assert if i == 0 then s[i..] == s else s[1..][i - 1..] == s[i..];
      }
    }
  }

  /** The matcher on a pattern's spelling says whether the text is one the pattern stands for. */
  lemma {:induction false} GlobIsMeaning(es: seq<Element>, s: string)
    requires forall e :: e in es ==> WellWritten(e)
    ensures Glob(Pattern(es), s) <==> Matches(es, s)
    decreases |es|
  {
    if es != [] {
      var rest := es[1..];
      assert es[0] in es && forall e :: e in rest ==> e in es;
      if es[0].Star? {
        forall i | 0 <= i <= |s| ensures Glob(Pattern(rest), s[i..]) <==> Matches(rest, s[i..]) {
          GlobIsMeaning(rest, s[i..]);
        }
        StarIs(Pattern(rest), s);
      } else {
        OneElementIs(es[0], Pattern(rest), s);
        if s != "" {
          GlobIsMeaning(rest, s[1..]);
        }
      }
    }
  }

  /** A class that is never closed takes in the whole rest of the pattern. */
  lemma UnclosedClass(s: string, c: char)
    ensures Glob("[^", s) <==> |s| == 1
    ensures !Glob("[", s)
    ensures Glob(['[', '\\', c], s) <==> s == [c]
  {
    assert "[^"[2..] == "" && "["[1..] == "" && ['[', '\\', c][1..] == ['\\', c] && ['\\', c][2..] == "";
    if s != "" {
      assert Glob("", s[1..]) <==> |s| == 1;
      assert InClass(['\\', c], s[0]) == (c == s[0], "");
    }
  }
}
