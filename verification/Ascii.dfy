/** ASCII text helpers: the parts of Go's `strings` package the repository uses on handles and links. */
module Ascii {
  datatype Option<+T> = None | Some(value: T)

  datatype Result<+T, +E> = Ok(value: T) | Err(error: E)

  lemma Associative<T>(a: seq<T>, b: seq<T>, c: seq<T>)
    ensures a + (b + c) == (a + b) + c
  {
  }

  lemma HeadAndTail<T>(s: seq<T>, t: seq<T>)
    requires s != []
    ensures (s + t)[0] == s[0] && (s + t)[1..] == s[1..] + t && [s[0]] + (s[1..] + t) == s + t
  {
  }

  function UpperChar(c: char): char {
    if 'a' <= c <= 'z' then c - 'a' + 'A' else c
  }

  function LowerChar(c: char): char {
    if 'A' <= c <= 'Z' then c - 'A' + 'a' else c
  }

  function ToUpper(s: string): (u: string)
    ensures |u| == |s|
  {
    seq(|s|, i requires 0 <= i < |s| => UpperChar(s[i]))
  }

  function ToLower(s: string): (l: string)
    ensures |l| == |s|
  {
    seq(|s|, i requires 0 <= i < |s| => LowerChar(s[i]))
  }

  const SMALL := "abcdefghijklmnopqrstuvwxyz"
  const CAPITAL := "ABCDEFGHIJKLMNOPQRSTUVWXYZ"

  /** Each small letter has its capital, and no other character changes. */
  lemma Alphabet(c: char, i: nat)
    requires i < 26
    ensures UpperChar(SMALL[i]) == CAPITAL[i] && LowerChar(CAPITAL[i]) == SMALL[i]
    ensures c !in SMALL ==> UpperChar(c) == c
    ensures c !in CAPITAL ==> LowerChar(c) == c
  {
    if 'a' <= c <= 'z' { assert SMALL[c as int - 97] == c; }
    if 'A' <= c <= 'Z' { assert CAPITAL[c as int - 65] == c; }
  }

  /** Two spellings agree ignoring case exactly when either folding makes them equal. */
  lemma CaseFolding(s: string, t: string)
    ensures ToUpper(ToUpper(s)) == ToUpper(ToLower(s)) == ToUpper(s)
    ensures ToLower(ToUpper(s)) == ToLower(ToLower(s)) == ToLower(s)
    ensures ToUpper(s) == ToUpper(t) <==> ToLower(s) == ToLower(t)
    ensures ToUpper(s + t) == ToUpper(s) + ToUpper(t)
  {
    if ToUpper(s) == ToUpper(t) {
      forall i | 0 <= i < |s| ensures ToLower(s)[i] == ToLower(t)[i] {
        assert ToUpper(s)[i] == ToUpper(t)[i];
      }
    }
    if ToLower(s) == ToLower(t) {
      forall i | 0 <= i < |s| ensures ToUpper(s)[i] == ToUpper(t)[i] {
        assert ToLower(s)[i] == ToLower(t)[i];
      }
    }
  }

  function TrimPrefix(s: string, p: string): string {
    if p <= s then s[|p|..] else s
  }

  predicate IsSpace(c: char) {
    c == ' ' || c == '\t' || c == '\n' || c == '\r' || c == 11 as char || c == 12 as char
  }

  function TrimLeft(s: string): (t: string)
    ensures t == [] || !IsSpace(t[0])
    ensures |t| <= |s| && (s != [] && !IsSpace(s[0]) ==> t == s)
  {
    if s != [] && IsSpace(s[0]) then TrimLeft(s[1..]) else s
  }

  function TrimRight(s: string): (t: string)
    ensures t == [] || !IsSpace(t[|t| - 1])
    ensures t <= s && (s != [] && !IsSpace(s[|s| - 1]) ==> t == s)
  {
    if s != [] && IsSpace(s[|s| - 1]) then TrimRight(s[..|s| - 1]) else s
  }

  predicate Trimmed(s: string) {
    s == [] || (!IsSpace(s[0]) && !IsSpace(s[|s| - 1]))
  }

  /** Go's `strings.TrimSpace`; trimming what is already trimmed changes nothing. */
  function TrimSpace(s: string): (t: string)
    ensures Trimmed(t)
    ensures Trimmed(s) <==> t == s
  {
    TrimRight(TrimLeft(s))
  }

  /** A space, a tab, a line feed, a vertical tab, a form feed or a carriage return. */
  predicate Blank(s: string) {
    forall c :: c in s ==> c as int in {32, 9, 10, 11, 12, 13}
  }

  /** What is trimmed is the white space at both ends, all of it and nothing else. */
  lemma TrimSpaceIs(front: string, text: string, back: string)
    requires Blank(front) && Blank(back)
    requires text == "" || (!Blank(text[..1]) && !Blank(text[|text| - 1..]))
    ensures TrimSpace(front + text + back) == text
  {
    assert front + text + back == front + (text + back);
    TrimLeftIs(front, text + back);
    if text == "" {
      TrimLeftIs(back, "");
      assert text + back == back && back + "" == back;
    } else {
      assert text[..1] == [text[0]] && text[|text| - 1..] == [text[|text| - 1]];
      TrimRightIs(text, back);
    }
  }

  lemma {:induction false} TrimLeftIs(front: string, rest: string)
    requires Blank(front)
    ensures TrimLeft(front + rest) == TrimLeft(rest)
  {
    if front == "" {
      assert front + rest == rest;
    } else {
      assert forall c :: c in front[1..] ==> c in front;
      assert front[0] in front && (front + rest)[1..] == front[1..] + rest;
      TrimLeftIs(front[1..], rest);
    }
  }

  lemma {:induction false} TrimRightIs(text: string, back: string)
    requires Blank(back)
    ensures TrimRight(text + back) == TrimRight(text)
  {
    if back == "" {
      assert text + back == text;
    } else {
      var n, s := |back| - 1, text + back;
      assert forall c :: c in back[..n] ==> c in back;
      assert back[n] in back && s[|s| - 1] == back[n] && s[..|s| - 1] == text + back[..n];
      TrimRightIs(text, back[..n]);
    }
  }

  /** The first occurrence of each element, in order: what the `seen` maps of the repository compute. */
  function Dedup(xs: seq<string>): (ys: seq<string>)
    ensures |ys| <= |xs|
    ensures forall x :: x in ys <==> x in xs
    ensures forall i, j :: 0 <= i < j < |ys| ==> ys[i] != ys[j]
  {
    if xs == [] then [] else
      var p := Dedup(xs[..|xs| - 1]);
      var x := xs[|xs| - 1];
      assert xs == xs[..|xs| - 1] + [x];
      if x in p then p else p + [x]
  }

  /** One more round of a loop that collects the first occurrences. */
  lemma DedupOneMore(xs: seq<string>, i: nat)
    requires i < |xs|
    ensures Dedup(xs[..i + 1]) == if xs[i] in xs[..i] then Dedup(xs[..i]) else Dedup(xs[..i]) + [xs[i]]
    ensures forall x :: x in xs[..i + 1] <==> x in xs[..i] || x == xs[i]
  {
    assert xs[..i + 1][..i] == xs[..i] && xs[..i + 1] == xs[..i] + [xs[i]];
  }
}
