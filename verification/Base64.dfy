/** Base64 as the repository uses it (section 4 of RFC 4648): padded encoding, and Go's decoder, which
    skips line breaks anywhere and ignores the unused low bits of the last symbol. */
module Base64 {
  import opened Ascii

  type byte = x: int | 0 <= x < 256
  type bytes = seq<byte>
  type sextet = x: int | 0 <= x < 64

  const PAD: byte := 61

  function Symbol(v: sextet): (b: byte)
    ensures Value(b) == Some(v)
    ensures b != PAD && b != 10 && b != 13
  {
    if v < 26 then v + 65 else if v < 52 then v + 71 else if v < 62 then v - 4 else if v == 62 then 43 else 47
  }

  function Value(b: byte): Option<sextet> {
    if 65 <= b <= 90 then Some(b - 65)
    else if 97 <= b <= 122 then Some(b - 71)
    else if 48 <= b <= 57 then Some(b + 4)
    else if b == 43 then Some(62)
    else if b == 47 then Some(63)
    else None
  }

  const DIGITS := "0123456789+/"

  /** The symbol in its place among capitals, small letters, digits and the last two. */
  function Placed(v: sextet): char {
    if v < 26 then CAPITAL[v] else if v < 52 then SMALL[v - 26] else DIGITS[v - 52]
  }

  lemma PlacesAre(i: nat)
    requires i < 26
    ensures CAPITAL[i] as int == i + 65 && SMALL[i] as int == i + 97
    ensures i < 10 ==> DIGITS[i] as int == i + 48
    ensures DIGITS[10] as int == 43 && DIGITS[11] as int == 47
  {
  }

  /** The symbols are the 64 of the standard alphabet, in its order, and the padding is the equals sign. */
  lemma SymbolsAre(b: byte, v: sextet)
    ensures Symbol(v) == Placed(v) as int && Value(Placed(v) as int) == Some(v)
    ensures Value(b).Some? ==> Placed(Value(b).value) as int == b
    ensures PAD == '=' as int
  {
    PlacesAre(if v < 26 then v else if v < 52 then v - 26 else if v < 62 then v - 52 else 0);
    if Value(b).Some? {
      var u := Value(b).value;
      PlacesAre(if u < 26 then u else if u < 52 then u - 26 else if u < 62 then u - 52 else 0);
    }
  }

  /** The data cut into groups of six bits, the last one filled up with zeros. */
  function Sextets(d: bytes): (g: seq<sextet>)
    ensures |g| % 4 != 1
    ensures g == [] <==> d == []
  {
    if |d| == 0 then []
    else if |d| == 1 then [d[0] / 4, d[0] % 4 * 16]
    else if |d| == 2 then [d[0] / 4, d[0] % 4 * 16 + d[1] / 16, d[1] % 16 * 4]
    else [d[0] / 4, d[0] % 4 * 16 + d[1] / 16, d[1] % 16 * 4 + d[2] / 64, d[2] % 64] + Sextets(d[3..])
  }

  /** The groups as symbols, four at a time, the last four filled up with padding. */
  function Armor(g: seq<sextet>): (e: bytes)
    requires |g| % 4 != 1
    ensures e == [] <==> g == []
  {
    if g == [] then []
    else if |g| == 2 then [Symbol(g[0]), Symbol(g[1]), PAD, PAD]
    else if |g| == 3 then [Symbol(g[0]), Symbol(g[1]), Symbol(g[2]), PAD]
    else [Symbol(g[0]), Symbol(g[1]), Symbol(g[2]), Symbol(g[3])] + Armor(g[4..])
  }

  function Encode(d: bytes): (e: bytes)
    ensures e == [] <==> d == []
  {
    Armor(Sextets(d))
  }

  /** What is left of the input once the decoder has skipped carriage returns and line feeds. */
  function SkipBreaks(s: bytes): (t: bytes)
    ensures |t| <= |s|
    ensures 10 !in t && 13 !in t
    ensures 10 !in s && 13 !in s ==> t == s
  {
    if s == [] then [] else if s[0] == 10 || s[0] == 13 then SkipBreaks(s[1..]) else [s[0]] + SkipBreaks(s[1..])
  }

  function Decode(s: bytes): (d: Option<bytes>)
    ensures d.Some? && s != [] ==> |d.value| < |s|
  {
    DecodeQuanta(SkipBreaks(s))
  }

  function DecodeQuanta(s: bytes): (d: Option<bytes>)
    ensures d.Some? && s != [] ==> |d.value| < |s|
  {
    if s == [] then Some([])
    else if |s| < 4 || Value(s[0]).None? || Value(s[1]).None? then None
    else
      var v0, v1 := Value(s[0]).value, Value(s[1]).value;
      if s[2] == PAD then
        if s[3] == PAD && |s| == 4 then Some([First(v0, v1)]) else None
      else if Value(s[2]).None? then None
      else
        var v2 := Value(s[2]).value;
        if s[3] == PAD then
          if |s| == 4 then Some([First(v0, v1), Second(v1, v2)]) else None
        else if Value(s[3]).None? then None
        else
          var v3 := Value(s[3]).value;
          var rest := DecodeQuanta(s[4..]);
          if rest.None? then None else Some([First(v0, v1), Second(v1, v2), Third(v2, v3)] + rest.value)
  }

  function First(v0: sextet, v1: sextet): byte { v0 * 4 + v1 / 16 }

  function Second(v1: sextet, v2: sextet): byte { v1 % 16 * 16 + v2 / 4 }

  function Third(v2: sextet, v3: sextet): byte { v2 % 4 * 64 + v3 }

  predicate ValidBase64(s: bytes) {
    Decode(s).Some?
  }

  /** Decoding undoes encoding, for all bytes. */
  lemma RoundTrip(d: bytes)
    ensures Decode(Encode(d)) == Some(d)
    ensures d != [] ==> Encode(d) != []
  {
    QuantaRoundTrip(d);
  }

  lemma ThreeBytesBack(a: byte, b: byte, c: byte)
    ensures First(a / 4, a % 4 * 16 + b / 16) == a
    ensures Second(a % 4 * 16 + b / 16, b % 16 * 4 + c / 64) == b
    ensures Third(b % 16 * 4 + c / 64, c % 64) == c
  {
  }

  lemma QuantumBack(v0: sextet, v1: sextet, v2: sextet, v3: sextet, rest: bytes)
    requires DecodeQuanta(rest).Some?
    ensures DecodeQuanta([Symbol(v0), Symbol(v1), Symbol(v2), Symbol(v3)] + rest)
         == Some([First(v0, v1), Second(v1, v2), Third(v2, v3)] + DecodeQuanta(rest).value)
  {
    var s := [Symbol(v0), Symbol(v1), Symbol(v2), Symbol(v3)] + rest;
    assert s[4..] == rest;
  }

  lemma TwoSymbolsBack(v0: sextet, v1: sextet)
    ensures DecodeQuanta([Symbol(v0), Symbol(v1), PAD, PAD]) == Some([First(v0, v1)])
  {
  }

  lemma ThreeSymbolsBack(v0: sextet, v1: sextet, v2: sextet)
    ensures DecodeQuanta([Symbol(v0), Symbol(v1), Symbol(v2), PAD]) == Some([First(v0, v1), Second(v1, v2)])
  {
  }

  /** What three more bytes in front add to the encoding. */
  lemma EncodeStep(d: bytes)
    requires |d| >= 3
    ensures Encode(d) == [Symbol(d[0] / 4), Symbol(d[0] % 4 * 16 + d[1] / 16),
                          Symbol(d[1] % 16 * 4 + d[2] / 64), Symbol(d[2] % 64)] + Encode(d[3..])
  {
    assert Sextets(d)[4..] == Sextets(d[3..]);
  }

  lemma {:induction false} ArmorUnbroken(g: seq<sextet>)
    requires |g| % 4 != 1
    ensures 10 !in Armor(g) && 13 !in Armor(g)
  {
    if |g| > 3 {
      ArmorUnbroken(g[4..]);
    }
  }

  lemma OneByteBack(a: byte)
    ensures DecodeQuanta(Encode([a])) == Some([a])
  {
    ThreeBytesBack(a, 0, 0);
    TwoSymbolsBack(a / 4, a % 4 * 16);
    assert Encode([a]) == [Symbol(a / 4), Symbol(a % 4 * 16), PAD, PAD];
  }

  lemma TwoBytesBack(a: byte, b: byte)
    ensures DecodeQuanta(Encode([a, b])) == Some([a, b])
  {
    var v0, v1, v2 := a / 4, a % 4 * 16 + b / 16, b % 16 * 4;
    ThreeBytesBack(a, b, 0);
    ThreeSymbolsBack(v0, v1, v2);
    assert Encode([a, b]) == [Symbol(v0), Symbol(v1), Symbol(v2), PAD];
  }

  lemma ThreeMoreBack(d: bytes)
    requires |d| >= 3 && DecodeQuanta(Encode(d[3..])) == Some(d[3..])
    ensures DecodeQuanta(Encode(d)) == Some([d[0], d[1], d[2]] + d[3..])
  {
    var v0, v1, v2, v3 := d[0] / 4, d[0] % 4 * 16 + d[1] / 16, d[1] % 16 * 4 + d[2] / 64, d[2] % 64;
    EncodeStep(d);
    ThreeBytesBack(d[0], d[1], d[2]);
    QuantumBack(v0, v1, v2, v3, Encode(d[3..]));
  }

  lemma {:induction false} QuantaBack(d: bytes)
    ensures DecodeQuanta(Encode(d)) == Some(d)
  {
    if |d| == 1 {
      OneByteBack(d[0]);
      assert d == [d[0]];
    } else if |d| == 2 {
      TwoBytesBack(d[0], d[1]);
      assert d == [d[0], d[1]];
    } else if |d| >= 3 {
      QuantaBack(d[3..]);
      ThreeMoreBack(d);
      assert d == [d[0], d[1], d[2]] + d[3..];
    }
  }

  lemma QuantaRoundTrip(d: bytes)
    ensures DecodeQuanta(Encode(d)) == Some(d)
    ensures 10 !in Encode(d) && 13 !in Encode(d)
  {
    QuantaBack(d);
    ArmorUnbroken(Sextets(d));
  }

  /** A symbol outside the alphabet makes any text undecodable. */
  lemma ForeignSymbol(s: bytes, i: nat)
    requires i < |s| && Value(s[i]).None? && s[i] != PAD && s[i] != 10 && s[i] != 13
    ensures !ValidBase64(s)
  {
    var j := SkipKeeps(s, i);
    QuantaForeign(SkipBreaks(s), j);
  }

  lemma {:induction false} SkipKeeps(s: bytes, i: nat) returns (j: nat)
    requires i < |s| && s[i] != 10 && s[i] != 13
    ensures j < |SkipBreaks(s)| && SkipBreaks(s)[j] == s[i]
  {
    if i == 0 {
      j := 0;
    } else {
      j := SkipKeeps(s[1..], i - 1);
      if s[0] != 10 && s[0] != 13 {
        j := j + 1;
      }
    }
  }

  lemma {:induction false} QuantaForeign(s: bytes, i: nat)
    requires i < |s| && Value(s[i]).None? && s[i] != PAD
    ensures DecodeQuanta(s).None?
  {
    if i >= 4 {
      QuantaForeign(s[4..], i - 4);
    }
  }
}
