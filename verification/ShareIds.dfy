/** Share IDs: one mode letter followed by 24 symbols of lower-case base32 (section 6 of RFC 4648). */
module ShareIds {
  import opened Ascii
  import opened Base64

  type quint = x: int | 0 <= x < 32

  function Digit(v: quint): char {
    if v < 26 then 'A' + v as char else '2' + (v - 26) as char
  }

  predicate IsDigit32(c: char) {
    'a' <= c <= 'z' || '2' <= c <= '7'
  }

  /** The value of a lower-cased digit. */
  function DigitValue(c: char): (v: quint)
    requires IsDigit32(c)
    ensures LowerChar(Digit(v)) == c
  {
    if c >= 'a' then (c - 'a') as int else (c - '2') as int + 26
  }

  /** Five bytes as eight digits. */
  function Group(b: bytes): (g: seq<quint>)
    requires |b| == 5
    ensures |g| == 8
  {
    [b[0] / 8, b[0] % 8 * 4 + b[1] / 64, b[1] / 2 % 32, b[1] % 2 * 16 + b[2] / 16,
     b[2] % 16 * 2 + b[3] / 128, b[3] / 4 % 32, b[3] % 4 * 8 + b[4] / 32, b[4] % 32]
  }

  function Ungroup(g: seq<quint>): (b: bytes)
    requires |g| == 8
    ensures |b| == 5
  {
    [g[0] as int * 8 + g[1] / 4,
     g[1] as int % 4 * 64 + g[2] as int * 2 + g[3] / 16,
     g[3] as int % 16 * 16 + g[4] / 2,
     g[4] as int % 2 * 128 + g[5] as int * 4 + g[6] / 8,
     g[6] as int % 8 * 32 + g[7]]
  }

  lemma BytesBack(b: bytes)
    requires |b| == 5
    ensures Ungroup(Group(b)) == b
  {
    var g := Group(b);
    assert g[0] == b[0] / 8 && g[1] / 4 == b[0] % 8;
    assert g[1] % 4 == b[1] / 64 && g[3] / 16 == b[1] % 2;
    SplitByte(b[1]);
    assert g[3] % 16 == b[2] / 16 && g[4] / 2 == b[2] % 16;
    assert g[4] % 2 == b[3] / 128 && g[6] / 8 == b[3] % 4;
    SplitByte(b[3]);
    assert g[6] % 8 == b[4] / 32;
  }

  lemma SplitByte(x: byte)
    ensures x / 64 * 64 + x / 2 % 32 * 2 + x % 2 == x
    ensures x / 128 * 128 + x / 4 % 32 * 4 + x % 4 == x
  {
  }

  lemma JoinByte(hi: int, mid: int, lo: int)
    ensures 0 <= hi < 4 && 0 <= mid < 32 && 0 <= lo < 2 ==>
              var x := hi * 64 + mid * 2 + lo; x / 64 == hi && x / 2 % 32 == mid && x % 2 == lo
    ensures 0 <= hi < 2 && 0 <= mid < 32 && 0 <= lo < 4 ==>
              var x := hi * 128 + mid * 4 + lo; x / 128 == hi && x / 4 % 32 == mid && x % 4 == lo
  {
  }

  lemma QuintsBack(g: seq<quint>)
    requires |g| == 8
    ensures Group(Ungroup(g)) == g
  {
    var b := Ungroup(g);
    JoinByte(g[1] as int % 4, g[2], g[3] / 16);
    JoinByte(g[4] as int % 2, g[5], g[6] / 8);
    assert b[0] / 8 == g[0] && b[0] % 8 == g[1] / 4;
    assert b[2] / 16 == g[3] % 16 && b[2] % 16 == g[4] / 2;
    assert b[4] / 32 == g[6] % 8 && b[4] % 32 == g[7];
  }

  /** Unpadded base32 of the fifteen random bytes: three groups. */
  function Base32(buf: bytes): (s: string)
    requires |buf| == RANDOM_LENGTH
    ensures |s| == 24
  {
    Digits(Group(buf[..5])) + Digits(Group(buf[5..10])) + Digits(Group(buf[10..]))
  }

  function Digits(g: seq<quint>): (s: string)
    requires |g| == 8
    ensures |s| == 8
  {
    seq(8, i requires 0 <= i < 8 => Digit(g[i]))
  }

  function DigitValues(s: string): (g: seq<quint>)
    requires |s| == 8 && forall c :: c in s ==> IsDigit32(c)
    ensures |g| == 8
  {
    seq(8, i requires 0 <= i < 8 => DigitValue(s[i]))
  }

  function Unbase32(s: string): (buf: bytes)
    requires |s| == 24 && forall c :: c in s ==> IsDigit32(c)
    ensures |buf| == RANDOM_LENGTH
  {
    Untext(s[..8]) + Untext(s[8..16]) + Untext(s[16..])
  }

  /** One group as it appears in an ID, and the bytes it stands for. */
  function Text(b: bytes): (s: string)
    requires |b| == 5
    ensures |s| == 8
  {
    ToLower(Digits(Group(b)))
  }

  function Untext(s: string): (b: bytes)
    requires |s| == 8 && forall c :: c in s ==> IsDigit32(c)
    ensures |b| == 5
  {
    Ungroup(DigitValues(s))
  }

  lemma LowerDigit(v: quint)
    ensures IsDigit32(LowerChar(Digit(v))) && DigitValue(LowerChar(Digit(v))) == v
  {
  }

  lemma DigitsBack(g: seq<quint>)
    requires |g| == 8
    ensures forall c :: c in ToLower(Digits(g)) ==> IsDigit32(c)
    ensures DigitValues(ToLower(Digits(g))) == g
  {
    var s := ToLower(Digits(g));
    forall i | 0 <= i < 8 ensures IsDigit32(s[i]) && DigitValue(s[i]) == g[i] {
      LowerDigit(g[i]);
    }
  }

  lemma TextBack(b: bytes)
    requires |b| == 5
    ensures forall c :: c in Text(b) ==> IsDigit32(c)
    ensures Untext(Text(b)) == b
  {
    DigitsBack(Group(b));
    BytesBack(b);
  }

  lemma UntextBack(s: string)
    requires |s| == 8 && forall c :: c in s ==> IsDigit32(c)
    ensures Text(Untext(s)) == s
  {
    QuintsBack(DigitValues(s));
  }

  const RANDOM_LENGTH := 15

  function New(burn: bool, buf: bytes): (id: string)
    requires |buf| == RANDOM_LENGTH
    ensures |id| == 25
  {
    [if burn then 'b' else 'p'] + ToLower(Base32(buf))
  }

  predicate IsBurnAfterReading(id: string) {
    |id| > 0 && id[0] == 'b'
  }

  /** The first letter decides, whatever else the text is. */
  lemma ModeIsFirstLetter(id: string)
    ensures IsBurnAfterReading(id) <==> "b" <= id
  {
  }

  /** The shape of every share ID. */
  predicate IsShareId(id: string) {
    |id| == 25 && (id[0] == 'b' || id[0] == 'p') && forall c :: c in id[1..] ==> IsDigit32(c)
  }

  /** The random bytes an ID was made from. */
  function Seed(id: string): (buf: bytes)
    requires IsShareId(id)
    ensures |buf| == RANDOM_LENGTH
  {
    Unbase32(id[1..])
  }

  lemma TextOfBase32(buf: bytes)
    requires |buf| == RANDOM_LENGTH
    ensures ToLower(Base32(buf)) == Text(buf[..5]) + Text(buf[5..10]) + Text(buf[10..])
  {
  }

  lemma Base32Back(buf: bytes)
    requires |buf| == RANDOM_LENGTH
    ensures forall c :: c in ToLower(Base32(buf)) ==> IsDigit32(c)
    ensures Unbase32(ToLower(Base32(buf))) == buf
  {
    TextOfBase32(buf);
    TextBack(buf[..5]);
    TextBack(buf[5..10]);
    TextBack(buf[10..]);
    ThreeBack(Text(buf[..5]), Text(buf[5..10]), Text(buf[10..]), buf);
  }

  lemma ThreeBack(x: string, y: string, z: string, buf: bytes)
    requires |x| == |y| == |z| == 8 && |buf| == RANDOM_LENGTH
    requires forall c :: c in x || c in y || c in z ==> IsDigit32(c)
    requires Untext(x) == buf[..5] && Untext(y) == buf[5..10] && Untext(z) == buf[10..]
    ensures forall c :: c in x + y + z ==> IsDigit32(c)
    ensures Unbase32(x + y + z) == buf
  {
    var s := x + y + z;
    assert s[..8] == x && s[8..16] == y && s[16..] == z;
    assert buf == buf[..5] + buf[5..10] + buf[10..];
  }

  lemma Unbase32Back(s: string)
    requires |s| == 24 && forall c :: c in s ==> IsDigit32(c)
    ensures ToLower(Base32(Unbase32(s))) == s
  {
    UntextBack(s[..8]);
    UntextBack(s[8..16]);
    UntextBack(s[16..]);
    ThreeText(Untext(s[..8]), Untext(s[8..16]), Untext(s[16..]), s);
  }

  lemma ThreeText(x: bytes, y: bytes, z: bytes, s: string)
    requires |x| == |y| == |z| == 5 && |s| == 24
    requires Text(x) == s[..8] && Text(y) == s[8..16] && Text(z) == s[16..]
    ensures ToLower(Base32(x + y + z)) == s
  {
    var buf := x + y + z;
    assert buf[..5] == x && buf[5..10] == y && buf[10..] == z;
    TextOfBase32(buf);
    assert s == s[..8] + s[8..16] + s[16..];
  }

  lemma LetterAndRest(c: char, s: string)
    ensures ([c] + s)[0] == c && ([c] + s)[1..] == s
  {
  }

  lemma LetterFirst(id: string, c: char, s: string)
    requires id != [] && id[0] == c && s == id[1..]
    ensures [c] + s == id
  {
  }

  lemma SeedBack(burn: bool, buf: bytes)
    requires |buf| == RANDOM_LENGTH
    ensures IsShareId(New(burn, buf)) && Seed(New(burn, buf)) == buf
    ensures IsBurnAfterReading(New(burn, buf)) == burn
  {
    Base32Back(buf);
    LetterAndRest(if burn then 'b' else 'p', ToLower(Base32(buf)));
  }

  lemma IdBack(id: string)
    requires IsShareId(id)
    ensures New(IsBurnAfterReading(id), Seed(id)) == id
  {
    var letter := if IsBurnAfterReading(id) then 'b' else 'p';
    Unbase32Back(id[1..]);
    LetterFirst(id, letter, ToLower(Base32(Seed(id))));
  }

  /** `New` is a bijection between (mode, fifteen random bytes) and share IDs, and the mode is readable
      from the ID alone. */
  lemma NewIsBijective(burn: bool, buf: bytes, id: string)
    requires |buf| == RANDOM_LENGTH
    ensures IsShareId(New(burn, buf)) && Seed(New(burn, buf)) == buf
    ensures IsBurnAfterReading(New(burn, buf)) == burn
    ensures IsShareId(id) ==> New(IsBurnAfterReading(id), Seed(id)) == id
  {
    SeedBack(burn, buf);
    if IsShareId(id) {
      IdBack(id);
    }
  }

  /** Different bytes or different modes never collide. */
  lemma NewIsInjective(burn: bool, buf: bytes, burn': bool, buf': bytes)
    requires |buf| == |buf'| == RANDOM_LENGTH
    ensures New(burn, buf) == New(burn', buf') <==> burn == burn' && buf == buf'
  {
    NewIsBijective(burn, buf, New(burn', buf'));
    NewIsBijective(burn', buf', New(burn, buf));
  }
}
