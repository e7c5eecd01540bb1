/** The textual form of the embedded font: five characters for four bytes, least significant first. */
module Base85 {
  import opened Basics
  import opened Adler32

  /** Decode85Byte takes a (signed) char and its result is used modulo 2^32. */
  function Digit(c: Byte): int {
    var signed := if c < 128 then c else c - 256;
    if signed >= 92 then signed - 36 else signed - 35
  }

  function Value5(d0: int, d1: int, d2: int, d3: int, d4: int): int {
    d0 + 85 * (d1 + 85 * (d2 + 85 * (d3 + 85 * d4)))
  }

  function Value(g: seq<Byte>): int
    requires |g| == 5
  {
    Value5(Digit(g[0]), Digit(g[1]), Digit(g[2]), Digit(g[3]), Digit(g[4]))
  }

  /** The bytes of a word, least significant first. */
  function LittleEndian(w: Word): (s: seq<Byte>)
    ensures |s| == 4
  {
    [w % 0x100, w / 0x100 % 0x100, w / 0x10000 % 0x100, w / 0x1000000 % 0x100]
  }

  function WordOf(s: seq<Byte>): Word
    requires |s| == 4
  {
    var b0: nat, b1: nat, b2: nat, b3: nat := s[0], s[1], s[2], s[3];
    b0 + 0x100 * (b1 + 0x100 * (b2 + 0x100 * b3))
  }

  function DecodeGroup(g: seq<Byte>): (s: seq<Byte>)
    requires |g| == 5
    ensures |s| == 4
  {
    LittleEndian(Value(g) % 0x1_0000_0000)
  }

  function DecodeAll(text: seq<Byte>): (s: seq<Byte>)
    requires |text| % 5 == 0
    ensures |s| == |text| / 5 * 4
  {
    if text == [] then [] else DecodeGroup(text[..5]) + DecodeAll(text[5..])
  }

  /** Decode85: src is a C string, so it has no zero byte before its end, which is where the loop stops; the
      code reads five characters at a time, so its length has to be a multiple of five. */
  method Decode85(src: seq<Byte>, dst: array<Byte>)
    requires 0 !in src && |src| % 5 == 0
    requires dst.Length >= (|src| + 4) / 5 * 4
    modifies dst
    ensures dst[..(|src| + 4) / 5 * 4] == DecodeAll(src)
    ensures dst[(|src| + 4) / 5 * 4..] == old(dst[(|src| + 4) / 5 * 4..])
  {
    hide DecodeGroup, DecodeAll, LittleEndian;
    var from, to := 0, 0;
    DecodeNothing();
    assert src[..0] == [];
    while from < |src|
      invariant from <= |src| && from % 5 == 0 && to == from / 5 * 4 <= dst.Length
      invariant dst[..to] == DecodeAll(src[..from])
      invariant dst[(|src| + 4) / 5 * 4..] == old(dst[(|src| + 4) / 5 * 4..])
    {
      DecodeNext(src, from);
      var g := src[from..from + 5];
      var tmp := Value5(Digit(g[0]), Digit(g[1]), Digit(g[2]), Digit(g[3]), Digit(g[4])) % 0x1_0000_0000;
      GroupOfWord(g);
      Store(dst, to, tmp);
      from := from + 5;
      to := to + 4;
    }
    assert src[..from] == src;
  }

  /** dst[0] = (tmp >> 0) & 0xFF and so on: independent of the machine's byte order. */
  method Store(dst: array<Byte>, at: nat, tmp: Word)
    requires at + 4 <= dst.Length
    modifies dst
    ensures dst[..at + 4] == old(dst[..at]) + LittleEndian(tmp)
    ensures dst[at + 4..] == old(dst[at + 4..])
  {
    dst[at] := tmp % 0x100;
    dst[at + 1] := tmp / 0x100 % 0x100;
    dst[at + 2] := tmp / 0x10000 % 0x100;
    dst[at + 3] := tmp / 0x1000000 % 0x100;
  }

  lemma GroupOfWord(g: seq<Byte>)
    requires |g| == 5
    ensures DecodeGroup(g)
            == LittleEndian(Value5(Digit(g[0]), Digit(g[1]), Digit(g[2]), Digit(g[3]), Digit(g[4])) % 0x1_0000_0000)
  {}

  lemma DecodeNothing()
    ensures DecodeAll([]) == []
  {}

  lemma DecodeUnfolds(text: seq<Byte>)
    requires |text| % 5 == 0 && text != []
    ensures |text| >= 5 && DecodeAll(text) == DecodeGroup(text[..5]) + DecodeAll(text[5..])
  {
    hide DecodeGroup;
  }

  lemma {:induction false} DecodeConcat(a: seq<Byte>, b: seq<Byte>)
    requires |a| % 5 == 0 && |b| % 5 == 0
    ensures |a + b| % 5 == 0 && DecodeAll(a + b) == DecodeAll(a) + DecodeAll(b)
    decreases |a|
  {
    hide DecodeGroup, DecodeAll;
    if a == [] {
      assert a + b == b;
      DecodeNothing();
    } else {
      DecodeUnfolds(a);
      DecodeUnfolds(a + b);
      assert (a + b)[..5] == a[..5] && (a + b)[5..] == a[5..] + b;
      DecodeConcat(a[5..], b);
    }
  }

  lemma DecodeNext(src: seq<Byte>, from: nat)
    requires |src| % 5 == 0 && from % 5 == 0 && from < |src|
    ensures from + 5 <= |src|
    ensures DecodeAll(src[..from + 5]) == DecodeAll(src[..from]) + DecodeGroup(src[from..from + 5])
  {
    hide DecodeGroup;
    var group := src[from..from + 5];
    assert src[..from + 5] == src[..from] + group;
    DecodeConcat(src[..from], group);
    assert group[..5] == group && group[5..] == [];
  }

  // ----- The encoder

  /** The characters '#' to 'x' without the backslash. */
  predicate InAlphabet(c: Byte) {
    35 <= c <= 120 && c != 92
  }

  function Character(d: nat): (c: Byte)
    requires d < 85
    ensures InAlphabet(c) && Digit(c) == d
  {
    if d < 57 then d + 35 else d + 36
  }

  lemma CharacterOfDigit(c: Byte)
    requires InAlphabet(c)
    ensures 0 <= Digit(c) < 85 && Character(Digit(c)) == c
  {}

  function EncodeGroup(s: seq<Byte>): (g: seq<Byte>)
    requires |s| == 4
    ensures |g| == 5 && forall c <- g :: InAlphabet(c)
  {
    var w := WordOf(s);
    [Character(w % 85), Character(w / 85 % 85), Character(w / 7225 % 85), Character(w / 614125 % 85),
      Character(w / 52200625)]
  }

  function EncodeAll(s: seq<Byte>): (text: seq<Byte>)
    requires |s| % 4 == 0
    ensures |text| == |s| / 4 * 5 && forall c <- text :: InAlphabet(c)
  {
    if s == [] then [] else EncodeGroup(s[..4]) + EncodeAll(s[4..])
  }

  lemma LittleEndianBijective(w: Word, s: seq<Byte>)
    requires |s| == 4
    ensures LittleEndian(w) == s <==> w == WordOf(s)
  {
    BytesOfWord(s[0], s[1], s[2], s[3]);
    if LittleEndian(w) == s {
      WordOfBytes(w);
    }
    if w == WordOf(s) {
      assert LittleEndian(w) == [s[0], s[1], s[2], s[3]];
    }
  }

  lemma PeelByte(b: Byte, rest: nat)
    ensures (b + 0x100 * rest) % 0x100 == b && (b + 0x100 * rest) / 0x100 == rest
  {}

  lemma DivDivByte(v: nat, k: nat)
    requires k == 0x100 || k == 0x10000
    ensures v / k / 0x100 == v / (k * 0x100)
  {}

  lemma BytesOfWord(b0: nat, b1: nat, b2: nat, b3: nat)
    requires b0 < 0x100 && b1 < 0x100 && b2 < 0x100 && b3 < 0x100
    ensures var w := b0 + 0x100 * (b1 + 0x100 * (b2 + 0x100 * b3));
            w % 0x100 == b0 && w / 0x100 % 0x100 == b1 && w / 0x10000 % 0x100 == b2 && w / 0x1000000 % 0x100 == b3
  {
    var w2 := b2 + 0x100 * b3;
    var w1 := b1 + 0x100 * w2;
    var w := b0 + 0x100 * w1;
    PeelByte(b0, w1);
    PeelByte(b1, w2);
    PeelByte(b2, b3);
    DivDivByte(w, 0x100);
    DivDivByte(w, 0x10000);
  }

  lemma WordOfBytes(w: Word)
    ensures w == w % 0x100
            + 0x100 * (w / 0x100 % 0x100 + 0x100 * (w / 0x10000 % 0x100 + 0x100 * (w / 0x1000000 % 0x100)))
  {
    DivDivByte(w, 0x100);
    DivDivByte(w, 0x10000);
  }

  /** Peeling one base-85 digit off. */
  lemma Peel(d: int, rest: int)
    requires 0 <= d < 85
    ensures (d + 85 * rest) % 85 == d && (d + 85 * rest) / 85 == rest
  {}

  lemma DigitsOfValue(d0: int, d1: int, d2: int, d3: int, d4: int)
    requires 0 <= d0 < 85 && 0 <= d1 < 85 && 0 <= d2 < 85 && 0 <= d3 < 85 && 0 <= d4
    ensures var v := Value5(d0, d1, d2, d3, d4);
            v % 85 == d0 && v / 85 % 85 == d1 && v / 7225 % 85 == d2 && v / 614125 % 85 == d3 && v / 52200625 == d4
  {
    var v3 := d3 + 85 * d4;
    var v2 := d2 + 85 * v3;
    var v1 := d1 + 85 * v2;
    Peel(d0, v1);
    Peel(d1, v2);
    Peel(d2, v3);
    Peel(d3, d4);
    var v := Value5(d0, d1, d2, d3, d4);
    assert v / 85 == v1;
    DivDiv(v, 85);
    DivDiv(v, 7225);
    DivDiv(v, 614125);
  }

  lemma DivDiv(v: int, k: int)
    requires k == 85 || k == 7225 || k == 614125
    ensures v / k / 85 == v / (k * 85)
  {}

  lemma ValueOfDigits(w: Word)
    ensures Value5(w % 85, w / 85 % 85, w / 7225 % 85, w / 614125 % 85, w / 52200625) == w
    ensures w / 52200625 < 85
  {
    DivDiv(w, 85);
    DivDiv(w, 7225);
    DivDiv(w, 614125);
  }

  /** Among the five-character groups over the alphabet whose value fits a word, exactly one decodes to
      given four bytes: the one the encoder writes. */
  lemma GroupBijective(g: seq<Byte>, s: seq<Byte>)
    requires |g| == 5 && |s| == 4 && (forall c <- g :: InAlphabet(c)) && Value(g) < 0x1_0000_0000
    ensures DecodeGroup(g) == s <==> g == EncodeGroup(s)
  {
    hide LittleEndian, WordOf, Character, Value5;
    assert forall k | 0 <= k < 5 :: InAlphabet(g[k]);
    CharacterOfDigit(g[0]);
    CharacterOfDigit(g[1]);
    CharacterOfDigit(g[2]);
    CharacterOfDigit(g[3]);
    CharacterOfDigit(g[4]);
    DigitsOfValue(Digit(g[0]), Digit(g[1]), Digit(g[2]), Digit(g[3]), Digit(g[4]));
    var v: Word := Value(g);
    LittleEndianBijective(v, s);
    if v == WordOf(s) {
      assert EncodeGroup(s) == [g[0], g[1], g[2], g[3], g[4]];
    }
    if g == EncodeGroup(s) {
      EncodedValue(s);
    }
  }

  lemma EncodedValue(s: seq<Byte>)
    requires |s| == 4
    ensures Value(EncodeGroup(s)) == WordOf(s)
  {
    hide WordOf, Value5;
    ValueOfDigits(WordOf(s));
  }

  lemma DecodeEncodeGroup(s: seq<Byte>)
    requires |s| == 4
    ensures DecodeGroup(EncodeGroup(s)) == s
  {
    hide WordOf, LittleEndian, EncodeGroup, Value;
    EncodedValue(s);
    LittleEndianBijective(WordOf(s), s);
  }

  /** Decoding undoes encoding for every length divisible by four. */
  lemma {:induction false} DecodeEncode(s: seq<Byte>)
    requires |s| % 4 == 0
    ensures DecodeAll(EncodeAll(s)) == s
    decreases |s|
  {
    hide DecodeGroup, EncodeGroup;
    if s != [] {
      var head, tail := EncodeGroup(s[..4]), EncodeAll(s[4..]);
      assert (head + tail)[..5] == head && (head + tail)[5..] == tail;
      DecodeEncodeGroup(s[..4]);
      DecodeEncode(s[4..]);
    }
  }

  // ----- The alphabet and the order of digits and bytes

  /** The digits from 0 on are the characters from # to x in their order, without the backslash. */
  lemma AlphabetInOrder(d: nat)
    requires d < 84
    ensures Character(0) == '#' as int && Character(84) == 'x' as int
    ensures Character(d + 1) == Character(d) + if Character(d) + 1 == '\\' as int then 2 else 1
    ensures Digit(Character(d)) == d
  {}

  /** Any other character is read too: in the same order, the backslash like the [ before it; but those from 128 on are
      negative. */
  lemma DigitsInOrder(c: Byte)
    requires c < 255
    ensures Digit('#' as int) == 0
    ensures Digit(c + 1) == if c + 1 == 128 then -163 else if c + 1 == '\\' as int then Digit(c) else Digit(c) + 1
  {}

  lemma BytesSum(w: Word)
    ensures var s := LittleEndian(w);
            var b0: nat, b1: nat, b2: nat, b3: nat := s[0], s[1], s[2], s[3];
            b0 + b1 * 0x100 + b2 * 0x10000 + b3 * 0x1000000 == w
  {
    WordOfBytes(w);
  }

  lemma Value5Flat(d0: int, d1: int, d2: int, d3: int, d4: int)
    ensures Value5(d0, d1, d2, d3, d4) == d0 + d1 * 85 + d2 * 7225 + d3 * 614125 + d4 * 52200625
  {}

  /** Both the characters and the bytes of a group have the least significant digit first: the number they stand for is
      the same, but for what 32 bits cut off. */
  lemma GroupIsNumber(g: seq<Byte>)
    requires |g| == 5
    ensures var s := DecodeGroup(g);
            var b0: nat, b1: nat, b2: nat, b3: nat := s[0], s[1], s[2], s[3];
            b0 + b1 * 0x100 + b2 * 0x10000 + b3 * 0x1000000
            == (Digit(g[0]) + Digit(g[1]) * 85 + Digit(g[2]) * 7225 + Digit(g[3]) * 614125 + Digit(g[4]) * 52200625)
               % 0x1_0000_0000
  {
    hide Digit, LittleEndian, Value5;
    Value5Flat(Digit(g[0]), Digit(g[1]), Digit(g[2]), Digit(g[3]), Digit(g[4]));
    BytesSum(Value(g) % 0x1_0000_0000);
  }
}
