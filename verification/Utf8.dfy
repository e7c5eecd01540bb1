/** Reading one character of UTF-8 text (ImTextCharFromUtf8).  The reader skips forward over errors; it is
    proved to be exact against the encoder of RFC 3629, section 3. */
module Utf8 {
  import opened Basics

  type Text = seq<Byte>

  /** A character and the number of bytes it takes. */
  datatype Char = Char(c: nat, len: nat)

  const REPLACEMENT := 0xFFFD

  /** 10xxxxxx */
  predicate Continues(b: Byte) {
    0x80 <= b < 0xC0
  }

  /** Appends the six low bits of b. */
  function Join(hi: nat, b: Byte): nat {
    hi * 0x40 + b % 0x40
  }

  function Read2(t: Text, i: nat): Char
    requires i < |t| && 0xC0 <= t[i] < 0xE0
  {
    if |t| - i < 2 then Char(REPLACEMENT, 1)
    else if t[i] < 0xC2 || !Continues(t[i + 1]) then Char(REPLACEMENT, 2)
    else Char(Join(t[i] % 0x20, t[i + 1]), 2)
  }

  function Read3(t: Text, i: nat): Char
    requires i < |t| && 0xE0 <= t[i] < 0xF0
  {
    if |t| - i < 3 then Char(REPLACEMENT, 1)
    else if t[i] == 0xE0 && (t[i + 1] < 0xA0 || t[i + 1] > 0xBF) then Char(REPLACEMENT, 3)
    else if t[i] == 0xED && t[i + 1] > 0x9F then Char(REPLACEMENT, 3)
    else if !Continues(t[i + 1]) || !Continues(t[i + 2]) then Char(REPLACEMENT, 3)
    else Char(Join(Join(t[i] % 0x10, t[i + 1]), t[i + 2]), 3)
  }

  function Read4(t: Text, i: nat): Char
    requires i < |t| && 0xF0 <= t[i] < 0xF8
  {
    if |t| - i < 4 then Char(REPLACEMENT, 1)
    else if t[i] > 0xF4 then Char(REPLACEMENT, 4)
    else if t[i] == 0xF0 && (t[i + 1] < 0x90 || t[i + 1] > 0xBF) then Char(REPLACEMENT, 4)
    else if t[i] == 0xF4 && t[i + 1] > 0x8F then Char(REPLACEMENT, 4)
    else if !Continues(t[i + 1]) || !Continues(t[i + 2]) || !Continues(t[i + 3]) then Char(REPLACEMENT, 4)
    else
      var c := Join(Join(Join(t[i] % 8, t[i + 1]), t[i + 2]), t[i + 3]);
      if Surrogate(c) then Char(REPLACEMENT, 4) else Char(c, 4)
  }

  predicate Surrogate(c: nat) {
    0xD800 <= c < 0xE000
  }

  /** The character at position i.  A byte that starts no character gives 0 and consumes nothing. */
  function Read(t: Text, i: nat): (r: Char)
    requires i < |t|
    ensures i + r.len <= |t| && r.c < 0x110000
    ensures r.len == 0 ==> r.c == 0 && t[i] >= 0x80
  {
    if t[i] < 0x80 then Char(t[i], 1)
    else if 0xC0 <= t[i] < 0xE0 then Read2(t, i)
    else if 0xE0 <= t[i] < 0xF0 then Read3(t, i)
    else if 0xF0 <= t[i] < 0xF8 then Read4(t, i)
    else Char(0, 0)
  }

  // ----- The encoder

  predicate Scalar(c: nat) {
    c < 0x110000 && !Surrogate(c)
  }

  function Encode(c: nat): (s: Text)
    requires Scalar(c)
    ensures 1 <= |s| <= 4
  {
    if c < 0x80 then [c]
    else if c < 0x800 then [0xC0 + c / 0x40, 0x80 + c % 0x40]
    else if c < 0x10000 then [0xE0 + c / 0x40 / 0x40, 0x80 + c / 0x40 % 0x40, 0x80 + c % 0x40]
    else [0xF0 + c / 0x40 / 0x40 / 0x40, 0x80 + c / 0x40 / 0x40 % 0x40, 0x80 + c / 0x40 % 0x40, 0x80 + c % 0x40]
  }

  /** Character c is spelt at position i. */
  predicate SpeltAt(t: Text, i: nat, c: nat)
    requires Scalar(c)
  {
    i + |Encode(c)| <= |t| && t[i..i + |Encode(c)|] == Encode(c)
  }

  lemma JoinSplit(hi: nat, b: Byte)
    ensures Join(hi, b) / 0x40 == hi && Join(hi, b) % 0x40 == b % 0x40
    ensures Continues(b) ==> 0x80 + b % 0x40 == b
  {}

  lemma SplitJoin(c: nat)
    ensures Join(c / 0x40, 0x80 + c % 0x40) == c && Continues(0x80 + c % 0x40)
  {}

  /** The bytes that are spelt at i, one by one. */
  lemma SpeltBytes(t: Text, i: nat, c: nat)
    requires Scalar(c)
    ensures SpeltAt(t, i, c) <==>
            i + |Encode(c)| <= |t| && forall k: nat :: k < |Encode(c)| ==> t[i + k] == Encode(c)[k]
  {
    hide Encode, Scalar;
    var e := Encode(c);
    if i + |e| <= |t| {
      var spelt := t[i..i + |e|];
      assert forall k: nat :: k < |e| ==> spelt[k] == t[i + k];
    }
  }

  lemma Read2Encoded(t: Text, i: nat, c: nat)
    requires 0x80 <= c < 0x800 && i + 2 <= |t| && t[i] == 0xC0 + c / 0x40 && t[i + 1] == 0x80 + c % 0x40
    ensures Read(t, i) == Char(c, 2)
  {
    SplitJoin(c);
  }

  lemma Read3Encoded(t: Text, i: nat, c: nat)
    requires 0x800 <= c < 0x10000 && !Surrogate(c) && i + 3 <= |t|
    requires t[i] == 0xE0 + c / 0x40 / 0x40 && t[i + 1] == 0x80 + c / 0x40 % 0x40 && t[i + 2] == 0x80 + c % 0x40
    ensures Read(t, i) == Char(c, 3)
  {
    hide Join;
    SplitJoin(c);
    SplitJoin(c / 0x40);
  }

  lemma Read4Encoded(t: Text, i: nat, c: nat)
    requires 0x10000 <= c < 0x110000 && i + 4 <= |t|
    requires t[i] == 0xF0 + c / 0x40 / 0x40 / 0x40 && t[i + 1] == 0x80 + c / 0x40 / 0x40 % 0x40
    requires t[i + 2] == 0x80 + c / 0x40 % 0x40 && t[i + 3] == 0x80 + c % 0x40
    ensures Read(t, i) == Char(c, 4)
  {
    hide Join;
    SplitJoin(c);
    SplitJoin(c / 0x40);
    SplitJoin(c / 0x40 / 0x40);
  }

  /** The spelling of every character is read back, whatever follows it. */
  lemma ReadEncoded(t: Text, i: nat, c: nat)
    requires Scalar(c) && SpeltAt(t, i, c)
    ensures i < |t| && Read(t, i) == Char(c, |Encode(c)|)
  {
    hide Read, SpeltAt;
    SpeltBytes(t, i, c);
    var e := Encode(c);
    assert t[i + 0] == e[0];
    if c < 0x80 {
      ReadAscii(t, i);
    } else if c < 0x800 {
      assert t[i + 1] == e[1];
      Read2Encoded(t, i, c);
    } else if c < 0x10000 {
      assert t[i + 1] == e[1] && t[i + 2] == e[2];
      Read3Encoded(t, i, c);
    } else {
      assert t[i + 1] == e[1] && t[i + 2] == e[2] && t[i + 3] == e[3];
      Read4Encoded(t, i, c);
    }
  }

  lemma ReadAscii(t: Text, i: nat)
    requires i < |t| && t[i] < 0x80
    ensures Read(t, i) == Char(t[i], 1)
  {}

  lemma Read2IsEncoded(t: Text, i: nat)
    requires i < |t| && 0xC0 <= t[i] < 0xE0 && Read2(t, i).c != REPLACEMENT
    ensures Read2(t, i).len == 2 && 0x80 <= Read2(t, i).c < 0x800 && t[i..i + 2] == Encode(Read2(t, i).c)
  {
    JoinSplit(t[i] % 0x20, t[i + 1]);
  }

  lemma Read3IsEncoded(t: Text, i: nat)
    requires i < |t| && 0xE0 <= t[i] < 0xF0 && Read3(t, i).c != REPLACEMENT
    ensures var r := Read3(t, i);
            r.len == 3 && 0x800 <= r.c < 0x10000 && !Surrogate(r.c) && t[i..i + 3] == Encode(r.c)
  {
    hide Join;
    var hi := Join(t[i] % 0x10, t[i + 1]);
    JoinSplit(t[i] % 0x10, t[i + 1]);
    JoinSplit(hi, t[i + 2]);
  }

  lemma Read4IsEncoded(t: Text, i: nat)
    requires i < |t| && 0xF0 <= t[i] < 0xF8 && Read4(t, i).c != REPLACEMENT
    ensures var r := Read4(t, i);
            r.len == 4 && 0x10000 <= r.c < 0x110000 && !Surrogate(r.c) && t[i..i + 4] == Encode(r.c)
  {
    hide Join;
    var hi := Join(t[i] % 8, t[i + 1]);
    var mid := Join(hi, t[i + 2]);
    JoinSplit(t[i] % 8, t[i + 1]);
    JoinSplit(hi, t[i + 2]);
    JoinSplit(mid, t[i + 3]);
  }

  /** Whatever is read, other than the replacement character, was spelt in just that way: overlong forms,
      surrogates and values beyond 0x10FFFF never get through. */
  lemma ReadIsEncoded(t: Text, i: nat)
    requires i < |t| && Read(t, i).len > 0 && Read(t, i).c != REPLACEMENT
    ensures var r := Read(t, i);
            Scalar(r.c) && SpeltAt(t, i, r.c) && r.len == |Encode(r.c)|
  {
    hide Read2, Read3, Read4;
    if 0xC0 <= t[i] < 0xE0 {
      Read2IsEncoded(t, i);
    } else if 0xE0 <= t[i] < 0xF0 {
      Read3IsEncoded(t, i);
    } else if 0xF0 <= t[i] {
      Read4IsEncoded(t, i);
    }
  }

  /** The reader is exact: it reads a character other than the replacement character exactly where that
      character is spelt. */
  lemma ReadExactly(t: Text, i: nat, c: nat)
    requires i < |t| && Scalar(c) && c != REPLACEMENT
    ensures Read(t, i) == Char(c, |Encode(c)|) <==> SpeltAt(t, i, c)
  {
    hide Read, SpeltAt, Scalar;
    if SpeltAt(t, i, c) {
      ReadEncoded(t, i, c);
    }
    if Read(t, i) == Char(c, |Encode(c)|) {
      ReadIsEncoded(t, i);
    }
  }

  /** What is spelt wrongly: a byte that starts no character gives 0 and takes nothing; any other lead byte gives the
      replacement character and takes as many bytes as it announces, or one byte if there are not so many. */
  lemma ReadMalformed(t: Text, i: nat)
    requires i < |t| && !exists c: nat :: Scalar(c) && SpeltAt(t, i, c)
    ensures var announced := if t[i] < 0xE0 then 2 else if t[i] < 0xF0 then 3 else 4;
            Read(t, i) ==
            if t[i] < 0xC0 || t[i] >= 0xF8 then Char(0, 0)
            else Char(0xFFFD, if i + announced <= |t| then announced else 1)
  {
    hide Encode, Scalar, SpeltAt;
    if t[i] < 0x80 {
      AsciiSpelt(t, i);
    }
    if Read(t, i).len > 0 && Read(t, i).c != REPLACEMENT {
      ReadIsEncoded(t, i);
    }
    TakesAnnounced(t, i);
  }

  lemma AsciiSpelt(t: Text, i: nat)
    requires i < |t| && t[i] < 0x80
    ensures Scalar(t[i]) && SpeltAt(t, i, t[i])
  {}

  lemma TakesAnnounced(t: Text, i: nat)
    requires i < |t|
    ensures var announced := if t[i] < 0xE0 then 2 else if t[i] < 0xF0 then 3 else 4;
            if 0xC0 <= t[i] < 0xF8 then Read(t, i).len == if i + announced <= |t| then announced else 1
            else t[i] >= 0x80 ==> Read(t, i) == Char(0, 0)
  {
    hide Join;
  }
}
