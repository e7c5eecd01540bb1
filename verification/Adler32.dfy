/** The checksum of the embedded font: stb_adler32 sums in blocks and reduces once per block; section 2.2
    of RFC 1950 reduces after every byte. */
module Adler32 {
  import opened Basics

  const MOD := 65521
  const BLOCK := 5552

  /** The two running sums. */
  datatype Sums = Sums(s1: nat, s2: nat)

  function Split(adler: Word): Sums {
    Sums(adler % 0x10000, adler / 0x10000)
  }

  function Pack(s: Sums): (w: Word)
    requires s.s1 < 0x10000 && s.s2 < 0x10000
    ensures Split(w) == s
  {
    s.s2 * 0x10000 + s.s1
  }

  // ----- The definition, one byte at a time

  function Next(s: Sums, b: Byte): Sums {
    Sums((s.s1 + b) % MOD, (s.s2 + (s.s1 + b) % MOD) % MOD)
  }

  function Fold(s: Sums, bytes: seq<Byte>): (r: Sums)
    ensures bytes != [] ==> r.s1 < MOD && r.s2 < MOD
    ensures bytes == [] ==> r == s
  {
    if bytes == [] then s else Next(Fold(s, bytes[..|bytes| - 1]), bytes[|bytes| - 1])
  }

  /** The checksum of `bytes` started from an earlier checksum. */
  function Adler(adler: Word, bytes: seq<Byte>): Word {
    Pack(Fold(Split(adler), bytes))
  }

  lemma {:induction false} FoldConcat(s: Sums, a: seq<Byte>, b: seq<Byte>)
    ensures Fold(s, a + b) == Fold(Fold(s, a), b)
    decreases |b|
  {
    if b == [] {
      assert a + b == a;
    } else {
      var front := b[..|b| - 1];
      assert (a + b)[..|a + b| - 1] == a + front;
      FoldConcat(s, a, front);
    }
  }

  /** A checksum can be continued: that of a, carried on over b, is that of a followed by b. */
  lemma {:induction false} AdlerConcat(adler: Word, a: seq<Byte>, b: seq<Byte>)
    ensures Adler(Adler(adler, a), b) == Adler(adler, a + b)
  {
    FoldConcat(Split(adler), a, b);
  }

  // ----- What the two halves of the checksum are

  function Sum(bytes: seq<Byte>): nat {
    if bytes == [] then 0 else Sum(bytes[..|bytes| - 1]) + bytes[|bytes| - 1]
  }

  /** The sum of all prefix sums. */
  function SumOfSums(bytes: seq<Byte>): nat {
    if bytes == [] then 0 else SumOfSums(bytes[..|bytes| - 1]) + Sum(bytes)
  }

  lemma ModAbsorb(x: int, y: int)
    ensures (x % MOD + y) % MOD == (x + y) % MOD && (x + y % MOD) % MOD == (x + y) % MOD
  {}

  /** The low half is 1 plus the sum of the bytes, the high half the sum of all values the low half took,
      both modulo 65521. */
  lemma {:induction false} AdlerIsTwoSums(bytes: seq<Byte>)
    ensures Fold(Sums(1, 0), bytes) == Sums((1 + Sum(bytes)) % MOD, (|bytes| + SumOfSums(bytes)) % MOD)
  {
    if bytes != [] {
      var front, b := bytes[..|bytes| - 1], bytes[|bytes| - 1];
      AdlerIsTwoSums(front);
      ModAbsorb(1 + Sum(front), b);
      ModAbsorb(|front| + SumOfSums(front), (1 + Sum(bytes)) % MOD);
      ModAbsorb(|front| + SumOfSums(front), 1 + Sum(bytes));
    }
  }

  // ----- The blocked computation

  /** Unreduced sums that stand for the reduced ones. */
  predicate Stands(s: Sums, r: Sums) {
    s.s1 % MOD == r.s1 % MOD && s.s2 % MOD == r.s2 % MOD
  }

  lemma StandsNext(s: Sums, r: Sums, b: Byte)
    requires Stands(s, r)
    ensures Stands(Sums(s.s1 + b, s.s2 + (s.s1 + b)), Next(r, b))
  {
    ModAbsorb(s.s1, b);
    ModAbsorb(r.s1, b);
    ModAbsorb(s.s2, s.s1 + b);
    ModAbsorb(r.s2, (r.s1 + b) % MOD);
    calc {
      (s.s2 + (s.s1 + b)) % MOD;
      (s.s2 % MOD + (s.s1 + b)) % MOD;
      { ModAbsorb(s.s2 % MOD, s.s1 + b); }
      (s.s2 % MOD + (s.s1 + b) % MOD) % MOD;
      (r.s2 % MOD + (r.s1 + b) % MOD) % MOD;
      { ModAbsorb(r.s2, (r.s1 + b) % MOD); }
      (r.s2 + (r.s1 + b) % MOD) % MOD;
    }
  }

  /** How large the sums can be i bytes into a block that began with 16-bit values. */
  predicate Bounded(s: Sums, i: nat) {
    s.s1 <= 65535 + 255 * i && s.s2 <= 65535 + 65535 * i + 255 * Triangle(i)
  }

  function Triangle(i: nat): nat {
    if i == 0 then 0 else Triangle(i - 1) + i
  }

  lemma {:induction false} TriangleDoubled(i: nat)
    ensures 2 * Triangle(i) == i * (i + 1)
  {
    if i > 0 {
      TriangleDoubled(i - 1);
    }
  }

  lemma {:induction false} TriangleGrows(i: nat, j: nat)
    requires i <= j
    ensures Triangle(i) <= Triangle(j)
    decreases j
  {
    if i < j {
      TriangleGrows(i, j - 1);
    }
  }

  /** Within a block neither sum leaves 32 bits, so the code may wait with the modulo. */
  lemma BlockFitsWord(s: Sums, i: nat)
    requires i <= BLOCK && Bounded(s, i)
    ensures s.s1 < 0x1_0000_0000 && s.s2 < 0x1_0000_0000
  {
    TriangleDoubled(BLOCK);
    TriangleGrows(i, BLOCK);
  }

  /** One byte more: the fold over one byte more. */
  lemma FoldNext(s: Sums, buffer: seq<Byte>, k: nat)
    requires k < |buffer|
    ensures Fold(s, buffer[..k + 1]) == Next(Fold(s, buffer[..k]), buffer[k])
  {
    assert buffer[..k + 1][..k] == buffer[..k];
  }

  /** The sums i bytes into a block stand for the fold over the first `at` bytes. */
  ghost predicate InBlock(start: Sums, buffer: seq<Byte>, at: nat, i: nat, s1: Word, s2: Word) {
    at <= |buffer| && Bounded(Sums(s1, s2), i) && Stands(Sums(s1, s2), Fold(start, buffer[..at]))
  }

  /** s1 += buffer[k], s2 += s1; the sums are 32-bit words on some platforms. */
  method AddByte(s1: Word, s2: Word, buffer: seq<Byte>, at: nat, ghost start: Sums, ghost i: nat)
      returns (t1: Word, t2: Word)
    requires at < |buffer| && i < BLOCK && InBlock(start, buffer, at, i, s1, s2)
    ensures InBlock(start, buffer, at + 1, i + 1, t1, t2)
  {
    var b := buffer[at];
    BlockFitsWord(Sums(s1 + b, s2 + (s1 + b)), i + 1);
    FoldNext(start, buffer, at);
    StandsNext(Sums(s1, s2), Fold(start, buffer[..at]), b);
    t1 := s1 + b;
    t2 := s2 + t1;
  }

  /** Half of the unrolled loop body. */
  method AddFour(s1: Word, s2: Word, buffer: seq<Byte>, at: nat, ghost start: Sums, ghost i: nat)
      returns (t1: Word, t2: Word)
    requires at + 4 <= |buffer| && i + 4 <= BLOCK && InBlock(start, buffer, at, i, s1, s2)
    ensures InBlock(start, buffer, at + 4, i + 4, t1, t2)
  {
    hide InBlock;
    t1, t2 := AddByte(s1, s2, buffer, at, start, i);
    t1, t2 := AddByte(t1, t2, buffer, at + 1, start, i + 1);
    t1, t2 := AddByte(t1, t2, buffer, at + 2, start, i + 2);
    t1, t2 := AddByte(t1, t2, buffer, at + 3, start, i + 3);
  }

  /** One block of the loop: eight bytes at a time, then the rest. */
  method SumBlock(s1: Word, s2: Word, buffer: seq<Byte>, from: nat, blocklen: nat, ghost start: Sums)
      returns (t1: Word, t2: Word)
    requires from + blocklen <= |buffer| && blocklen <= BLOCK
    requires InBlock(start, buffer, from, 0, s1, s2)
    ensures InBlock(start, buffer, from + blocklen, blocklen, t1, t2)
  {
    hide InBlock;
    t1, t2 := s1, s2;
    var i := 0;
    while i + 7 < blocklen
      invariant i <= blocklen && InBlock(start, buffer, from + i, i, t1, t2)
    {
      t1, t2 := AddFour(t1, t2, buffer, from + i, start, i);
      t1, t2 := AddFour(t1, t2, buffer, from + i + 4, start, i + 4);
      i := i + 8;
    }
    while i < blocklen
      invariant i <= blocklen && InBlock(start, buffer, from + i, i, t1, t2)
    {
      t1, t2 := AddByte(t1, t2, buffer, from + i, start, i);
      i := i + 1;
    }
  }

  lemma Reduced(s: Sums, r: Sums)
    requires Stands(s, r)
    ensures Stands(Sums(s.s1 % MOD, s.s2 % MOD), r)
    ensures r.s1 < MOD && r.s2 < MOD ==> Sums(s.s1 % MOD, s.s2 % MOD) == r
  {}

  /** stb_adler32, for every start value.  The first block holds buflen % 5552 bytes, possibly none, and
      every later one 5552; each block ends with one reduction. */
  method StbAdler32(adler: Word, buffer: seq<Byte>) returns (r: Word)
    ensures r == Adler(adler, buffer)
  {
    hide Fold;
    ghost var start := Split(adler);
    var s1: Word, s2: Word := adler % 0x10000, adler / 0x10000;
    var at := 0;
    var buflen: nat := |buffer|;
    var blocklen: nat := buflen % BLOCK;
    ghost var blocks, first := buflen / BLOCK, true;
    while buflen > 0
      invariant at + buflen == |buffer| && s1 < 0x10000 && s2 < 0x10000
      invariant blocklen <= BLOCK && buflen == (if first then blocklen else 0) + blocks * BLOCK
      invariant !first ==> blocklen == BLOCK
      invariant if first then at == 0 && Sums(s1, s2) == start
                else buffer != [] && Stands(Sums(s1, s2), Fold(start, buffer[..at])) && s1 < MOD && s2 < MOD
      decreases buflen, first
    {
      s1, s2 := SumBlock(s1, s2, buffer, at, blocklen, start);
      Reduced(Sums(s1, s2), Fold(start, buffer[..at + blocklen]));
      s1, s2 := s1 % MOD, s2 % MOD;
      at := at + blocklen;
      buflen := buflen - blocklen;
      blocklen := BLOCK;
      blocks, first := if first then blocks else blocks - 1, false;
    }
    assert Sums(s1, s2) == Fold(start, buffer) by {
      if buffer != [] {
        assert buffer[..at] == buffer;
        Reduced(Sums(s1, s2), Fold(start, buffer));
      }
    }
    r := s2 * 0x10000 + s1;
    assert r == Pack(Sums(s1, s2));
  }
}
