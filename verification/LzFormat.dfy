/** The byte format of the embedded font: a header, a stream of literal and match tokens, an end mark and
    a checksum.  The decoder is given here as a recursive function; `Decompressor.dfy` holds the code that
    is proved to compute it, `LzStream.dfy` what it accepts. */
module LzFormat {
  import opened Basics
  import opened Adler32

  /** What the input pointer points at.  The decoder does not know where its input ends, so this goes on
      beyond the stream with whatever the memory holds. */
  type Memory = nat -> Byte

  function In2(m: Memory, i: nat): nat {
    m(i) * 0x100 + m(i + 1)
  }

  function In3(m: Memory, i: nat): nat {
    m(i) * 0x10000 + In2(m, i + 1)
  }

  function In4(m: Memory, i: nat): Word {
    m(i) * 0x1000000 + In3(m, i + 1)
  }

  function Bytes(m: Memory, from: nat, count: nat): (s: seq<Byte>)
    ensures |s| == count
  {
    seq(count, k requires 0 <= k < count => m(from + k))
  }

  // ----- Tokens

  datatype Op = Literals(bytes: seq<Byte>) | Copy(distance: nat, length: nat) {
    function Length(): nat {
      if Literals? then |bytes| else length
    }
  }

  datatype Parsed = Parsed(op: Op, size: nat)

  /** stb_decompress_token: the token at i, or None where no token starts. */
  function ParseToken(m: Memory, i: nat): Option<Parsed> {
    var b := m(i);
    if b >= 0x80 then Some(Parsed(Copy(m(i + 1) + 1, b - 0x80 + 1), 2))
    else if b >= 0x40 then Some(Parsed(Copy(In2(m, i) - 0x4000 + 1, m(i + 2) + 1), 3))
    else if b >= 0x20 then ParseLiterals(m, i, 1, b - 0x20 + 1)
    else if b >= 0x18 then Some(Parsed(Copy(In3(m, i) - 0x180000 + 1, m(i + 3) + 1), 4))
    else if b >= 0x10 then Some(Parsed(Copy(In3(m, i) - 0x100000 + 1, In2(m, i + 3) + 1), 5))
    else if b >= 0x08 then ParseLiterals(m, i, 2, In2(m, i) - 0x0800 + 1)
    else if b == 0x07 then ParseLiterals(m, i, 3, In2(m, i + 1) + 1)
    else if b == 0x06 then Some(Parsed(Copy(In3(m, i + 1) + 1, m(i + 4) + 1), 5))
    else if b == 0x04 then Some(Parsed(Copy(In3(m, i + 1) + 1, In2(m, i + 4) + 1), 6))
    else None
  }

  function ParseLiterals(m: Memory, i: nat, header: nat, count: nat): Option<Parsed> {
    Some(Parsed(Literals(Bytes(m, i + header, count)), header + count))
  }

  // ----- Their meaning

  /** Copying one byte after the other from `distance` back, so that a copy may read what it wrote. */
  function CopyBytes(out: seq<Byte>, distance: nat, length: nat): (r: seq<Byte>)
    requires 1 <= distance <= |out|
    ensures |r| == |out| + length
    decreases length
  {
    if length == 0 then out else CopyBytes(out + [out[|out| - distance]], distance, length - 1)
  }

  /** The result repeats itself with period `distance` behind the old output. */
  lemma {:induction false} CopyRepeats(out: seq<Byte>, distance: nat, length: nat)
    requires 1 <= distance <= |out|
    ensures var r := CopyBytes(out, distance, length);
            r[..|out|] == out && forall k :: |out| <= k < |r| ==> r[k] == r[k - distance]
    decreases length
  {
    if length > 0 {
      var next := out + [out[|out| - distance]];
      CopyRepeats(next, distance, length - 1);
      var r := CopyBytes(out, distance, length);
      assert r[..|out| + 1] == next;
      assert r[..|out|] == r[..|out| + 1][..|out|];
      assert r[|out|] == next[|out|] && r[|out| - distance] == next[|out| - distance];
    }
  }

  predicate Reaches(out: seq<Byte>, op: Op) {
    op.Copy? ==> 1 <= op.distance <= |out|
  }

  function Apply(out: seq<Byte>, op: Op): (r: seq<Byte>)
    requires Reaches(out, op)
    ensures |r| == |out| + op.Length()
  {
    match op
    case Literals(bytes) => out + bytes
    case Copy(distance, length) => CopyBytes(out, distance, length)
  }

  lemma ParsedAdvances(m: Memory, i: nat)
    ensures ParseToken(m, i).Some? ==>
              var p := ParseToken(m, i).value;
              && p.op.Length() >= 1 && p.size <= 6 * p.op.Length()
              && (p.op.Copy? ==> p.op.distance >= 1 && p.size <= 6)
              && (p.op.Literals? ==> p.size <= 3 + p.op.Length())
  {}

  // ----- The decoder

  const MAGIC: Word := 0x57bC0000

  predicate EndMark(m: Memory, i: nat) {
    m(i) == 0x05 && m(i + 1) == 0xfa
  }

  /** The operation stays inside the declared length and reads produced bytes only. */
  predicate Acceptable(out: seq<Byte>, olen: nat, op: Op) {
    |out| + op.Length() <= olen && Reaches(out, op)
  }

  /** Decodes from i on, after `out` has been produced, up to `olen` bytes in all. */
  function DecodeFrom(m: Memory, i: nat, out: seq<Byte>, olen: nat): Option<seq<Byte>>
    requires |out| <= olen
    decreases olen - |out|
  {
    match ParseToken(m, i)
    case None =>
      if EndMark(m, i) && |out| == olen && Adler(1, out) == In4(m, i + 2) then Some(out) else None
    case Some(p) =>
      ParsedAdvances(m, i);
      if Acceptable(out, olen, p.op) then DecodeFrom(m, i + p.size, Apply(out, p.op), olen) else None
  }

  lemma DecodeEnd(m: Memory, i: nat, out: seq<Byte>, olen: nat)
    requires |out| <= olen && ParseToken(m, i).None?
    ensures DecodeFrom(m, i, out, olen)
            == if EndMark(m, i) && |out| == olen && Adler(1, out) == In4(m, i + 2) then Some(out) else None
  {}

  lemma DecodeAccept(m: Memory, i: nat, out: seq<Byte>, olen: nat, p: Parsed, next: seq<Byte>)
    requires ParseToken(m, i) == Some(p) && Acceptable(out, olen, p.op) && next == Apply(out, p.op)
    ensures |out| < |next| <= olen && DecodeFrom(m, i, out, olen) == DecodeFrom(m, i + p.size, next, olen)
  {
    ParsedAdvances(m, i);
  }

  lemma DecodeReject(m: Memory, i: nat, out: seq<Byte>, olen: nat, p: Parsed)
    requires |out| <= olen && ParseToken(m, i) == Some(p) && !Acceptable(out, olen, p.op)
    ensures DecodeFrom(m, i, out, olen) == None
  {}

  function Decode(m: Memory): Option<seq<Byte>> {
    if In4(m, 0) != MAGIC || In4(m, 4) != 0 then None else DecodeFrom(m, 16, [], In4(m, 8))
  }

  // ----- How much input the decoder looks at

  ghost predicate Agree(m: Memory, n: Memory, upto: nat) {
    forall k: nat :: k < upto ==> m(k) == n(k)
  }

  lemma AgreeToken(m: Memory, n: Memory, i: nat, upto: nat)
    requires Agree(m, n, upto) && i + 6 <= upto
    ensures ParseToken(m, i).None? <==> ParseToken(n, i).None?
    ensures ParseToken(m, i).Some? ==>
              var p, q := ParseToken(m, i).value, ParseToken(n, i).value;
              && p.size == q.size && p.op.Length() == q.op.Length() && (p.op.Copy? <==> q.op.Copy?)
              && (p.op.Copy? ==> p.op == q.op)
              && (i + p.size <= upto ==> p.op == q.op)
  {
    if ParseToken(m, i).Some? && ParseToken(m, i).value.op.Literals? {
      var p, q := ParseToken(m, i).value, ParseToken(n, i).value;
      if i + p.size <= upto {
        assert p.op.bytes == q.op.bytes;
      }
    }
  }

  lemma AgreeEnd(m: Memory, n: Memory, i: nat, upto: nat)
    requires Agree(m, n, upto) && i + 6 <= upto
    ensures EndMark(m, i) <==> EndMark(n, i)
    ensures In4(m, i + 2) == In4(n, i + 2)
  {}

  lemma {:induction false} DecodeFromReads(m: Memory, n: Memory, i: nat, out: seq<Byte>, olen: nat)
    requires |out| <= olen && i <= 16 + 6 * |out| && Agree(m, n, 22 + 6 * olen)
    ensures DecodeFrom(m, i, out, olen) == DecodeFrom(n, i, out, olen)
    decreases olen - |out|
  {
    hide ParseToken;
    AgreeToken(m, n, i, 22 + 6 * olen);
    AgreeEnd(m, n, i, 22 + 6 * olen);
    var t, u := ParseToken(m, i), ParseToken(n, i);
    if t.None? {
      DecodeEnd(m, i, out, olen);
      DecodeEnd(n, i, out, olen);
      assert DecodeFrom(m, i, out, olen) == DecodeFrom(n, i, out, olen);
    } else {
      var p := t.value;
      ParsedAdvances(m, i);
      if Acceptable(out, olen, p.op) {
        assert p == u.value;
        var next := Apply(out, p.op);
        DecodeAccept(m, i, out, olen, p, next);
        DecodeAccept(n, i, out, olen, p, next);
        DecodeFromReads(m, n, i + p.size, next, olen);
      } else {
        DecodeReject(m, i, out, olen, p);
        DecodeReject(n, i, out, olen, u.value);
      }
    }
  }

  /** Whatever it returns, the decoder looks at no input beyond 22 + 6 * olen bytes, where olen is the
      length that the header declares. */
  lemma DecodeReads(m: Memory, n: Memory)
    requires Agree(m, n, 22 + 6 * In4(m, 8))
    ensures Decode(m) == Decode(n)
  {
    assert In4(m, 8) == In4(n, 8) && In4(m, 0) == In4(n, 0) && In4(m, 4) == In4(n, 4);
    DecodeFromReads(m, n, 16, [], In4(m, 8));
  }
}
