/** stb_decompress and its helpers: they write through a global output position, check every store against
    the end of the output, and are proved to compute `LzFormat.Decode`. */
module DecompressorClass {
  import opened Basics
  import opened Adler32
  import opened LzFormat

  class Decompressor {
    var output: array<Byte>
    var barrier: nat  // stb__barrier - output, the declared length
    var dout: nat     // stb__dout - output

    constructor (output: array<Byte>)
      ensures this.output == output && dout == 0 && barrier == 0
    {
      this.output := output;
      barrier, dout := 0, 0;
    }

    /** The bytes produced so far. */
    ghost function Produced(): seq<Byte>
      reads this, output
      requires dout <= output.Length
    {
      output[..dout]
    }

    /** The operation has been carried out after `was`, or left `dout` past the barrier where it does not
        stay inside the declared length or reads before the output. */
    ghost predicate Performed(was: seq<Byte>, op: Op)
      reads this, output
    {
      if Acceptable(was, barrier, op)
      then dout == |was| + op.Length() && dout <= output.Length && Produced() == Apply(was, op)
      else dout > barrier
    }

    /** stb__match: copies forward, each byte before the next, from `data` (a position relative to the
        output).  A copy that would overrun the output or start before it leaves `dout` past the barrier. */
    method Match(data: int, length: nat)
      requires dout <= barrier <= output.Length && data < dout
      modifies `dout, output
      ensures output[barrier..] == old(output[barrier..])
      ensures Performed(old(Produced()), Copy(old(dout) - data, length))
    {
      hide CopyBytes;
      if dout + length > barrier {
        dout := dout + length;
        return;
      }
      if data < 0 {
        dout := barrier + 1;
        return;
      }
      ghost var distance, was := dout - data, Produced();
      var from, left: nat := data, length;
      CopyNothing(was, distance);
      while left > 0
        invariant left <= length && dout == |was| + (length - left) <= barrier && from == dout - distance
        invariant output[barrier..] == old(output[barrier..])
        invariant Produced() == CopyBytes(was, distance, length - left)
      {
        left := left - 1;
        CopyOneMore(was, distance, length - left - 1);
        output[dout] := output[from];
        dout := dout + 1;
        from := from + 1;
      }
    }

    /** stb__lit: copies literals from the input at `data`. */
    method Lit(m: Memory, data: nat, length: nat)
      requires dout <= barrier <= output.Length
      modifies `dout, output
      ensures output[barrier..] == old(output[barrier..])
      ensures Performed(old(Produced()), Literals(Bytes(m, data, length)))
    {
      if dout + length > barrier {
        dout := dout + length;
        return;
      }
      forall k | 0 <= k < length {
        output[dout + k] := m(data + k);
      }
      dout := dout + length;
    }

    /** stb_decompress_token: performs the token at i and returns the position behind it, or i itself where
        no token starts. */
    method Token(m: Memory, i: nat) returns (next: nat)
      requires dout <= barrier <= output.Length
      modifies `dout, output
      ensures output[barrier..] == old(output[barrier..])
      ensures match ParseToken(m, i)
              case None => next == i && dout == old(dout) && Produced() == old(Produced())
              case Some(p) =>
                next == i + p.size && next > i && Performed(old(Produced()), p.op)
    {
      hide CopyBytes, Performed, Apply, Bytes, Acceptable;
      next := i;
      if m(i) >= 0x20 {
        if m(i) >= 0x80 {
          Match(dout - m(i + 1) - 1, m(i) - 0x80 + 1);
          next := i + 2;
        } else if m(i) >= 0x40 {
          Match(dout - (In2(m, i) - 0x4000 + 1), m(i + 2) + 1);
          next := i + 3;
        } else {
          Lit(m, i + 1, m(i) - 0x20 + 1);
          next := i + 1 + (m(i) - 0x20 + 1);
        }
      } else {
        if m(i) >= 0x18 {
          Match(dout - (In3(m, i) - 0x180000 + 1), m(i + 3) + 1);
          next := i + 4;
        } else if m(i) >= 0x10 {
          Match(dout - (In3(m, i) - 0x100000 + 1), In2(m, i + 3) + 1);
          next := i + 5;
        } else if m(i) >= 0x08 {
          Lit(m, i + 2, In2(m, i) - 0x0800 + 1);
          next := i + 2 + (In2(m, i) - 0x0800 + 1);
        } else if m(i) == 0x07 {
          Lit(m, i + 3, In2(m, i + 1) + 1);
          next := i + 3 + (In2(m, i + 1) + 1);
        } else if m(i) == 0x06 {
          Match(dout - (In3(m, i + 1) + 1), m(i + 4) + 1);
          next := i + 5;
        } else if m(i) == 0x04 {
          Match(dout - (In3(m, i + 1) + 1), In2(m, i + 4) + 1);
          next := i + 6;
        }
      }
    }

    /** What stb_decompress does where no token starts: accept at the end mark, if the declared length has
        been produced and its checksum is the trailer's. */
    method Finish(m: Memory, i: nat) returns (n: Word)
      requires dout <= barrier <= output.Length && barrier < 0x1_0000_0000 && ParseToken(m, i).None?
      ensures match DecodeFrom(m, i, Produced(), barrier)
              case None => n == 0
              case Some(data) => n == |data| == barrier && output[..n] == data
    {
      hide ParseToken, Adler, DecodeFrom;
      DecodeEnd(m, i, Produced(), barrier);
      if m(i) == 0x05 && m(i + 1) == 0xfa {
        if dout != barrier {
          return 0;
        }
        var sum := StbAdler32(1, output[..barrier]);
        if sum != In4(m, i + 2) {
          return 0;
        }
        return barrier;
      } else {
        return 0;
      }
    }

    /** stb_decompress.  The caller has allocated as many bytes as the header declares; nothing behind them
        is written, and a result of 0 means failure (or an empty output). */
    method Decompress(m: Memory) returns (n: Word)
      requires output.Length >= In4(m, 8)
      modifies `barrier, `dout, output
      ensures output[In4(m, 8)..] == old(output[In4(m, 8)..])
      ensures match Decode(m)
              case None => n == 0
              case Some(data) => n == |data| == In4(m, 8) && output[..n] == data
    {
      hide ParseToken, CopyBytes, Adler, DecodeFrom, Apply, In2, In3;
      if In4(m, 0) != MAGIC {
        return 0;
      }
      if In4(m, 4) != 0 {
        return 0;
      }
      barrier := In4(m, 8);
      dout := 0;
      assert Produced() == [];
      n := Loop(m, 16);
    }

    method Loop(m: Memory, start: nat) returns (n: Word)
      requires dout <= barrier <= output.Length && barrier < 0x1_0000_0000
      modifies `dout, output
      ensures output[barrier..] == old(output[barrier..])
      ensures match DecodeFrom(m, start, old(Produced()), barrier)
              case None => n == 0
              case Some(data) => n == |data| == barrier && output[..n] == data
    {
      hide ParseToken, CopyBytes, Adler, DecodeFrom, Apply;
      var i := start;
      while true
        invariant dout <= barrier && output[barrier..] == old(output[barrier..])
        invariant DecodeFrom(m, i, Produced(), barrier) == DecodeFrom(m, start, old(Produced()), barrier)
        decreases barrier - dout
      {
        var oldI := i;
        ghost var was := Produced();
        i := Token(m, i);
        if i == oldI {
          n := Finish(m, i);
          return;
        }
        ghost var p := ParseToken(m, oldI).value;
        if dout > barrier {
          DecodeReject(m, oldI, was, barrier, p);
          return 0;
        }
        DecodeAccept(m, oldI, was, barrier, p, Produced());
      }
    }
  }

  lemma CopyNothing(out: seq<Byte>, distance: nat)
    requires 1 <= distance <= |out|
    ensures CopyBytes(out, distance, 0) == out
  {}

  /** A copy can be extended at its end. */
  lemma {:induction false} CopyOneMore(out: seq<Byte>, distance: nat, length: nat)
    requires 1 <= distance <= |out|
    ensures var r := CopyBytes(out, distance, length);
            CopyBytes(out, distance, length + 1) == r + [r[|r| - distance]]
    decreases length
  {
    if length > 0 {
      CopyOneMore(out + [out[|out| - distance]], distance, length - 1);
    }
  }
}
