/** The way of the embedded font from its string literal to the TTF bytes: base 85, then decompression. */
module FontLoader {
  import opened Basics
  import opened Adler32
  import opened LzFormat
  import opened LzStream
  import opened Base85
  import opened DecompressorClass

  /** A buffer, and the unknown memory behind it. */
  function Placed(buffer: seq<Byte>, beyond: Memory): Memory {
    (k: nat) => if k < |buffer| then buffer[k] else beyond(k)
  }

  /** AddFontFromMemoryCompressedBase85TTF up to the hand-over of the TTF data.  The decompressor's verdict
      is not looked at: after a failure the buffer is handed over half-filled. */
  method LoadCompressedBase85(text: seq<Byte>, beyond: Memory) returns (ttf: array<Byte>)
    requires 0 !in text && |text| % 5 == 0
    ensures var m := Placed(DecodeAll(text), beyond);
            && ttf.Length == In4(m, 8)
            && (Decode(m).Some? ==> ttf[..] == Decode(m).value)
  {
    hide Decode, DecodeAll;
    var size := (|text| + 4) / 5 * 4;
    var compressed := new Byte[size];
    Decode85(text, compressed);
    assert compressed[..size] == compressed[..];
    var m := Placed(compressed[..], beyond);
    ttf := new Byte[In4(m, 8)];
    var decompressor := new Decompressor(ttf);
    var n := decompressor.Decompress(m);
    assert ttf[..ttf.Length] == ttf[..];
  }

  // ----- Packing a font

  /** The stream of a token list; the decoder skips the four bytes `unused`. */
  ghost function StreamOf(tokens: seq<Token>, unused: seq<Byte>): seq<Byte>
    requires Valid(tokens, []) && |Meaning(tokens, [])| < 0x1_0000_0000 && |unused| == 4
  {
    (Be4(MAGIC) + Be4(0) + Be4(|Meaning(tokens, [])|)) + unused + (Printed(tokens, []) + Tail(Meaning(tokens, [])))
  }

  lemma PlacedHolds(stream: seq<Byte>, pad: seq<Byte>, beyond: Memory)
    ensures Holds(Placed(stream + pad, beyond), 0, stream)
  {
    var m := Placed(stream + pad, beyond);
    forall k | 0 <= k < |stream|
      ensures m(0 + k) == stream[k]
    {
      assert (stream + pad)[k] == stream[k];
    }
  }

  /** Packing any token list with any padding to a multiple of four bytes, and loading the text again,
      yields the list's meaning, whatever lies behind the buffer. */
  lemma LoadsWhatWasPacked(tokens: seq<Token>, unused: seq<Byte>, pad: seq<Byte>, beyond: Memory)
    requires Valid(tokens, []) && |Meaning(tokens, [])| < 0x1_0000_0000 && |unused| == 4
    requires |StreamOf(tokens, unused) + pad| % 4 == 0
    ensures var text := EncodeAll(StreamOf(tokens, unused) + pad);
            && 0 !in text && |text| % 5 == 0
            && Decode(Placed(DecodeAll(text), beyond)) == Some(Meaning(tokens, []))
  {
    hide EncodeAll, DecodeAll, Decode, Holds, Printed, Tail, Be4;
    var stream := StreamOf(tokens, unused);
    DecodeEncode(stream + pad);
    var m := Placed(stream + pad, beyond);
    PlacedHolds(stream, pad, beyond);
    var header := Be4(MAGIC) + Be4(0) + Be4(|Meaning(tokens, [])|);
    HoldsConcat(m, 0, header + unused, Printed(tokens, []) + Tail(Meaning(tokens, [])));
    HoldsConcat(m, 0, header, unused);
    StreamDecodes(m, tokens);
    NoZero(EncodeAll(stream + pad));
  }

  lemma NoZero(text: seq<Byte>)
    requires forall c <- text :: InAlphabet(c)
    ensures 0 !in text
  {
    forall k | 0 <= k < |text|
      ensures text[k] != 0
    {
      assert InAlphabet(text[k]);
    }
  }
}
