/** Which inputs the decoder accepts: exactly the streams that some list of tokens prints, and it returns
    what those tokens mean. */
module LzStream {
  import opened Basics
  import opened Adler32
  import opened LzFormat

  // ----- Printing

  /** The nine rows of the token table, named after their first byte. */
  datatype Form = M80 | M40 | L20 | M18 | M10 | L08 | L07 | M06 | M04

  type Token = (Form, Op)

  /** What the form has room for. */
  predicate Fits(form: Form, op: Op) {
    match form
    case M80 => op.Copy? && 1 <= op.distance <= 0x100 && 1 <= op.length <= 0x80
    case M40 => op.Copy? && 1 <= op.distance <= 0x4000 && 1 <= op.length <= 0x100
    case M18 => op.Copy? && 1 <= op.distance <= 0x80000 && 1 <= op.length <= 0x100
    case M10 => op.Copy? && 1 <= op.distance <= 0x80000 && 1 <= op.length <= 0x10000
    case M06 => op.Copy? && 1 <= op.distance <= 0x1000000 && 1 <= op.length <= 0x100
    case M04 => op.Copy? && 1 <= op.distance <= 0x1000000 && 1 <= op.length <= 0x10000
    case L20 => op.Literals? && 1 <= |op.bytes| <= 0x20
    case L08 => op.Literals? && 1 <= |op.bytes| <= 0x800
    case L07 => op.Literals? && 1 <= |op.bytes| <= 0x10000
  }

  function Be2(n: nat): (s: seq<Byte>)
    requires n < 0x10000
    ensures |s| == 2
  {
    [n / 0x100, n % 0x100]
  }

  function Be3(n: nat): (s: seq<Byte>)
    requires n < 0x1000000
    ensures |s| == 3
  {
    [n / 0x10000] + Be2(n % 0x10000)
  }

  function Be4(n: Word): (s: seq<Byte>)
    ensures |s| == 4
  {
    Be2(n / 0x10000) + Be2(n % 0x10000)
  }

  function Print(form: Form, op: Op): seq<Byte>
    requires Fits(form, op)
  {
    match form
    case M80 => [0x80 + op.length - 1, op.distance - 1]
    case M40 => Be2(0x4000 + op.distance - 1) + [op.length - 1]
    case M18 => Be3(0x180000 + op.distance - 1) + [op.length - 1]
    case M10 => Be3(0x100000 + op.distance - 1) + Be2(op.length - 1)
    case M06 => [0x06] + Be3(op.distance - 1) + [op.length - 1]
    case M04 => [0x04] + Be3(op.distance - 1) + Be2(op.length - 1)
    case L20 => [0x20 + |op.bytes| - 1] + op.bytes
    case L08 => Be2(0x0800 + |op.bytes| - 1) + op.bytes
    case L07 => [0x07] + Be2(|op.bytes| - 1) + op.bytes
  }

  /** The memory holds these bytes at i. */
  ghost predicate Holds(m: Memory, i: nat, s: seq<Byte>) {
    forall k :: 0 <= k < |s| ==> m(i + k) == s[k]
  }

  lemma HoldsConcat(m: Memory, i: nat, s: seq<Byte>, t: seq<Byte>)
    ensures Holds(m, i, s + t) <==> Holds(m, i, s) && Holds(m, i + |s|, t)
  {
    if Holds(m, i, s + t) {
      forall k | 0 <= k < |s| ensures m(i + k) == s[k] { assert (s + t)[k] == s[k]; }
      forall k | 0 <= k < |t| ensures m(i + |s| + k) == t[k] { assert (s + t)[|s| + k] == t[k]; }
    }
  }

  lemma HoldsOne(m: Memory, i: nat, b: Byte)
    ensures Holds(m, i, [b]) <==> m(i) == b
  {
    assert m(i) == m(i + 0) && [b][0] == b;
  }

  lemma HoldsTwo(m: Memory, i: nat, a: Byte, b: Byte)
    ensures Holds(m, i, [a, b]) <==> m(i) == a && m(i + 1) == b
  {
    HoldsOne(m, i, a);
    HoldsOne(m, i + 1, b);
    HoldsConcat(m, i, [a], [b]);
    assert [a] + [b] == [a, b];
  }

  lemma HoldsBe2(m: Memory, i: nat, n: nat)
    requires n < 0x10000
    ensures Holds(m, i, Be2(n)) <==> In2(m, i) == n
  {
    HoldsTwo(m, i, n / 0x100, n % 0x100);
  }

  lemma HoldsBe3(m: Memory, i: nat, n: nat)
    requires n < 0x1000000
    ensures Holds(m, i, Be3(n)) <==> In3(m, i) == n
  {
    HoldsOne(m, i, n / 0x10000);
    HoldsBe2(m, i + 1, n % 0x10000);
    HoldsConcat(m, i, [n / 0x10000], Be2(n % 0x10000));
  }

  lemma HoldsBe4(m: Memory, i: nat, n: Word)
    ensures Holds(m, i, Be4(n)) <==> In4(m, i) == n
  {
    HoldsBe2(m, i, n / 0x10000);
    HoldsBe2(m, i + 2, n % 0x10000);
    HoldsConcat(m, i, Be2(n / 0x10000), Be2(n % 0x10000));
  }

  /** What reading the fields of the form yields when a token is there. */
  predicate Reads(m: Memory, i: nat, form: Form, op: Op)
    requires Fits(form, op)
  {
    match form
    case M80 => m(i) == 0x80 + op.length - 1 && m(i + 1) == op.distance - 1
    case M40 => In2(m, i) == 0x4000 + op.distance - 1 && m(i + 2) == op.length - 1
    case M18 => In3(m, i) == 0x180000 + op.distance - 1 && m(i + 3) == op.length - 1
    case M10 => In3(m, i) == 0x100000 + op.distance - 1 && In2(m, i + 3) == op.length - 1
    case M06 => m(i) == 0x06 && In3(m, i + 1) == op.distance - 1 && m(i + 4) == op.length - 1
    case M04 => m(i) == 0x04 && In3(m, i + 1) == op.distance - 1 && In2(m, i + 4) == op.length - 1
    case L20 => m(i) == 0x20 + |op.bytes| - 1 && Bytes(m, i + 1, |op.bytes|) == op.bytes
    case L08 => In2(m, i) == 0x0800 + |op.bytes| - 1 && Bytes(m, i + 2, |op.bytes|) == op.bytes
    case L07 => m(i) == 0x07 && In2(m, i + 1) == |op.bytes| - 1 && Bytes(m, i + 3, |op.bytes|) == op.bytes
  }

  lemma HoldsBytes(m: Memory, i: nat, s: seq<Byte>)
    ensures Holds(m, i, s) <==> Bytes(m, i, |s|) == s
  {
    if Bytes(m, i, |s|) == s {
      forall k | 0 <= k < |s| ensures m(i + k) == s[k] { assert Bytes(m, i, |s|)[k] == s[k]; }
    }
  }

  lemma HoldsPrinted(m: Memory, i: nat, form: Form, op: Op)
    requires Fits(form, op)
    ensures Holds(m, i, Print(form, op)) <==> Reads(m, i, form, op)
  {
    if op.Copy? {
      HoldsPrintedCopy(m, i, form, op);
    } else {
      var n := |op.bytes| - 1;
      match form
      case L20 =>
        HoldsConcat(m, i, [0x20 + n], op.bytes);
        HoldsOne(m, i, 0x20 + n);
        HoldsBytes(m, i + 1, op.bytes);
      case L08 =>
        HoldsConcat(m, i, Be2(0x0800 + n), op.bytes);
        HoldsBe2(m, i, 0x0800 + n);
        HoldsBytes(m, i + 2, op.bytes);
      case L07 =>
        HoldsConcat(m, i, [0x07] + Be2(n), op.bytes);
        HoldsConcat(m, i, [0x07], Be2(n));
        HoldsOne(m, i, 0x07);
        HoldsBe2(m, i + 1, n);
        HoldsBytes(m, i + 3, op.bytes);
    }
  }

  lemma HoldsPrintedCopy(m: Memory, i: nat, form: Form, op: Op)
    requires Fits(form, op) && op.Copy?
    ensures Holds(m, i, Print(form, op)) <==> Reads(m, i, form, op)
  {
    hide Be2, Be3, In2, In3, Holds;
    var d, n := op.distance - 1, op.length - 1;
    if form == M80 {
      HoldsTwo(m, i, 0x80 + n, d);
    } else if form == M40 {
      HoldsConcat(m, i, Be2(0x4000 + d), [n]);
      HoldsBe2(m, i, 0x4000 + d);
      HoldsOne(m, i + 2, n);
    } else if form == M18 {
      HoldsConcat(m, i, Be3(0x180000 + d), [n]);
      HoldsBe3(m, i, 0x180000 + d);
      HoldsOne(m, i + 3, n);
    } else if form == M10 {
      HoldsConcat(m, i, Be3(0x100000 + d), Be2(n));
      HoldsBe3(m, i, 0x100000 + d);
      HoldsBe2(m, i + 3, n);
    } else {
      HoldsLongCopy(m, i, form, op);
    }
  }

  lemma HoldsLongCopy(m: Memory, i: nat, form: Form, op: Op)
    requires Fits(form, op) && (form == M06 || form == M04)
    ensures Holds(m, i, Print(form, op)) <==> Reads(m, i, form, op)
  {
    hide Be2, Be3, In2, In3, Holds;
    var d, n := op.distance - 1, op.length - 1;
    var first: Byte := if form == M06 then 0x06 else 0x04;
    var length := if form == M06 then [n] else Be2(n);
    HoldsConcat(m, i, [first] + Be3(d), length);
    HoldsConcat(m, i, [first], Be3(d));
    HoldsOne(m, i, first);
    HoldsBe3(m, i + 1, d);
    if form == M06 {
      HoldsOne(m, i + 4, n);
    } else {
      HoldsBe2(m, i + 4, n);
    }
  }

  /** Reading back a printed token gives the token and consumes exactly what was printed. */
  lemma ParsePrint(m: Memory, i: nat, form: Form, op: Op)
    requires Fits(form, op) && Holds(m, i, Print(form, op))
    ensures ParseToken(m, i) == Some(Parsed(op, |Print(form, op)|))
  {
    HoldsPrinted(m, i, form, op);
  }

  /** The form that the first byte announces. */
  function FormOf(b: Byte): Form {
    if b >= 0x80 then M80
    else if b >= 0x40 then M40
    else if b >= 0x20 then L20
    else if b >= 0x18 then M18
    else if b >= 0x10 then M10
    else if b >= 0x08 then L08
    else if b == 0x07 then L07
    else if b == 0x06 then M06
    else M04
  }

  /** Conversely, whatever is read as a token is a printed token. */
  lemma PrintParse(m: Memory, i: nat)
    requires ParseToken(m, i).Some?
    ensures var p := ParseToken(m, i).value; var form := FormOf(m(i));
            Fits(form, p.op) && |Print(form, p.op)| == p.size && Holds(m, i, Print(form, p.op))
  {
    ParsedForm(m, i);
    hide ParseToken, Fits, Reads;
    HoldsPrinted(m, i, FormOf(m(i)), ParseToken(m, i).value.op);
  }

  lemma ParsedForm(m: Memory, i: nat)
    requires ParseToken(m, i).Some?
    ensures var p := ParseToken(m, i).value; var form := FormOf(m(i));
            Fits(form, p.op) && |Print(form, p.op)| == p.size && Reads(m, i, form, p.op)
  {}

  // ----- Token lists

  ghost predicate Valid(tokens: seq<Token>, out: seq<Byte>) {
    tokens == [] ||
    (Fits(tokens[0].0, tokens[0].1) && Reaches(out, tokens[0].1) && Valid(tokens[1..], Apply(out, tokens[0].1)))
  }

  /** What a token list appends to `out`. */
  ghost function Meaning(tokens: seq<Token>, out: seq<Byte>): (r: seq<Byte>)
    requires Valid(tokens, out)
    ensures |out| <= |r|
  {
    if tokens == [] then out else Meaning(tokens[1..], Apply(out, tokens[0].1))
  }

  ghost function Printed(tokens: seq<Token>, out: seq<Byte>): seq<Byte>
    requires Valid(tokens, out)
  {
    if tokens == [] then [] else Print(tokens[0].0, tokens[0].1) + Printed(tokens[1..], Apply(out, tokens[0].1))
  }

  ghost function Tail(data: seq<Byte>): seq<Byte> {
    [0x05, 0xfa] + Be4(Adler(1, data))
  }

  lemma HoldsTail(m: Memory, i: nat, data: seq<Byte>)
    ensures Holds(m, i, Tail(data)) <==> EndMark(m, i) && In4(m, i + 2) == Adler(1, data)
  {
    HoldsConcat(m, i, [0x05, 0xfa], Be4(Adler(1, data)));
    HoldsBe4(m, i + 2, Adler(1, data));
    HoldsTwo(m, i, 0x05, 0xfa);
  }

  lemma EndMarkEnds(m: Memory, i: nat)
    requires EndMark(m, i)
    ensures ParseToken(m, i).None?
  {}

  /** Tokens printed one after the other are decoded to their meaning. */
  lemma {:induction false} DecodePrinted(m: Memory, i: nat, tokens: seq<Token>, out: seq<Byte>)
    requires Valid(tokens, out)
    requires Holds(m, i, Printed(tokens, out) + Tail(Meaning(tokens, out)))
    ensures DecodeFrom(m, i, out, |Meaning(tokens, out)|) == Some(Meaning(tokens, out))
    decreases |tokens|
  {
    hide ParseToken, Print, CopyBytes, Fits, Tail;
    var data := Meaning(tokens, out);
    if tokens == [] {
      assert Printed(tokens, out) + Tail(data) == Tail(data);
      HoldsTail(m, i, data);
      EndMarkEnds(m, i);
      DecodeEnd(m, i, out, |data|);
    } else {
      var (form, op) := tokens[0];
      var next := Apply(out, op);
      var rest := Printed(tokens[1..], next) + Tail(data);
      assert Printed(tokens, out) + Tail(data) == Print(form, op) + rest;
      HoldsConcat(m, i, Print(form, op), rest);
      ParsePrint(m, i, form, op);
      DecodeAccept(m, i, out, |data|, Parsed(op, |Print(form, op)|), next);
      DecodePrinted(m, i + |Print(form, op)|, tokens[1..], next);
    }
  }

  lemma HoldsCons(m: Memory, i: nat, a: seq<Byte>, b: seq<Byte>, c: seq<Byte>)
    requires Holds(m, i, a) && Holds(m, i + |a|, b + c)
    ensures Holds(m, i, (a + b) + c)
  {
    hide Holds;
    HoldsConcat(m, i, a, b + c);
    assert a + (b + c) == (a + b) + c;
  }

  lemma PrintedCons(form: Form, op: Op, rest: seq<Token>, out: seq<Byte>, next: seq<Byte>)
    requires Fits(form, op) && Reaches(out, op) && next == Apply(out, op) && Valid(rest, next)
    ensures Valid([(form, op)] + rest, out)
    ensures Meaning([(form, op)] + rest, out) == Meaning(rest, next)
    ensures Printed([(form, op)] + rest, out) == Print(form, op) + Printed(rest, next)
  {
    hide Print, Apply;
    var tokens := [(form, op)] + rest;
    assert tokens[0] == (form, op) && tokens[1..] == rest;
  }

  /** Whatever is decoded was printed by some token list. */
  lemma {:induction false} DecodedIsPrinted(m: Memory, i: nat, out: seq<Byte>, olen: nat) returns (tokens: seq<Token>)
    requires |out| <= olen && DecodeFrom(m, i, out, olen).Some?
    ensures Valid(tokens, out) && Meaning(tokens, out) == DecodeFrom(m, i, out, olen).value
    ensures |Meaning(tokens, out)| == olen
    ensures Holds(m, i, Printed(tokens, out) + Tail(Meaning(tokens, out)))
    decreases olen - |out|
  {
    hide ParseToken, Print, CopyBytes, Fits, Tail;
    var t := ParseToken(m, i);
    if t.None? {
      DecodeEnd(m, i, out, olen);
      tokens := [];
      HoldsTail(m, i, out);
      assert Printed(tokens, out) + Tail(out) == Tail(out);
    } else {
      hide Holds, DecodeFrom, Meaning, Printed, Valid;
      var p := t.value;
      if !Acceptable(out, olen, p.op) {
        DecodeReject(m, i, out, olen, p);
      }
      PrintParse(m, i);
      var form, next := FormOf(m(i)), Apply(out, p.op);
      DecodeAccept(m, i, out, olen, p, next);
      var rest := DecodedIsPrinted(m, i + p.size, next, olen);
      tokens := [(form, p.op)] + rest;
      PrintedCons(form, p.op, rest, out, next);
      HoldsCons(m, i, Print(form, p.op), Printed(rest, next), Tail(Meaning(rest, next)));
    }
  }

  // ----- Whole streams

  /** Magic number, four zero bytes, the length, four bytes that are skipped, the tokens, the tail. */
  ghost predicate IsStream(m: Memory, tokens: seq<Token>) {
    && Valid(tokens, []) && |Meaning(tokens, [])| < 0x1_0000_0000
    && Holds(m, 0, Be4(MAGIC) + Be4(0) + Be4(|Meaning(tokens, [])|))
    && Holds(m, 16, Printed(tokens, []) + Tail(Meaning(tokens, [])))
  }

  lemma HoldsHeader(m: Memory, n: Word)
    ensures Holds(m, 0, Be4(MAGIC) + Be4(0) + Be4(n)) <==> In4(m, 0) == MAGIC && In4(m, 4) == 0 && In4(m, 8) == n
  {
    HoldsConcat(m, 0, Be4(MAGIC) + Be4(0), Be4(n));
    HoldsConcat(m, 0, Be4(MAGIC), Be4(0));
    HoldsBe4(m, 0, MAGIC);
    HoldsBe4(m, 4, 0);
    HoldsBe4(m, 8, n);
  }

  lemma {:induction false} StreamDecodes(m: Memory, tokens: seq<Token>)
    requires IsStream(m, tokens)
    ensures Decode(m) == Some(Meaning(tokens, []))
  {
    HoldsHeader(m, |Meaning(tokens, [])|);
    DecodePrinted(m, 16, tokens, []);
  }

  /** The decoder accepts exactly the streams, and returns what they mean. */
  lemma {:induction false} DecodeAcceptsExactlyStreams(m: Memory, data: seq<Byte>)
    ensures Decode(m) == Some(data) <==> exists tokens :: IsStream(m, tokens) && Meaning(tokens, []) == data
  {
    if Decode(m) == Some(data) {
      var tokens := DecodedIsPrinted(m, 16, [], In4(m, 8));
      HoldsHeader(m, |data|);
      assert IsStream(m, tokens) && Meaning(tokens, []) == data;
    }
    if tokens :| IsStream(m, tokens) && Meaning(tokens, []) == data {
      StreamDecodes(m, tokens);
    }
  }

  /** A stream is at most 22 bytes longer than six times its output, and has no more tokens than output. */
  lemma {:induction false} PrintedLength(tokens: seq<Token>, out: seq<Byte>)
    requires Valid(tokens, out)
    ensures |Printed(tokens, out)| <= 6 * (|Meaning(tokens, out)| - |out|)
    ensures |tokens| <= |Meaning(tokens, out)| - |out|
    decreases |tokens|
  {
    if tokens != [] {
      PrintedLength(tokens[1..], Apply(out, tokens[0].1));
    }
  }

  // ----- Which token lists mean something

  /** How many bytes the first k tokens produce. */
  function Produced(tokens: seq<Token>, k: nat): nat
    requires k <= |tokens|
  {
    if k == 0 then 0 else Produced(tokens, k - 1) + tokens[k - 1].1.Length()
  }

  lemma {:induction false} ProducedTail(tokens: seq<Token>, k: nat)
    requires 1 <= k <= |tokens|
    ensures Produced(tokens, k) == tokens[0].1.Length() + Produced(tokens[1..], k - 1)
    decreases k
  {
    if k > 1 {
      ProducedTail(tokens, k - 1);
    }
  }

  /** Token k copies from no farther back than what the tokens before it have produced. */
  ghost predicate StaysBehind(tokens: seq<Token>, before: nat, k: nat)
    requires k < |tokens|
  {
    tokens[k].1.Copy? ==> 1 <= tokens[k].1.distance <= before + Produced(tokens, k)
  }

  /** A token list means something if and only if each token fits its form and no copy reaches back beyond the first
      byte produced. */
  lemma {:induction false} ValidIff(tokens: seq<Token>, out: seq<Byte>)
    ensures Valid(tokens, out) <==>
            forall k :: 0 <= k < |tokens| ==> Fits(tokens[k].0, tokens[k].1) && StaysBehind(tokens, |out|, k)
    decreases |tokens|
  {
    hide Fits, Apply;
    if tokens != [] {
      var rest := tokens[1..];
      if Reaches(out, tokens[0].1) {
        ValidIff(rest, Apply(out, tokens[0].1));
        forall k | 0 <= k < |rest|
          ensures StaysBehind(rest, |Apply(out, tokens[0].1)|, k) <==> StaysBehind(tokens, |out|, k + 1)
        {
          ProducedTail(tokens, k + 1);
        }
        assert forall k :: 0 <= k < |rest| ==> rest[k] == tokens[k + 1];
        BehindFirst(tokens, out);
      } else {
        assert !StaysBehind(tokens, |out|, 0);
      }
    }
  }

  /** From the second token on. */
  lemma BehindFirst(tokens: seq<Token>, out: seq<Byte>)
    requires tokens != []
    ensures (forall k :: 0 <= k < |tokens| ==> Fits(tokens[k].0, tokens[k].1) && StaysBehind(tokens, |out|, k)) <==>
            (Fits(tokens[0].0, tokens[0].1) && StaysBehind(tokens, |out|, 0)
             && forall k :: 1 <= k < |tokens| ==> Fits(tokens[k].0, tokens[k].1) && StaysBehind(tokens, |out|, k))
  {
    hide Fits, StaysBehind;
  }

  // ----- The bytes of the forms

  /** The shortest and the nearest that each form can say, in bytes, and the longest and farthest. */
  lemma TokenBytes()
    ensures Print(M80, Copy(1, 1)) == [0x80, 0x00] && Print(M80, Copy(0x100, 0x80)) == [0xFF, 0xFF]
    ensures Print(M40, Copy(1, 1)) == [0x40, 0x00, 0x00] && Print(M40, Copy(0x4000, 0x100)) == [0x7F, 0xFF, 0xFF]
    ensures Print(M18, Copy(1, 1)) == [0x18, 0, 0, 0] && Print(M18, Copy(0x80000, 0x100)) == [0x1F, 0xFF, 0xFF, 0xFF]
    ensures Print(M10, Copy(1, 1)) == [0x10, 0, 0, 0, 0]
            && Print(M10, Copy(0x80000, 0x10000)) == [0x17, 0xFF, 0xFF, 0xFF, 0xFF]
    ensures Print(M06, Copy(1, 1)) == [0x06, 0, 0, 0, 0]
            && Print(M06, Copy(0x1000000, 0x100)) == [0x06, 0xFF, 0xFF, 0xFF, 0xFF]
    ensures Print(M04, Copy(1, 1)) == [0x04, 0, 0, 0, 0, 0]
            && Print(M04, Copy(0x1000000, 0x10000)) == [0x04, 0xFF, 0xFF, 0xFF, 0xFF, 0xFF]
  {}

  /** Literals follow the number of them less one. */
  lemma LiteralBytes(bytes: seq<Byte>)
    requires |bytes| >= 1
    ensures |bytes| <= 0x20 ==> Print(L20, Literals(bytes)) == [0x1F + |bytes|] + bytes
    ensures |bytes| <= 0x800 ==>
              Print(L08, Literals(bytes)) == [(0x7FF + |bytes|) / 0x100, (0x7FF + |bytes|) % 0x100] + bytes
    ensures |bytes| <= 0x10000 ==>
              Print(L07, Literals(bytes)) == [0x07, (|bytes| - 1) / 0x100, (|bytes| - 1) % 0x100] + bytes
  {
    assert forall a: seq<Byte>, b: seq<Byte> :: a + b + bytes == a + (b + bytes);
  }

  /** A stream begins with the bytes 57 BC 00 00 00 00 00 00 and the length, most significant byte first; behind the
      tokens come 05 FA and the checksum, most significant byte first. */
  lemma StreamBytes(m: Memory, tokens: seq<Token>)
    requires IsStream(m, tokens)
    ensures var data := Meaning(tokens, []);
            && m(0) == 0x57 && m(1) == 0xBC && (forall i :: 2 <= i < 8 ==> m(i) == 0)
            && m(8) * 0x1000000 + m(9) * 0x10000 + m(10) * 0x100 + m(11) == |data|
            && var end := 16 + |Printed(tokens, [])|;
               && m(end) == 0x05 && m(end + 1) == 0xFA
               && m(end + 2) * 0x1000000 + m(end + 3) * 0x10000 + m(end + 4) * 0x100 + m(end + 5) == Adler(1, data)
  {
    hide Print, Tail, Be4, Holds, In4, Printed, Meaning, Valid, Adler;
    var data := Meaning(tokens, []);
    HoldsHeader(m, |data|);
    HoldsConcat(m, 16, Printed(tokens, []), Tail(data));
    HoldsTail(m, 16 + |Printed(tokens, [])|, data);
    HeaderBytes(m);
    WordBytes(m, 8);
    WordBytes(m, 16 + |Printed(tokens, [])| + 2);
  }

  lemma WordBytes(m: Memory, i: nat)
    ensures In4(m, i) == m(i) * 0x1000000 + m(i + 1) * 0x10000 + m(i + 2) * 0x100 + m(i + 3)
  {}

  lemma HeaderBytes(m: Memory)
    requires In4(m, 0) == MAGIC && In4(m, 4) == 0
    ensures m(0) == 0x57 && m(1) == 0xBC && forall i :: 2 <= i < 8 ==> m(i) == 0
  {}
}
