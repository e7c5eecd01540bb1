/** Text that is spelt correctly and not wrapped, character by character: where everything is placed, how large it is
    measured, and what is drawn of it.  Nothing here follows the walk; that the walk comes to the same is proved. */
module PlainText {
  import opened Basics
  import opened Utf8
  import opened FontTable
  import opened WordWrap
  import opened TextLayout
  import opened Lockstep
  import opened TightBox

  ghost predicate AllScalars(cs: seq<nat>) {
    forall c <- cs :: Scalar(c)
  }

  /** The characters one after the other in UTF-8. */
  function Spell(cs: seq<nat>): Text
    requires AllScalars(cs)
  {
    if cs == [] then [] else Spell(cs[..|cs| - 1]) + Encode(cs[|cs| - 1])
  }

  /** Where character i begins. */
  function StartOf(cs: seq<nat>, i: nat): nat
    requires AllScalars(cs) && i <= |cs|
  {
    |Spell(cs[..i])|
  }

  // ----- Where a character is placed

  /** The number of newlines among the first i characters. */
  function LineOf(cs: seq<nat>, i: nat): nat
    requires i <= |cs|
  {
    multiset(cs[..i])[10]
  }

  /** The widths of the characters since the last newline before i; carriage returns have none. */
  function XOf(width: nat -> real, cs: seq<nat>, i: nat): real
    requires i <= |cs|
  {
    if i == 0 || cs[i - 1] == 10 then 0.0
    else XOf(width, cs, i - 1) + if cs[i - 1] == 13 then 0.0 else width(cs[i - 1])
  }

  predicate IsPlaced(cs: seq<nat>, i: nat)
    requires i < |cs|
  {
    cs[i] != 10 && cs[i] != 13
  }

  function MarkOf(width: nat -> real, cs: seq<nat>, i: nat): Mark
    requires AllScalars(cs) && i < |cs|
  {
    Mark(StartOf(cs, i), cs[i], XOf(width, cs, i), width(cs[i]), LineOf(cs, i))
  }

  /** The characters from i on, but newlines, carriage returns and those on lines that are not shown. */
  function MarksOf(width: nat -> real, shown: nat -> bool, cs: seq<nat>, i: nat): seq<Mark>
    requires AllScalars(cs) && i <= |cs|
    decreases |cs| - i
  {
    if i == |cs| then []
    else
      (if IsPlaced(cs, i) && shown(LineOf(cs, i)) then [MarkOf(width, cs, i)] else [])
      + MarksOf(width, shown, cs, i + 1)
  }

  // ----- Reading what is spelt

  lemma StartNext(cs: seq<nat>, i: nat)
    requires AllScalars(cs) && i < |cs|
    ensures Spell(cs[..i + 1]) == Spell(cs[..i]) + Encode(cs[i])
    ensures StartOf(cs, i + 1) == StartOf(cs, i) + |Encode(cs[i])|
  {
    hide Encode;
    assert cs[..i + 1][..i] == cs[..i];
  }

  lemma {:induction false} SpellPrefix(cs: seq<nat>, i: nat)
    requires AllScalars(cs) && i <= |cs|
    ensures StartOf(cs, i) <= |Spell(cs)| && Spell(cs)[..StartOf(cs, i)] == Spell(cs[..i])
    decreases |cs|
  {
    hide Encode;
    if i == |cs| {
      assert cs[..i] == cs;
    } else {
      var front := cs[..|cs| - 1];
      assert front[..i] == cs[..i];
      SpellPrefix(front, i);
    }
  }

  lemma SpeltThere(cs: seq<nat>, i: nat)
    requires AllScalars(cs) && i < |cs|
    ensures var (text, at) := (Spell(cs), StartOf(cs, i));
            && cs[i] in cs && at < |text| && SpeltAt(text, at, cs[i]) && StartOf(cs, i + 1) <= |text|
            && text[at] == Encode(cs[i])[0]
  {
    hide Encode, Spell, SpeltAt, Scalar, AllScalars;
    ScalarsThere(cs, i);
    SpellPrefix(cs, i + 1);
    StartNext(cs, i);
    SpeltBehind(Spell(cs), Spell(cs[..i]), cs[i]);
  }

  lemma ScalarsThere(cs: seq<nat>, i: nat)
    requires AllScalars(cs) && i < |cs|
    ensures cs[i] in cs && Scalar(cs[i]) && AllScalars(cs[..i]) && AllScalars(cs[..i + 1])
  {}

  lemma SpeltBehind(text: Text, before: Text, c: nat)
    requires Scalar(c) && |before| + |Encode(c)| <= |text| && text[..|before| + |Encode(c)|] == before + Encode(c)
    ensures |before| < |text| && SpeltAt(text, |before|, c) && text[|before|] == Encode(c)[0]
  {
    hide Encode;
    var e := Encode(c);
    assert text[|before|..|before| + |e|] == (before + e)[|before|..];
    assert text[|before|] == (before + e)[|before|];
  }

  lemma ReadThere(cs: seq<nat>, i: nat)
    requires AllScalars(cs) && i < |cs|
    ensures var (text, at) := (Spell(cs), StartOf(cs, i));
            && at < |text| && Read(text, at) == Char(cs[i], |Encode(cs[i])|)
            && (text[at] >= 0x80 ==> cs[i] >= 0x80) && at + |Encode(cs[i])| == StartOf(cs, i + 1) <= |text|
  {
    hide Spell, Read, Encode;
    EncodedNewline(cs[i]);
    SpeltThere(cs, i);
    StartNext(cs, i);
    ReadEncoded(Spell(cs), StartOf(cs, i), cs[i]);
  }

  lemma AtTheEnd(cs: seq<nat>)
    requires AllScalars(cs)
    ensures StartOf(cs, |cs|) == |Spell(cs)| && StartOf(cs, 0) == 0
  {
    assert cs[..|cs|] == cs;
  }

  lemma LineNext(cs: seq<nat>, i: nat)
    requires i < |cs|
    ensures LineOf(cs, i + 1) == LineOf(cs, i) + (if cs[i] == 10 then 1 else 0) && LineOf(cs, 0) == 0
  {
    assert cs[..i + 1] == cs[..i] + [cs[i]];
    assert cs[..0] == [];
  }

  // ----- Skipping a line

  lemma EncodedNewline(c: nat)
    requires Scalar(c)
    ensures forall k :: 0 <= k < |Encode(c)| ==> (Encode(c)[k] == 10 <==> c == 10)
    ensures Encode(c)[0] >= 0x80 ==> c >= 0x80
  {}

  lemma BytesThere(cs: seq<nat>, i: nat, b: nat)
    requires AllScalars(cs) && i < |cs| && StartOf(cs, i) <= b < StartOf(cs, i + 1)
    ensures b < |Spell(cs)| && (Spell(cs)[b] == 10 <==> cs[i] == 10)
  {
    hide Encode, Spell;
    SpeltThere(cs, i);
    StartNext(cs, i);
    SpeltBytes(Spell(cs), StartOf(cs, i), cs[i]);
    EncodedNewline(cs[i]);
    var k: nat := b - StartOf(cs, i);
    assert Spell(cs)[StartOf(cs, i) + k] == Encode(cs[i])[k];
  }

  lemma {:induction false} SkipsTo(text: Text, s: nat, n: nat)
    requires s <= n <= |text| && forall b :: s <= b < n ==> text[b] != 10
    ensures SkipLine(text, s) == SkipLine(text, n)
    decreases n - s
  {
    if s < n {
      SkipsTo(text, s + 1, n);
    }
  }

  /** The fast-forward over bytes ends where the next newline, or the end of the text, is among the characters. */
  lemma {:induction false} SkipsToNewline(cs: seq<nat>, i: nat) returns (j: nat)
    requires AllScalars(cs) && i <= |cs|
    ensures i <= j <= |cs| && (j == |cs| || cs[j] == 10) && forall k :: i <= k < j ==> cs[k] != 10
    ensures StartOf(cs, i) <= |Spell(cs)| && SkipLine(Spell(cs), StartOf(cs, i)) == StartOf(cs, j)
    decreases |cs| - i
  {
    hide Spell, Encode;
    AtTheEnd(cs);
    if i == |cs| {
      j := i;
    } else {
      ReadThere(cs, i);
      StartNext(cs, i);
      if cs[i] == 10 {
        j := i;
        BytesThere(cs, i, StartOf(cs, i));
      } else {
        j := SkipsToNewline(cs, i + 1);
        forall b | StartOf(cs, i) <= b < StartOf(cs, i + 1)
          ensures Spell(cs)[b] != 10
        {
          BytesThere(cs, i, b);
        }
        SkipsTo(Spell(cs), StartOf(cs, i), StartOf(cs, i + 1));
      }
    }
  }

  lemma {:induction false} SameLineUpTo(cs: seq<nat>, i: nat, j: nat)
    requires i <= j <= |cs| && forall k :: i <= k < j ==> cs[k] != 10
    ensures LineOf(cs, j) == LineOf(cs, i)
    decreases j - i
  {
    hide LineOf;
    if i < j {
      LineNext(cs, i);
      SameLineUpTo(cs, i + 1, j);
    }
  }

  lemma {:induction false} HiddenUpTo(width: nat -> real, shown: nat -> bool, cs: seq<nat>, i: nat, j: nat)
    requires AllScalars(cs) && i <= j <= |cs| && !shown(LineOf(cs, i))
    requires j < |cs| ==> forall k :: i <= k < j ==> cs[k] != 10
    requires j == |cs| ==> forall k :: i <= k <= j ==> !shown(LineOf(cs, k))
    ensures MarksOf(width, shown, cs, i) == MarksOf(width, shown, cs, j)
    decreases j - i
  {
    hide LineOf, MarkOf;
    if i < j {
      if j < |cs| {
        LineNext(cs, i);
      }
      assert j == |cs| ==> !shown(LineOf(cs, i + 1));
      HiddenUpTo(width, shown, cs, i + 1, j);
    }
  }

  // ----- The walk comes to the same

  /** The lines a gauge shows: all, in measuring. */
  function Shown(g: Gauge): nat -> bool {
    (line: nat) => !g.Below(line) && !g.Above(line)
  }

  function Widths(g: Gauge): nat -> real {
    (c: nat) => g.Width(c)
  }

  /** Lines that start too low have only lower ones behind them. */
  ghost predicate Descends(g: Gauge) {
    g.Drawing? ==> g.lineHeight >= 0.0
  }

  lemma {:induction false} BelowStays(g: Gauge, cs: seq<nat>, i: nat, j: nat)
    requires Descends(g) && i <= j <= |cs| && g.Below(LineOf(cs, i))
    ensures g.Below(LineOf(cs, j))
    decreases j - i
  {
    hide LineOf;
    if i < j {
      LineNext(cs, i);
      BelowNext(g, LineOf(cs, i));
      BelowStays(g, cs, i + 1, j);
    }
  }

  lemma BelowNext(g: Gauge, line: nat)
    requires Descends(g) && g.Below(line)
    ensures g.Below(line + 1)
  {}

  lemma AllBelow(g: Gauge, cs: seq<nat>, i: nat)
    requires AllScalars(cs) && Descends(g) && i <= |cs| && g.Below(LineOf(cs, i))
    ensures MarksOf(Widths(g), Shown(g), cs, i) == []
  {
    hide LineOf;
    forall k | i <= k <= |cs|
      ensures !Shown(g)(LineOf(cs, k))
    {
      BelowStays(g, cs, i, k);
    }
    HiddenUpTo(Widths(g), Shown(g), cs, i, |cs|);
  }

  /** The pen stands before character i. */
  ghost predicate StandsAt(g: Gauge, cs: seq<nat>, p: Pen, i: nat)
    requires AllScalars(cs)
  {
    && i <= |cs| && p.s == StartOf(cs, i) && p.line == LineOf(cs, i) && p.eol.None?
    && (p.x == XOf(Widths(g), cs, i) || i == |cs| || cs[i] == 10)
    && (i == |cs| || cs[i] == 10 || Shown(g)(p.line))
    && (g.Measuring? ==> p.x == XOf(Widths(g), cs, i))
  }

  /** One character of an unwrapped text. */
  lemma PlainStep(g: Gauge, text: Text, wrapWidth: real, p: Pen)
    requires p.s < |text| && wrapWidth <= 0.0 && p.eol.None? && (g.Measuring? ==> g.maxWidth.None?)
    requires text[p.s] >= 0x80 ==> Read(text, p.s).c != 0
    ensures var (c, next) := (Read(text, p.s).c, p.s + Read(text, p.s).len);
            next <= |text|
            && StepOf(g, text, wrapWidth, p) ==
               if c == 10 then
                 var q := Pen(next, 0.0, p.line + 1, None, Max(p.widest, p.x));
                 if g.Below(q.line) then Stop(q)
                 else Go(q.(s := if g.Above(q.line) then SkipLine(text, q.s) else q.s))
               else if c == 13 then Go(p.(s := next))
               else Put(Mark(p.s, c, p.x, g.Width(c), p.line), p.(s := next, x := p.x + g.Width(c)))
  {
    hide Read, WrapPosition, SkipLine;
  }

  lemma {:induction false} PlainRun(g: Gauge, cs: seq<nat>, wrapWidth: real, p: Pen, i: nat)
    requires AllScalars(cs) && Descends(g) && wrapWidth <= 0.0 && (g.Measuring? ==> g.maxWidth.None?)
    requires StandsAt(g, cs, p, i)
    ensures p.s <= |Spell(cs)|
    ensures Run(g, Spell(cs), wrapWidth, p).marks == MarksOf(Widths(g), Shown(g), cs, i)
    ensures g.Measuring? ==>
              var end := Run(g, Spell(cs), wrapWidth, p).end;
              end.s == |Spell(cs)| && end.line == LineOf(cs, |cs|) && end.x == XOf(Widths(g), cs, |cs|)
    decreases |cs| - i
  {
    hide Read, StepOf, Run, LineOf, SkipLine, Spell, Encode;
    var text := Spell(cs);
    AtTheEnd(cs);
    if i == |cs| {
      RunStep(g, text, wrapWidth, p);
    } else {
      ReadThere(cs, i);
      LineNext(cs, i);
      RunStep(g, text, wrapWidth, p);
      PlainStep(g, text, wrapWidth, p);
      var move := StepOf(g, text, wrapWidth, p);
      if cs[i] == 10 && g.Below(p.line + 1) {
        AllBelow(g, cs, i + 1);
      } else if cs[i] == 10 && g.Above(p.line + 1) {
        var j := SkipsToNewline(cs, i + 1);
        SameLineUpTo(cs, i + 1, j);
        SkippedLineHidden(g, cs, i + 1, j);
        PlainRun(g, cs, wrapWidth, move.next, j);
      } else {
        PlainRun(g, cs, wrapWidth, move.next, i + 1);
      }
    }
  }

  lemma SkippedLineHidden(g: Gauge, cs: seq<nat>, i: nat, j: nat)
    requires AllScalars(cs) && i <= j <= |cs| && g.Above(LineOf(cs, i))
    requires (j == |cs| || cs[j] == 10) && forall k :: i <= k < j ==> cs[k] != 10
    ensures MarksOf(Widths(g), Shown(g), cs, i) == MarksOf(Widths(g), Shown(g), cs, j)
  {
    hide LineOf;
    forall k | i <= k <= j
      ensures !Shown(g)(LineOf(cs, k))
    {
      SameLineUpTo(cs, i, k);
    }
    HiddenUpTo(Widths(g), Shown(g), cs, i, j);
  }

  // ----- The size

  function MeasuredWidths(m: Metrics): nat -> real {
    (c: nat) => m.Width(c)
  }

  function EveryLine(): nat -> bool {
    (line: nat) => true
  }

  /** The measured layout of a correctly spelt text that is not wrapped: each character but newlines and carriage
      returns on the line that the newlines before it make, as far right as the characters before it on that line are
      wide; and the height is that of the newlines and, if there are none or something with width follows the last, of
      one line more. */
  lemma PlainTextIsMeasured(m: Metrics, cs: seq<nat>, wrapWidth: real, size: real)
    requires AllScalars(cs) && wrapWidth <= 0.0
    ensures var l := Run(Measuring(m, None), Spell(cs), wrapWidth, START);
            var newlines := multiset(cs)[10];
            && l.marks == MarksOf(MeasuredWidths(m), EveryLine(), cs, 0) && l.end.s == |Spell(cs)|
            && HeightOf(size, LinesOfLayout(l))
               == size * (newlines + if newlines == 0 || XOf(MeasuredWidths(m), cs, |cs|) > 0.0 then 1 else 0) as real
  {
    hide Run, Spell;
    var g := Measuring(m, None);
    AtTheEnd(cs);
    assert cs[..0] == [] && cs[..|cs|] == cs;
    PlainRun(g, cs, wrapWidth, START, 0);
    SameMarks(Widths(g), MeasuredWidths(m), Shown(g), EveryLine(), cs, 0);
    SameX(Widths(g), MeasuredWidths(m), cs, |cs|);
  }

  lemma {:induction false} SameX(w: nat -> real, v: nat -> real, cs: seq<nat>, i: nat)
    requires i <= |cs| && forall c :: w(c) == v(c)
    ensures XOf(w, cs, i) == XOf(v, cs, i)
    decreases i
  {
    if i > 0 {
      SameX(w, v, cs, i - 1);
    }
  }

  lemma {:induction false} SameMarks(w: nat -> real, v: nat -> real, a: nat -> bool, b: nat -> bool, cs: seq<nat>,
                                     i: nat)
    requires AllScalars(cs) && i <= |cs| && (forall c :: w(c) == v(c)) && forall n :: a(n) == b(n)
    ensures MarksOf(w, a, cs, i) == MarksOf(v, b, cs, i)
    decreases |cs| - i
  {
    hide LineOf, StartOf, XOf;
    if i < |cs| {
      SameX(w, v, cs, i);
      assert MarkOf(w, cs, i) == MarkOf(v, cs, i) && a(LineOf(cs, i)) == b(LineOf(cs, i));
      SameMarks(w, v, a, b, cs, i + 1);
    }
  }
}
