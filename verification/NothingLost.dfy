/** Laying out loses no character: what gets no place is a line end, a carriage return, or a blank right after a wrap.
    */
module NothingLost {
  import opened Basics
  import opened Utf8
  import opened FontTable
  import opened WordWrap
  import opened TextLayout
  import opened TightBox

  predicate Blank(b: Byte) {
    b == 0x20 || b == 0x09
  }

  /** All bytes from a to b are of a kind. */
  ghost predicate Only(text: Text, a: nat, b: nat, kind: Byte -> bool) {
    a <= b <= |text| && forall k :: a <= k < b ==> kind(text[k])
  }

  function Blanks(): Byte -> bool {
    (b: Byte) => Blank(b)
  }

  function Returns(): Byte -> bool {
    (b: Byte) => b == 13
  }

  /** Blanks, carriage returns and newlines. */
  function Gaps(): Byte -> bool {
    (b: Byte) => Blank(b) || b == 13 || b == 10
  }

  /** What wrapping skips: blanks, as many as there are, and then a newline if there is one. */
  lemma {:induction false} SkipsBlanks(text: Text, s: nat) returns (k: nat)
    requires s <= |text|
    ensures s <= k <= |text| && Only(text, s, k, Blanks()) && (k < |text| ==> !Blank(text[k]))
    ensures SkipBlanks(text, s) == if k < |text| && text[k] == 10 then k + 1 else k
    decreases |text| - s
  {
    if s < |text| && Blank(text[s]) {
      k := SkipsBlanks(text, s + 1);
    } else {
      k := s;
    }
  }

  /** Skipping to a line's end stops at the first newline, and only there. */
  lemma {:induction false} SkipsToLineEnd(text: Text, s: nat)
    requires s <= |text|
    ensures var r := SkipLine(text, s);
            Only(text, s, r, (b: Byte) => b != 10) && (r < |text| ==> text[r] == 10)
    decreases |text| - s
  {
    if s < |text| && text[s] != 10 {
      SkipsToLineEnd(text, s + 1);
    }
  }

  /** How character b comes behind a pen at (x, line) that stands at byte s: on the same line right there, with
      nothing but carriage returns between; or at the start of a later line, with nothing but blanks and line ends
      between.  If there are only blanks, the line is wrapped there, and does not begin with a blank. */
  ghost predicate ComesNext(text: Text, s: nat, x: real, line: nat, b: Mark) {
    && s <= b.at < |text| && b.c == Read(text, b.at).c
    && if b.line == line then b.x == x && Only(text, s, b.at, Returns())
       else
         && line < b.line && b.x == 0.0 && Only(text, s, b.at, Gaps())
         && (Only(text, s, b.at, Blanks()) ==> b.line == line + 1 && !Blank(text[b.at]))
  }

  /** The first of the marks comes behind the pen, and each behind the one before it. */
  ghost predicate Chained(text: Text, s: nat, x: real, line: nat, marks: seq<Mark>)
    decreases |marks|
  {
    marks == []
    || (ComesNext(text, s, x, line, marks[0])
        && var m := marks[0];
           Chained(text, m.at + Read(text, m.at).len, m.x + m.width, m.line, marks[1..]))
  }

  /** Behind the last mark. */
  function AfterAll(text: Text, s: nat, marks: seq<Mark>): nat
    requires forall i :: 0 <= i < |marks| ==> marks[i].at < |text|
  {
    if marks == [] then s else var last := marks[|marks| - 1]; last.at + Read(text, last.at).len
  }

  // ----- One step

  /** The pen moves on over something that gets no place. */
  ghost predicate Passes(text: Text, p: Pen, q: Pen)
    requires p.s < |text|
  {
    || (q.s == p.s + 1 && text[p.s] == 13 && q.line == p.line && q.x == p.x)
    || (q.s == p.s + 1 && text[p.s] == 10 && q.line == p.line + 1 && q.x == 0.0)
    || (p.eol.Some? && q.s == SkipBlanks(text, p.s) && q.line == p.line + 1 && q.x == 0.0 && q.eol.None?)
  }

  lemma StepPlaces(m: Metrics, maxWidth: Option<real>, text: Text, wrapWidth: real, p: Pen)
    requires p.s < |text|
    ensures match StepOf(Measuring(m, maxWidth), text, wrapWidth, p)
            case Stop(end) =>
              end.s == p.s && (maxWidth.None? ==> text[p.s] >= 0x80 && Read(text, p.s).c == 0)
            case Go(next) => Passes(text, p, next)
            case Put(mark, next) =>
              && mark.at == p.s && mark.c == Read(text, p.s).c && mark.line == p.line && mark.x == p.x
              && next.s == p.s + Read(text, p.s).len && next.x == p.x + mark.width && next.line == p.line
  {
    hide WrapPosition, SkipBlanks, SkipLine, Advance, Read2, Read3, Read4;
    ReadsAscii(text, p.s);
  }

  /** A carriage return or newline that is read is that byte. */
  lemma ReadsAscii(text: Text, s: nat)
    requires s < |text|
    ensures Read(text, s).c < 0x80 && Read(text, s).len > 0 ==> Read(text, s).c == text[s] && Read(text, s).len == 1
  {
    hide Join;
    if Read(text, s).len > 0 && Read(text, s).c < 0x80 {
      ReadIsEncoded(text, s);
      assert text[s..s + 1] == Encode(Read(text, s).c);
      assert text[s..s + 1][0] == text[s];
    }
  }

  lemma OnlyJoined(text: Text, a: nat, b: nat, c: nat, kind: Byte -> bool)
    requires a <= b <= c
    ensures Only(text, a, c, kind) <==> Only(text, a, b, kind) && Only(text, b, c, kind)
  {}

  lemma ReturnComes(text: Text, s: nat, x: real, line: nat, b: Mark)
    requires s < |text| && text[s] == 13 && ComesNext(text, s + 1, x, line, b)
    ensures ComesNext(text, s, x, line, b)
  {}

  lemma NewlineComes(text: Text, s: nat, x: real, line: nat, b: Mark)
    requires s < |text| && text[s] == 10 && ComesNext(text, s + 1, 0.0, line + 1, b)
    ensures ComesNext(text, s, x, line, b)
  {}

  lemma WrapComes(text: Text, s: nat, x: real, line: nat, b: Mark)
    requires s < |text| && ComesNext(text, SkipBlanks(text, s), 0.0, line + 1, b)
    requires b.line > line + 1 ==> SkipBlanks(text, s) < b.at
    ensures ComesNext(text, s, x, line, b)
  {
    var k := SkipsBlanks(text, s);
    var r := SkipBlanks(text, s);
    assert forall i :: s <= i < k ==> Blanks()(text[i]);
    if k < b.at {
      NotOnly(text, s, b.at, Blanks(), k);
    }
  }

  lemma NotOnly(text: Text, a: nat, b: nat, kind: Byte -> bool, k: nat)
    requires a <= k < b <= |text| && !kind(text[k])
    ensures !Only(text, a, b, kind)
  {}

  // ----- The whole walk

  /** A pen at the start of a line reads at least one byte on it. */
  ghost predicate StartsAhead(p: Pen, marks: seq<Mark>) {
    p.eol.None? && marks != [] && marks[0].line > p.line ==> p.s < marks[0].at
  }

  lemma {:induction false} RunChained(m: Metrics, maxWidth: Option<real>, text: Text, wrapWidth: real, p: Pen)
    requires p.s <= |text|
    ensures var l := Run(Measuring(m, maxWidth), text, wrapWidth, p);
            && Chained(text, p.s, p.x, p.line, l.marks) && StartsAhead(p, l.marks)
            && Finished(text, maxWidth, p.s, l)
    decreases Remaining(text, p)
  {
    hide StepOf, Remaining, Opened, AtEol, Read, ComesNext, Only, Finished, StartsAhead, Passes;
    var g := Measuring(m, maxWidth);
    RunStep(g, text, wrapWidth, p);
    var l := Run(g, text, wrapWidth, p);
    if p.s == |text| {
      NothingMore(text, maxWidth, p);
    } else {
      StepPlaces(m, maxWidth, text, wrapWidth, p);
      var move := StepOf(g, text, wrapWidth, p);
      if move.Stop? {
        StoppedThere(text, maxWidth, p, move.end);
      } else {
        var rest := Run(g, text, wrapWidth, move.next);
        RunChained(m, maxWidth, text, wrapWidth, move.next);
        if move.Go? {
          GoChained(text, maxWidth, p, move.next, rest);
        } else {
          PutChained(text, maxWidth, p, move.mark, move.next, rest);
        }
      }
    }
  }

  /** Behind the last mark there are only blanks and line ends, up to the end of the text, to a byte that starts no
      character, or to where the limit on the width cuts. */
  ghost predicate Finished(text: Text, maxWidth: Option<real>, s: nat, l: Layout) {
    && (forall i :: 0 <= i < |l.marks| ==> l.marks[i].at < |text|)
    && Only(text, AfterAll(text, s, l.marks), l.end.s, Gaps())
    && (l.end.s < |text| && maxWidth.None? ==> text[l.end.s] >= 0x80 && Read(text, l.end.s).c == 0)
  }

  lemma NothingMore(text: Text, maxWidth: Option<real>, p: Pen)
    requires p.s == |text|
    ensures Chained(text, p.s, p.x, p.line, []) && StartsAhead(p, []) && Finished(text, maxWidth, p.s, Layout([], p))
  {}

  lemma StoppedThere(text: Text, maxWidth: Option<real>, p: Pen, end: Pen)
    requires p.s < |text| && end.s == p.s && (maxWidth.None? ==> text[p.s] >= 0x80 && Read(text, p.s).c == 0)
    ensures Chained(text, p.s, p.x, p.line, []) && StartsAhead(p, []) && Finished(text, maxWidth, p.s, Layout([], end))
  {}

  lemma GoChained(text: Text, maxWidth: Option<real>, p: Pen, q: Pen, l: Layout)
    requires p.s < |text| && Passes(text, p, q)
    requires Chained(text, q.s, q.x, q.line, l.marks) && StartsAhead(q, l.marks) && Finished(text, maxWidth, q.s, l)
    ensures Chained(text, p.s, p.x, p.line, l.marks) && StartsAhead(p, l.marks) && Finished(text, maxWidth, p.s, l)
  {
    hide ComesNext, SkipBlanks;
    PassesGaps(text, p, q);
    if l.marks == [] {
      OnlyJoined(text, p.s, q.s, l.end.s, Gaps());
    } else {
      ComesLater(text, p, q, l.marks);
    }
  }

  lemma ComesLater(text: Text, p: Pen, q: Pen, marks: seq<Mark>)
    requires p.s < |text| && Passes(text, p, q) && marks != []
    requires ComesNext(text, q.s, q.x, q.line, marks[0]) && StartsAhead(q, marks)
    ensures ComesNext(text, p.s, p.x, p.line, marks[0]) && StartsAhead(p, marks)
  {
    hide Only, SkipBlanks;
    var b := marks[0];
    if q.s == p.s + 1 && text[p.s] == 13 && q.line == p.line && q.x == p.x {
      ReturnComes(text, p.s, p.x, p.line, b);
    } else if q.s == p.s + 1 && text[p.s] == 10 && q.line == p.line + 1 && q.x == 0.0 {
      NewlineComes(text, p.s, p.x, p.line, b);
    } else {
      WrapComes(text, p.s, p.x, p.line, b);
    }
  }

  lemma PassesGaps(text: Text, p: Pen, q: Pen)
    requires p.s < |text| && Passes(text, p, q)
    ensures Only(text, p.s, q.s, Gaps())
  {
    if p.eol.Some? && q.s == SkipBlanks(text, p.s) {
      var k := SkipsBlanks(text, p.s);
      assert forall i :: p.s <= i < k ==> Blanks()(text[i]);
    }
  }

  lemma PutChained(text: Text, maxWidth: Option<real>, p: Pen, mark: Mark, q: Pen, l: Layout)
    requires p.s < |text| && mark.at == p.s && mark.c == Read(text, p.s).c && mark.line == p.line && mark.x == p.x
    requires q.s == p.s + Read(text, p.s).len && q.x == p.x + mark.width && q.line == p.line
    requires Chained(text, q.s, q.x, q.line, l.marks) && Finished(text, maxWidth, q.s, l)
    ensures var all := Layout([mark] + l.marks, l.end);
            && Chained(text, p.s, p.x, p.line, all.marks) && StartsAhead(p, all.marks)
            && Finished(text, maxWidth, p.s, all)
  {
    hide Read;
    assert ([mark] + l.marks)[1..] == l.marks;
  }

  /** Every layout, wrapped or not, of whatever bytes: the characters come in the order of the text, each as it is
      read, either right behind the one before it, or at the start of a later line.  Nothing is left out but carriage
      returns, line ends and blanks: blanks only where the line has ended, and all of them where it was wrapped.
      Unless the width is limited, the walk goes on to the end of the text or to a byte that starts no character. */
  lemma NothingIsLost(m: Metrics, maxWidth: Option<real>, text: Text, wrapWidth: real)
    ensures var l := Run(Measuring(m, maxWidth), text, wrapWidth, START);
            Chained(text, 0, 0.0, 0, l.marks) && Finished(text, maxWidth, 0, l)
  {
    hide Run;
    RunChained(m, maxWidth, text, wrapWidth, START);
  }
}
