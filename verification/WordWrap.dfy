/** Where a line of text is wrapped (CalcWordWrapPositionA): what the scan computes, and what that position
    means for the lines before it. */
module WordWrap {
  import opened Basics
  import opened Utf8
  import opened FontTable

  const NEWLINE: nat := 10
  const RETURN: nat := 13
  const IDEOGRAPHIC_SPACE: nat := 0x3000

  /** ImCharIsSpace */
  predicate IsSpace(c: nat) {
    c == SPACE || c == TAB || c == IDEOGRAPHIC_SPACE
  }

  /** . , ; ! ? " */
  predicate IsPunctuation(c: nat) {
    c == 0x2E || c == 0x2C || c == 0x3B || c == 0x21 || c == 0x3F || c == 0x22
  }

  /** A font at a scale. */
  datatype Metrics = Metrics(table: Table, scale: real) {
    function Width(c: nat): real {
      Advance(table, c) * scale
    }

    ghost predicate NeverBackwards() {
      forall c: nat :: Width(c) >= 0.0
    }
  }

  // ----- The scan

  datatype Scan = Scan(line: real, word: real, blank: real, wordEnd: nat, prevWordEnd: Option<nat>, inside: bool) {
    predicate Within(from: nat, to: nat) {
      from <= wordEnd <= to && (prevWordEnd.Some? ==> from <= prevWordEnd.value <= to)
    }
  }

  function Scanned(m: Metrics, st: Scan, c: nat, at: nat, next: nat): Scan {
    var w := m.Width(c);
    if c == NEWLINE then Scan(0.0, 0.0, 0.0, st.wordEnd, st.prevWordEnd, true)
    else if c == RETURN then st
    else if IsSpace(c) then
      if st.inside then Scan(st.line + st.blank, st.word, w, at, st.prevWordEnd, false)
      else st.(blank := st.blank + w)
    else if st.inside then
      st.(word := st.word + w, wordEnd := next, inside := !IsPunctuation(c))
    else
      Scan(st.line + (st.word + w + st.blank), 0.0, 0.0, st.wordEnd, Some(st.wordEnd), !IsPunctuation(c))
  }

  predicate Overflows(st: Scan, c: nat, wrapWidth: real) {
    c != NEWLINE && c != RETURN && st.line + st.word >= wrapWidth
  }

  function BreakOf(st: Scan, at: nat, wrapWidth: real): nat {
    if st.word >= wrapWidth then at
    else if st.prevWordEnd.Some? then st.prevWordEnd.value else st.wordEnd
  }

  /** The text ends at position s: by its length, at a NUL or at a byte that starts no character. */
  predicate Stops(text: Text, s: nat) {
    s >= |text| || Read(text, s).c == 0
  }

  function Next(text: Text, s: nat): (n: nat)
    requires !Stops(text, s)
    ensures s < n <= |text|
  {
    s + Read(text, s).len
  }

  function WrapFrom(m: Metrics, text: Text, start: nat, s: nat, st: Scan, wrapWidth: real): (r: nat)
    requires start <= s <= |text| && st.Within(start, s)
    ensures start <= r <= |text|
    decreases |text| - s
  {
    if Stops(text, s) then s
    else
      var c, next := Read(text, s).c, Next(text, s);
      var st' := Scanned(m, st, c, s, next);
      if Overflows(st', c, wrapWidth) then BreakOf(st', s, wrapWidth)
      else WrapFrom(m, text, start, next, st', wrapWidth)
  }

  function StartScan(start: nat): Scan {
    Scan(0.0, 0.0, 0.0, start, None, true)
  }

  function WrapPosition(m: Metrics, text: Text, start: nat, wrapWidth: real): (r: nat)
    requires start <= |text|
    ensures start <= r <= |text|
  {
    WrapFrom(m, text, start, start, StartScan(start), wrapWidth)
  }

  lemma WrapStep(m: Metrics, text: Text, start: nat, s: nat, st: Scan, wrapWidth: real)
    requires start <= s <= |text| && st.Within(start, s)
    ensures Stops(text, s) ==> WrapFrom(m, text, start, s, st, wrapWidth) == s
    ensures !Stops(text, s) ==>
              var (c, next) := (Read(text, s).c, Next(text, s));
              var st' := Scanned(m, st, c, s, next);
              && st'.Within(start, next)
              && WrapFrom(m, text, start, s, st, wrapWidth) ==
                 if Overflows(st', c, wrapWidth) then BreakOf(st', s, wrapWidth)
                 else WrapFrom(m, text, start, next, st', wrapWidth)
  {}

  lemma WrapAtEnd(m: Metrics, text: Text, start: nat, wrapWidth: real)
    requires start <= |text|
    ensures forall st: Scan :: st.Within(start, |text|) ==> WrapFrom(m, text, start, |text|, st, wrapWidth) == |text|
  {}

  lemma WidthOf(m: Metrics, c: nat)
    ensures m.Width(c) == (if c < |m.table.xAdvance| then m.table.xAdvance[c] else m.table.fallbackXAdvance) * m.scale
  {}

  method CalcWordWrapPositionA(font: Font, scale: real, text: Text, start: nat, wrapWidth: real) returns (s: nat)
    requires start <= |text|
    ensures s == WrapPosition(Metrics(font.View(), scale), text, start, wrapWidth)
  {
    hide WrapFrom, Read, IsSpace, IsPunctuation, Advance;
    ghost var m := Metrics(font.View(), scale);
    var lineWidth, wordWidth, blankWidth := 0.0, 0.0, 0.0;
    var wordEnd: nat := start;
    WrapAtEnd(m, text, start, wrapWidth);
    var prevWordEnd: Option<nat> := None;
    var insideWord := true;
    s := start;
    while s < |text|
      invariant start <= s <= |text| && Scan(lineWidth, wordWidth, blankWidth, wordEnd, prevWordEnd,
                insideWord).Within(start, s)
      invariant WrapPosition(m, text, start, wrapWidth)
                == WrapFrom(m, text, start, s,
                  Scan(lineWidth, wordWidth, blankWidth, wordEnd, prevWordEnd, insideWord), wrapWidth)
      decreases |text| - s
    {
      ghost var st := Scan(lineWidth, wordWidth, blankWidth, wordEnd, prevWordEnd, insideWord);
      WrapStep(m, text, start, s, st, wrapWidth);
      var r := Read(text, s);
      var c, nextS := r.c, s + r.len;
      if c == 0 {
        break;
      }
      if c == NEWLINE {
        lineWidth, wordWidth, blankWidth := 0.0, 0.0, 0.0;
        insideWord := true;
        s := nextS;
        continue;
      }
      if c == RETURN {
        s := nextS;
        continue;
      }
      var charWidth := (if c < |font.indexXAdvance| then font.indexXAdvance[c] else font.fallbackXAdvance) * scale;
      WidthOf(m, c);
      if IsSpace(c) {
        if insideWord {
          lineWidth := lineWidth + blankWidth;
          blankWidth := 0.0;
          wordEnd := s;
        }
        blankWidth := blankWidth + charWidth;
        insideWord := false;
      } else {
        wordWidth := wordWidth + charWidth;
        if insideWord {
          wordEnd := nextS;
        } else {
          prevWordEnd := Some(wordEnd);
          lineWidth := lineWidth + (wordWidth + blankWidth);
          wordWidth, blankWidth := 0.0, 0.0;
        }
        insideWord := !IsPunctuation(c);
      }
      assert Scan(lineWidth, wordWidth, blankWidth, wordEnd, prevWordEnd, insideWord) == Scanned(m, st, c, s, nextS);
      if lineWidth + wordWidth >= wrapWidth {
        if wordWidth < wrapWidth {
          s := if prevWordEnd.Some? then prevWordEnd.value else wordEnd;
        }
        break;
      }
      s := nextS;
    }
  }

  // ----- The text as it is read, character by character

  /** Where the k-th character after `start` begins. */
  function Pos(text: Text, start: nat, k: nat): (p: nat)
    requires start <= |text|
    ensures start <= p <= |text|
  {
    if k == 0 then start
    else
      var p := Pos(text, start, k - 1);
      if Stops(text, p) then p else Next(text, p)
  }

  /** The k-th character; 0 where the text has ended. */
  function CharAt(text: Text, start: nat, k: nat): nat
    requires start <= |text|
  {
    var p := Pos(text, start, k);
    if Stops(text, p) then 0 else Read(text, p).c
  }

  /** A line as far as it has been read: its width, and its width up to its last character that is not blank. */
  datatype Line = Line(total: real, trimmed: real)

  function Extended(m: Metrics, line: Line, c: nat): Line {
    if c == NEWLINE then Line(0.0, 0.0)
    else if c == RETURN || c == 0 then line
    else if IsSpace(c) then Line(line.total + m.Width(c), line.trimmed)
    else Line(line.total + m.Width(c), line.total + m.Width(c))
  }

  /** The line that the first k characters end with. */
  function LineAt(m: Metrics, text: Text, start: nat, k: nat): Line
    requires start <= |text|
  {
    if k == 0 then Line(0.0, 0.0) else Extended(m, LineAt(m, text, start, k - 1), CharAt(text, start, k - 1))
  }

  ghost predicate FitsUpTo(m: Metrics, text: Text, start: nat, wrapWidth: real, k: nat)
    requires start <= |text|
  {
    forall j: nat :: j <= k ==> LineAt(m, text, start, j).trimmed < wrapWidth
  }

  /** Character o is the first that does not fit. */
  ghost predicate FirstOverflow(m: Metrics, text: Text, start: nat, wrapWidth: real, o: nat)
    requires start <= |text|
  {
    && !Stops(text, Pos(text, start, o)) && FitsUpTo(m, text, start, wrapWidth, o)
    && LineAt(m, text, start, o + 1).trimmed >= wrapWidth
  }

  predicate IsInk(c: nat) {
    c != 0 && c != NEWLINE && c != RETURN && !IsSpace(c)
  }

  /** Characters w to k have no blank and no line end among them. */
  ghost predicate Solid(text: Text, start: nat, w: nat, k: nat)
    requires start <= |text|
  {
    forall j: nat :: w <= j < k ==> IsInk(CharAt(text, start, j)) || CharAt(text, start, j) == RETURN
  }

  function InkWidth(m: Metrics, text: Text, start: nat, w: nat, k: nat): real
    requires start <= |text| && w <= k
    decreases k - w
  {
    if w == k then 0.0
    else
      var c := CharAt(text, start, k - 1);
      InkWidth(m, text, start, w, k - 1) + if c == RETURN then 0.0 else m.Width(c)
  }

  ghost predicate SameLine(text: Text, start: nat, j: nat, k: nat)
    requires start <= |text|
  {
    forall i: nat :: j <= i < k ==> CharAt(text, start, i) != NEWLINE
  }

  /** A line may be broken here: before a blank or after a punctuation mark. */
  predicate MayBreak(text: Text, start: nat, k: nat)
    requires start <= |text|
  {
    IsSpace(CharAt(text, start, k)) || (k > 0 && IsPunctuation(CharAt(text, start, k - 1)))
  }

  predicate IsWordy(c: nat) {
    IsInk(c) && !IsPunctuation(c)
  }

  /** A word ends just before character k, and a blank follows. */
  predicate EndsBeforeBlank(text: Text, start: nat, k: nat)
    requires start <= |text|
  {
    k >= 1 && IsSpace(CharAt(text, start, k)) && IsWordy(CharAt(text, start, k - 1))
  }

  /** A word ends just before character k with a punctuation mark. */
  predicate EndsInPunctuation(text: Text, start: nat, k: nat)
    requires start <= |text|
  {
    k >= 2 && IsPunctuation(CharAt(text, start, k - 1)) && IsWordy(CharAt(text, start, k - 2))
  }

  // ----- What the position means

  /** The whole text fits. */
  ghost predicate TakesAll(m: Metrics, text: Text, start: nat, wrapWidth: real, r: nat, k: nat)
    requires start <= |text|
  {
    r == Pos(text, start, k) && Stops(text, r) && FitsUpTo(m, text, start, wrapWidth, k)
  }

  /** Character o is the first that does not fit; the line is broken before character k, and no word ends
      between the two. */
  ghost predicate BreaksBetweenWords(m: Metrics, text: Text, start: nat, wrapWidth: real, r: nat, k: nat, o: nat)
    requires start <= |text|
  {
    && r == Pos(text, start, k) && k <= o && FirstOverflow(m, text, start, wrapWidth, o)
    && MayBreak(text, start, k) && SameLine(text, start, k, o)
    && forall j: nat :: k < j <= o ==> !EndsBeforeBlank(text, start, j) && !EndsInPunctuation(text, start, j)
  }

  /** A word is cut before the first character that does not fit: from character w on it is too wide for
      a line of its own. */
  ghost predicate CutsWideWord(m: Metrics, text: Text, start: nat, wrapWidth: real, r: nat, w: nat, o: nat)
    requires start <= |text|
  {
    && r == Pos(text, start, o) && w <= o && FirstOverflow(m, text, start, wrapWidth, o)
    && Solid(text, start, w, o + 1) && InkWidth(m, text, start, w, o + 1) >= wrapWidth
  }

  ghost predicate WellWrapped(m: Metrics, text: Text, start: nat, wrapWidth: real, r: nat)
    requires start <= |text|
  {
    || (exists k: nat :: TakesAll(m, text, start, wrapWidth, r, k))
    || (exists k: nat, o: nat :: BreaksBetweenWords(m, text, start, wrapWidth, r, k, o))
    || (exists w: nat, o: nat :: CutsWideWord(m, text, start, wrapWidth, r, w, o))
  }

  /** What the scan knows: after k characters, with the word end before character ke, the previous one before
      kp, and the current word (without its first character, if a blank is before it) from kw on. */
  ghost predicate Knows(m: Metrics, text: Text, start: nat, wrapWidth: real, k: nat, st: Scan, ke: nat, kp: nat,
                        kw: nat)
    requires start <= |text|
  {
    && KnowsWidths(m, text, start, k, st)
    && FitsUpTo(m, text, start, wrapWidth, k)
    && KnowsWord(m, text, start, k, st, kw)
    && KnowsEnd(text, start, k, st, ke)
    && (st.line > 0.0 ==> KnowsPrevious(text, start, k, st, ke, kp))
  }

  ghost predicate KnowsWidths(m: Metrics, text: Text, start: nat, k: nat, st: Scan)
    requires start <= |text|
  {
    && LineAt(m, text, start, k) == Line(st.line + st.word + st.blank, st.line + st.word)
    && st.line >= 0.0 && st.word >= 0.0 && st.blank >= 0.0
    && (st.inside ==> st.blank == 0.0)
  }

  ghost predicate KnowsWord(m: Metrics, text: Text, start: nat, k: nat, st: Scan, kw: nat)
    requires start <= |text|
  {
    kw <= k && (st.inside ==> Solid(text, start, kw, k) && InkWidth(m, text, start, kw, k) == st.word)
  }

  ghost predicate KnowsEnd(text: Text, start: nat, k: nat, st: Scan, ke: nat)
    requires start <= |text|
  {
    && ke <= k && st.wordEnd == Pos(text, start, ke)
    && (!st.inside ==> MayBreak(text, start, ke) && SameLine(text, start, ke, k))
    && (k > 0 && IsWordy(CharAt(text, start, k - 1)) ==> st.inside)
    && NoWordEnds(text, start, ke, k)
  }

  /** No word ends behind character a, as far as the characters before b tell. */
  ghost predicate NoWordEnds(text: Text, start: nat, a: nat, b: nat)
    requires start <= |text|
  {
    && (forall j: nat :: a < j < b ==> !EndsBeforeBlank(text, start, j))
    && (forall j: nat :: a < j <= b ==> !EndsInPunctuation(text, start, j))
  }

  ghost predicate KnowsPrevious(text: Text, start: nat, k: nat, st: Scan, ke: nat, kp: nat)
    requires start <= |text|
  {
    && st.prevWordEnd == Some(Pos(text, start, kp)) && kp <= k
    && MayBreak(text, start, kp) && SameLine(text, start, kp, k)
    && (if st.inside then NoWordEnds(text, start, kp, k)
        else forall j: nat :: kp < j < ke ==> !EndsBeforeBlank(text, start, j) && !EndsInPunctuation(text, start, j))
  }

  // ----- Why the scan knows it

  /** The witnesses after one more character. */
  function NextEnd(st: Scan, c: nat, k: nat, ke: nat): nat {
    if c == NEWLINE || c == RETURN || !st.inside then ke else if IsSpace(c) then k else k + 1
  }

  function NextPrevious(st: Scan, c: nat, ke: nat, kp: nat): nat {
    if IsInk(c) && !st.inside then ke else kp
  }

  function NextWord(st: Scan, c: nat, k: nat, kw: nat): nat {
    if c == NEWLINE || (IsInk(c) && !st.inside) then k + 1 else kw
  }

  function ScannedAt(m: Metrics, text: Text, start: nat, k: nat, st: Scan): Scan
    requires start <= |text|
  {
    Scanned(m, st, CharAt(text, start, k), Pos(text, start, k), Pos(text, start, k + 1))
  }

  lemma StepWidths(m: Metrics, text: Text, start: nat, k: nat, st: Scan)
    requires start <= |text| && CharAt(text, start, k) != 0 && m.NeverBackwards() && KnowsWidths(m, text, start, k, st)
    ensures KnowsWidths(m, text, start, k + 1, ScannedAt(m, text, start, k, st))
  {
    hide IsSpace, IsPunctuation, Pos, CharAt, Advance;
    assert m.Width(CharAt(text, start, k)) >= 0.0;
  }

  lemma StepWord(m: Metrics, text: Text, start: nat, k: nat, st: Scan, kw: nat)
    requires start <= |text| && CharAt(text, start, k) != 0 && KnowsWord(m, text, start, k, st, kw)
    ensures var (c, st') := (CharAt(text, start, k), ScannedAt(m, text, start, k, st));
            && KnowsWord(m, text, start, k + 1, st', NextWord(st, c, k, kw))
            && (IsInk(c) && st.inside ==>
                  Solid(text, start, kw, k + 1) && InkWidth(m, text, start, kw, k + 1) == st'.word)
  {
    hide IsSpace, IsPunctuation, Pos, CharAt, Advance, Stops;
  }

  lemma StepEnd(m: Metrics, text: Text, start: nat, k: nat, st: Scan, ke: nat)
    requires start <= |text| && CharAt(text, start, k) != 0 && KnowsEnd(text, start, k, st, ke)
    ensures KnowsEnd(text, start, k + 1, ScannedAt(m, text, start, k, st), NextEnd(st, CharAt(text, start, k), k, ke))
  {
    hide Pos, CharAt, Advance, Stops;
  }

  lemma StepPrevious(m: Metrics, text: Text, start: nat, k: nat, st: Scan, ke: nat, kp: nat)
    requires start <= |text| && CharAt(text, start, k) != 0 && KnowsEnd(text, start, k, st, ke)
    requires var c := CharAt(text, start, k);
             (IsInk(c) && !st.inside) || (c != NEWLINE && KnowsPrevious(text, start, k, st, ke, kp))
    ensures var c := CharAt(text, start, k);
            KnowsPrevious(text, start, k + 1, ScannedAt(m, text, start, k, st), NextEnd(st, c, k, ke),
              NextPrevious(st, c, ke, kp))
  {
    hide Pos, CharAt, Advance, Stops;
  }

  lemma ReadOn(text: Text, start: nat, k: nat)
    requires start <= |text| && !Stops(text, Pos(text, start, k))
    ensures var p := Pos(text, start, k);
            CharAt(text, start, k) == Read(text, p).c != 0 && Pos(text, start, k + 1) == Next(text, p)
  {}

  lemma FitsOneMore(m: Metrics, text: Text, start: nat, wrapWidth: real, k: nat)
    requires start <= |text| && FitsUpTo(m, text, start, wrapWidth, k)
             && LineAt(m, text, start, k + 1).trimmed < wrapWidth
    ensures FitsUpTo(m, text, start, wrapWidth, k + 1)
  {
    hide LineAt;
  }

  /** A scan that does not overflow still fits after the character it read. */
  lemma StepFits(m: Metrics, text: Text, start: nat, wrapWidth: real, k: nat, st: Scan)
    requires start <= |text| && wrapWidth > 0.0 && CharAt(text, start, k) != 0
    requires FitsUpTo(m, text, start, wrapWidth, k) && KnowsWidths(m, text, start, k, st)
    requires KnowsWidths(m, text, start, k + 1, ScannedAt(m, text, start, k, st))
    ensures Overflows(ScannedAt(m, text, start, k, st), CharAt(text, start, k), wrapWidth)
            <==> !FitsUpTo(m, text, start, wrapWidth, k + 1)
    ensures Overflows(ScannedAt(m, text, start, k, st), CharAt(text, start, k), wrapWidth)
            ==> IsInk(CharAt(text, start, k)) && LineAt(m, text, start, k + 1).trimmed >= wrapWidth
  {
    hide LineAt, CharAt, IsSpace, IsPunctuation, Advance, Pos;
    assert LineAt(m, text, start, k).trimmed < wrapWidth;
    var st' := ScannedAt(m, text, start, k, st);
    if LineAt(m, text, start, k + 1).trimmed < wrapWidth {
      FitsOneMore(m, text, start, wrapWidth, k);
    }
  }

  /** The break is taken from the end of a word on the same line. */
  lemma BreakIsGood(m: Metrics, text: Text, start: nat, wrapWidth: real, k: nat, st: Scan, ke: nat, kp: nat)
    requires start <= |text| && FirstOverflow(m, text, start, wrapWidth, k)
    requires IsInk(CharAt(text, start, k)) && ke <= k && (st.inside ==> kp <= k)
    requires KnowsEnd(text, start, k, st, ke)
    requires !st.inside || KnowsPrevious(text, start, k, st, ke, kp)
    ensures var kb := NextPrevious(st, CharAt(text, start, k), ke, kp);
            && ScannedAt(m, text, start, k, st).prevWordEnd == Some(Pos(text, start, kb))
            && BreaksBetweenWords(m, text, start, wrapWidth, Pos(text, start, kb), kb, k)
  {
    hide CharAt, Advance, Pos, Stops, FirstOverflow;
  }

  /** The main result by induction along the text: what the scan knows carries it to a good position. */
  lemma {:induction false} ScanWraps(m: Metrics, text: Text, start: nat, wrapWidth: real, k: nat, st: Scan, ke: nat,
                                     kp: nat, kw: nat)
    requires start <= |text| && m.NeverBackwards() && wrapWidth > 0.0
    requires st.Within(start, Pos(text, start, k)) && Knows(m, text, start, wrapWidth, k, st, ke, kp, kw)
    ensures WellWrapped(m, text, start, wrapWidth, WrapFrom(m, text, start, Pos(text, start, k), st, wrapWidth))
    decreases |text| - Pos(text, start, k)
  {
    hide CharAt, Advance, Pos, Stops, Read, WrapFrom, KnowsWidths, KnowsWord, KnowsEnd, KnowsPrevious, FitsUpTo, LineAt,
      IsSpace, IsPunctuation, BreaksBetweenWords, CutsWideWord, Scanned;
    var s := Pos(text, start, k);
    WrapStep(m, text, start, s, st, wrapWidth);
    if Stops(text, s) {
      assert TakesAll(m, text, start, wrapWidth, s, k);
    } else {
      ReadOn(text, start, k);
      var c, st' := CharAt(text, start, k), ScannedAt(m, text, start, k, st);
      StepWidths(m, text, start, k, st);
      StepWord(m, text, start, k, st, kw);
      StepEnd(m, text, start, k, st, ke);
      StepFits(m, text, start, wrapWidth, k, st);
      if Overflows(st', c, wrapWidth) {
        OverflowBreaks(m, text, start, wrapWidth, k, st, ke, kp, kw);
      } else {
        StepLine(m, text, start, wrapWidth, k, st, ke, kp, kw);
        ScanWraps(m, text, start, wrapWidth, k
          + 1, st', NextEnd(st, c, k, ke), NextPrevious(st, c, ke, kp), NextWord(st, c, k, kw));
      }
    }
  }

  lemma StepLine(m: Metrics, text: Text, start: nat, wrapWidth: real, k: nat, st: Scan, ke: nat, kp: nat, kw: nat)
    requires start <= |text| && CharAt(text, start, k) != 0
    requires Knows(m, text, start, wrapWidth, k, st, ke, kp, kw)
    ensures var (c, st') := (CharAt(text, start, k), ScannedAt(m, text, start, k, st));
            st'.line > 0.0 ==> KnowsPrevious(text, start, k
              + 1, st', NextEnd(st, c, k, ke), NextPrevious(st, c, ke, kp))
  {
    hide CharAt, Advance, Pos, Stops, KnowsWord, KnowsEnd, KnowsPrevious, FitsUpTo, LineAt, IsSpace, IsPunctuation;
    var c, st' := CharAt(text, start, k), ScannedAt(m, text, start, k, st);
    if (IsInk(c) && !st.inside) || (c != NEWLINE && st.line > 0.0) {
      StepPrevious(m, text, start, k, st, ke, kp);
    }
  }

  lemma OverflowBreaks(m: Metrics, text: Text, start: nat, wrapWidth: real, k: nat, st: Scan, ke: nat, kp: nat, kw: nat)
    requires start <= |text| && m.NeverBackwards() && wrapWidth > 0.0 && !Stops(text, Pos(text, start, k))
    requires Knows(m, text, start, wrapWidth, k, st, ke, kp, kw)
    requires Overflows(ScannedAt(m, text, start, k, st), CharAt(text, start, k), wrapWidth)
    ensures WellWrapped(m, text, start, wrapWidth,
            BreakOf(ScannedAt(m, text, start, k, st), Pos(text, start, k), wrapWidth))
  {
    hide CharAt, Advance, Pos, Stops, KnowsPrevious, FitsUpTo, LineAt, IsSpace, IsPunctuation, BreaksBetweenWords;
    ReadOn(text, start, k);
    var c, st', s := CharAt(text, start, k), ScannedAt(m, text, start, k, st), Pos(text, start, k);
    StepWidths(m, text, start, k, st);
    StepWord(m, text, start, k, st, kw);
    StepFits(m, text, start, wrapWidth, k, st);
    assert FirstOverflow(m, text, start, wrapWidth, k);
    if st'.word >= wrapWidth {
      assert CutsWideWord(m, text, start, wrapWidth, s, kw, k);
    } else {
      PreviousBehind(text, start, k, st, ke, kp);
      BreakIsGood(m, text, start, wrapWidth, k, st, ke, kp);
    }
  }

  lemma PreviousBehind(text: Text, start: nat, k: nat, st: Scan, ke: nat, kp: nat)
    requires start <= |text|
    ensures KnowsPrevious(text, start, k, st, ke, kp) ==> kp <= k
  {}

  lemma StartKnows(m: Metrics, text: Text, start: nat, wrapWidth: real)
    requires start <= |text| && wrapWidth > 0.0
    ensures Knows(m, text, start, wrapWidth, 0, StartScan(start), 0, 0, 0)
  {
    assert KnowsWidths(m, text, start, 0, StartScan(start));
    assert FitsUpTo(m, text, start, wrapWidth, 0);
    assert KnowsWord(m, text, start, 0, StartScan(start), 0);
    assert KnowsEnd(text, start, 0, StartScan(start), 0);
  }

  /** The position given back for a line: everything up to it fits, and it is the end of the text, the
      last end of a word before the overflow, or a cut through a word too wide for a line. */
  lemma WrapsWell(m: Metrics, text: Text, start: nat, wrapWidth: real)
    requires start <= |text| && m.NeverBackwards() && wrapWidth > 0.0
    ensures WellWrapped(m, text, start, wrapWidth, WrapPosition(m, text, start, wrapWidth))
  {
    hide WellWrapped, WrapFrom;
    StartKnows(m, text, start, wrapWidth);
    ScanWraps(m, text, start, wrapWidth, 0, StartScan(start), 0, 0, 0);
  }

  lemma {:induction false} StopsForGood(m: Metrics, text: Text, start: nat, k: nat, j: nat)
    requires start <= |text| && Stops(text, Pos(text, start, k)) && k <= j
    ensures Pos(text, start, j) == Pos(text, start, k) && LineAt(m, text, start, j) == LineAt(m, text, start, k)
    decreases j - k
  {
    if k < j {
      StopsForGood(m, text, start, k, j - 1);
    }
  }

  /** The wrap position is the end of the text exactly when no line of it is too wide. */
  lemma TakesAllIff(m: Metrics, text: Text, start: nat, wrapWidth: real)
    requires start <= |text| && m.NeverBackwards() && wrapWidth > 0.0
    ensures Stops(text, WrapPosition(m, text, start, wrapWidth))
            <==> forall j: nat :: LineAt(m, text, start, j).trimmed < wrapWidth
  {
    hide LineAt, Pos, Stops, WrapPosition, MayBreak, Solid, InkWidth, SameLine;
    WrapsWell(m, text, start, wrapWidth);
    var r := WrapPosition(m, text, start, wrapWidth);
    if k: nat :| TakesAll(m, text, start, wrapWidth, r, k) {
      forall j: nat
        ensures LineAt(m, text, start, j).trimmed < wrapWidth
      {
        assert LineAt(m, text, start, k).trimmed < wrapWidth;
        if j > k {
          StopsForGood(m, text, start, k, j);
        }
      }
    } else if k: nat, o: nat :| BreaksBetweenWords(m, text, start, wrapWidth, r, k, o) {
      OverflowRefutes(m, text, start, wrapWidth, o);
      if Stops(text, r) {
        StopsForGood(m, text, start, k, o);
      }
    } else {
      var w: nat, o: nat :| CutsWideWord(m, text, start, wrapWidth, r, w, o);
      OverflowRefutes(m, text, start, wrapWidth, o);
    }
  }

  lemma OverflowRefutes(m: Metrics, text: Text, start: nat, wrapWidth: real, o: nat)
    requires start <= |text| && FirstOverflow(m, text, start, wrapWidth, o)
    ensures !forall j: nat :: LineAt(m, text, start, j).trimmed < wrapWidth
    ensures !Stops(text, Pos(text, start, o))
  {
    hide LineAt;
    assert LineAt(m, text, start, o + 1).trimmed >= wrapWidth;
  }

  // ----- The characters that count

  const PUNCTUATION := ".,;!?\""

  /** A line may be broken behind these, and at these blanks. */
  lemma BreakCharacters(c: nat)
    ensures IsPunctuation(c) <==> exists i :: 0 <= i < |PUNCTUATION| && PUNCTUATION[i] as int == c
    ensures IsSpace(c) <==> c == ' ' as int || c == '\t' as int || c == 0x3000
  {
    assert PUNCTUATION[0] == '.' && PUNCTUATION[1] == ',' && PUNCTUATION[2] == ';';
    assert PUNCTUATION[3] == '!' && PUNCTUATION[4] == '?' && PUNCTUATION[5] == '"';
  }
}
