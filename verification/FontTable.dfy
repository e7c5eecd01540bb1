/** ImFont's glyph index: the table that BuildLookupTable makes must find what a search through the glyph
    list would find. */
module FontTable {
  import opened Basics

  /** ImWchar is an unsigned short. */
  type Wchar = c: nat | c < 0x10000

  datatype Glyph = Glyph(codepoint: Wchar, xAdvance: real,
                         x0: real, y0: real, x1: real, y1: real, u0: real, v0: real, u1: real, v1: real)

  /** Where a font's glyphs are found.  `fallback` is the position of FallbackGlyph in the list. */
  datatype Table = Table(glyphs: seq<Glyph>, xAdvance: seq<real>, lookup: seq<nat>,
                         fallback: Option<nat>, fallbackXAdvance: real)

  /** (unsigned short)-1 */
  const NO_GLYPH := 0xFFFF
  const SPACE: Wchar := 0x20
  const TAB: Wchar := 0x09

  // ----- What the table is for

  /** The last glyph that stands for c, by searching the list. */
  function LastGlyph(glyphs: seq<Glyph>, c: Wchar): (i: Option<nat>)
    ensures i.Some? ==> i.value < |glyphs| && glyphs[i.value].codepoint == c
    ensures i.Some? ==> forall k :: i.value < k < |glyphs| ==> glyphs[k].codepoint != c
    ensures i.None? ==> forall k :: 0 <= k < |glyphs| ==> glyphs[k].codepoint != c
  {
    var n := |glyphs|;
    if n == 0 then None else if glyphs[n - 1].codepoint == c then Some(n - 1) else LastGlyph(glyphs[..n - 1], c)
  }

  function Or<T>(a: Option<T>, b: Option<T>): Option<T> {
    if a.Some? then a else b
  }

  function AdvanceOf(glyphs: seq<Glyph>, i: Option<nat>): real
    requires i.Some? ==> i.value < |glyphs|
  {
    if i.Some? then glyphs[i.value].xAdvance else 0.0
  }

  /** The glyph that TAB is made from: the space glyph.  Without one, FindGlyph(' ') gives what FallbackGlyph
      points to, and that is left over from an earlier build. */
  function TabSource(glyphs: seq<Glyph>, stale: Option<Glyph>): Option<Glyph> {
    var space := LastGlyph(glyphs, SPACE);
    if space.Some? then Some(glyphs[space.value]) else stale
  }

  function TabOf(g: Glyph): Glyph {
    g.(codepoint := TAB, xAdvance := g.xAdvance * 4.0)
  }

  /** The glyph list with a glyph for TAB, four spaces wide, at its end. */
  function WithTab(glyphs: seq<Glyph>, stale: Option<Glyph> := None): seq<Glyph> {
    var source := TabSource(glyphs, stale);
    var n := |glyphs|;
    if source.None? then glyphs
    else if n > 0 && glyphs[n - 1].codepoint == TAB then glyphs[..n - 1] + [TabOf(source.value)]
    else glyphs + [TabOf(source.value)]
  }

  /** The index has a slot for a TAB glyph. */
  predicate TabHasSlot(glyphs: seq<Glyph>, stale: Option<Glyph>) {
    TabSource(glyphs, stale).Some? ==> TAB <= MaxCodepoint(glyphs)
  }

  /** It has if there is a space. */
  lemma SpaceMakesSlot(glyphs: seq<Glyph>, stale: Option<Glyph>)
    ensures LastGlyph(glyphs, SPACE).Some? || stale.None? ==> TabHasSlot(glyphs, stale)
  {}

  function MaxCodepoint(glyphs: seq<Glyph>): (m: Wchar)
    ensures forall k :: 0 <= k < |glyphs| ==> glyphs[k].codepoint <= m
  {
    var n := |glyphs|;
    if n == 0 then 0
    else
      var m := MaxCodepoint(glyphs[..n - 1]);
      if m >= glyphs[n - 1].codepoint then m else glyphs[n - 1].codepoint
  }

  function Slot(i: Option<nat>): nat {
    if i.Some? then i.value else NO_GLYPH
  }

  /** A slot without a glyph, or with one that goes backwards, gets the advance of the fallback glyph. */
  function SlotAdvance(glyphs: seq<Glyph>, i: Option<nat>, fallbackXAdvance: real): real
    requires i.Some? ==> i.value < |glyphs|
  {
    if i.Some? && glyphs[i.value].xAdvance >= 0.0 then glyphs[i.value].xAdvance else fallbackXAdvance
  }

  function Build(glyphs: seq<Glyph>, fallbackChar: Wchar, stale: Option<Glyph> := None): Table {
    var g := WithTab(glyphs, stale);
    var size := MaxCodepoint(glyphs) + 1;
    var fallback := LastGlyph(g, fallbackChar);
    var fallbackXAdvance := AdvanceOf(g, fallback);
    Table(g,
          seq(size, c requires 0 <= c < size => SlotAdvance(g, LastGlyph(g, c), fallbackXAdvance)),
          seq(size, c requires 0 <= c < size => Slot(LastGlyph(g, c))),
          fallback, fallbackXAdvance)
  }

  // ----- How the table is read

  /** FindGlyph */
  function Find(t: Table, c: Wchar): Option<nat> {
    if c < |t.lookup| && t.lookup[c] != NO_GLYPH then Some(t.lookup[c]) else t.fallback
  }

  /** The advance as the measuring code reads it; it also asks for characters beyond 0xFFFF. */
  function Advance(t: Table, c: nat): real {
    if c < |t.xAdvance| then t.xAdvance[c] else t.fallbackXAdvance
  }

  // ----- Main results

  lemma LastGlyphIs(glyphs: seq<Glyph>, c: Wchar, i: nat)
    requires i < |glyphs| && glyphs[i].codepoint == c
    requires forall k :: i < k < |glyphs| ==> glyphs[k].codepoint != c
    ensures LastGlyph(glyphs, c) == Some(i)
  {}

  lemma WithTabKeepsOthers(glyphs: seq<Glyph>, c: Wchar, stale: Option<Glyph> := None)
    requires c != TAB || TabSource(glyphs, stale).None?
    ensures LastGlyph(WithTab(glyphs, stale), c) == LastGlyph(glyphs, c)
    ensures LastGlyph(glyphs, c).Some? ==>
              WithTab(glyphs, stale)[LastGlyph(glyphs, c).value] == glyphs[LastGlyph(glyphs, c).value]
  {
    hide TabSource;
    var g, n, last := WithTab(glyphs, stale), |glyphs|, LastGlyph(glyphs, c);
    if TabSource(glyphs, stale).Some? && last.Some? {
      assert last.value < n && g[last.value] == glyphs[last.value];
      LastGlyphIs(g, c, last.value);
    }
  }

  lemma WithTabEndsInTab(glyphs: seq<Glyph>, stale: Option<Glyph> := None)
    requires TabSource(glyphs, stale).Some?
    ensures var g := WithTab(glyphs, stale);
            && |glyphs| <= |g| <= |glyphs| + 1 && 0 < |g| && LastGlyph(g, TAB) == Some(|g| - 1)
            && g[|g| - 1] == TabOf(TabSource(glyphs, stale).value)
  {
    hide TabSource;
    var g := WithTab(glyphs, stale);
    LastGlyphIs(g, TAB, |g| - 1);
  }

  lemma BeyondMax(glyphs: seq<Glyph>, c: Wchar, stale: Option<Glyph> := None)
    requires c > MaxCodepoint(glyphs) && TabHasSlot(glyphs, stale)
    ensures LastGlyph(WithTab(glyphs, stale), c).None?
  {
    hide TabSource;
    WithTabKeepsOthers(glyphs, c, stale);
  }

  /** The table refines the search: FindGlyph gives the last glyph of the list that stands for c, and the
      fallback glyph where there is none. */
  lemma FindsWhatSearchFinds(glyphs: seq<Glyph>, fallbackChar: Wchar, c: Wchar, stale: Option<Glyph> := None)
    requires |glyphs| < NO_GLYPH && TabHasSlot(glyphs, stale)
    ensures var t := Build(glyphs, fallbackChar, stale);
            && Find(t, c) == Or(LastGlyph(t.glyphs, c), LastGlyph(t.glyphs, fallbackChar))
            && (Find(t, c).Some? ==> Find(t, c).value < |t.glyphs|)
  {
    hide WithTab, LastGlyph, MaxCodepoint, TabSource, TabHasSlot;
    WithTabLength(glyphs, stale);
    if c > MaxCodepoint(glyphs) {
      BeyondMax(glyphs, c, stale);
    }
  }

  lemma WithTabLength(glyphs: seq<Glyph>, stale: Option<Glyph> := None)
    ensures |glyphs| <= |WithTab(glyphs, stale)| <= |glyphs| + 1
  {}

  /** The advance that is read from the table is that of the glyph FindGlyph gives (0 if none), unless that
      glyph goes backwards by another amount than the fallback glyph. */
  lemma AdvanceIsGlyphsIff(glyphs: seq<Glyph>, fallbackChar: Wchar, c: Wchar, stale: Option<Glyph> := None)
    requires |glyphs| < NO_GLYPH && TabHasSlot(glyphs, stale)
    ensures var t := Build(glyphs, fallbackChar, stale);
            && (Find(t, c).Some? ==> Find(t, c).value < |t.glyphs|)
            && (Advance(t, c) == AdvanceOf(t.glyphs, Find(t, c)) <==>
                || AdvanceOf(t.glyphs, Find(t, c)) >= 0.0
                || AdvanceOf(t.glyphs, Find(t, c)) == AdvanceOf(t.glyphs, LastGlyph(t.glyphs, fallbackChar)))
  {
    hide WithTab, LastGlyph, MaxCodepoint, TabSource, TabHasSlot;
    WithTabLength(glyphs, stale);
    if c > MaxCodepoint(glyphs) {
      BeyondMax(glyphs, c, stale);
    }
  }

  /** Outside the TAB glyph the built list finds what the list it was built from finds; TAB is the space
      glyph with four times its advance. */
  lemma BuildOnlyChangesTab(glyphs: seq<Glyph>, c: Wchar, stale: Option<Glyph> := None)
    ensures var (g, source) := (WithTab(glyphs, stale), TabSource(glyphs, stale));
            if c == TAB && source.Some? then
              LastGlyph(g, TAB).Some?
              && g[LastGlyph(g, TAB).value]
                 == source.value.(codepoint := TAB, xAdvance := 4.0 * source.value.xAdvance)
            else
              LastGlyph(g, c) == LastGlyph(glyphs, c)
              && (LastGlyph(g, c).Some? ==> g[LastGlyph(g, c).value] == glyphs[LastGlyph(glyphs, c).value])
  {
    if c == TAB && TabSource(glyphs, stale).Some? {
      WithTabEndsInTab(glyphs, stale);
    } else {
      WithTabKeepsOthers(glyphs, c, stale);
    }
  }

  /** All glyphs are kept but a TAB at the end, so the greatest codepoint stays. */
  lemma WithTabKeepsMax(glyphs: seq<Glyph>, stale: Option<Glyph> := None)
    requires TabHasSlot(glyphs, stale)
    ensures MaxCodepoint(WithTab(glyphs, stale)) == MaxCodepoint(glyphs)
  {
    hide TabSource;
    var g, n := WithTab(glyphs, stale), |glyphs|;
    if TabSource(glyphs, stale).Some? {
      if n > 0 && glyphs[n - 1].codepoint == TAB {
        assert g[..n - 1] == glyphs[..n - 1];
      } else {
        assert g[..n] == glyphs;
      }
    }
  }

  lemma WithTabTwice(glyphs: seq<Glyph>, stale: Option<Glyph> := None)
    requires LastGlyph(glyphs, SPACE).Some?
    ensures WithTab(WithTab(glyphs), stale) == WithTab(glyphs)
  {
    WithTabEndsInTab(glyphs);
    WithTabKeepsOthers(glyphs, SPACE);
    var g := WithTab(glyphs);
    assert g == g[..|g| - 1] + [g[|g| - 1]];
  }

  /** The function is meant to be called again: a second build, with whatever fallback character, gives the table that
      building with that character in the first place gives, if and only if there is a space glyph, or the first
      build has found no fallback glyph, or the list ends in the very TAB that comes of the fallback glyph.
      Otherwise the second build adds a TAB four fallback glyphs wide. */
  lemma RebuildChangesNothingIff(glyphs: seq<Glyph>, fallbackChar: Wchar, newFallbackChar: Wchar,
                                 stale: Option<Glyph>)
    requires TabHasSlot(glyphs, stale)
    ensures var rebuilt := Build(Build(glyphs, fallbackChar).glyphs, newFallbackChar, stale);
            rebuilt == Build(glyphs, newFallbackChar)
            <==> LastGlyph(glyphs, SPACE).Some? || stale.None? || EndsIn(glyphs, TabOf(stale.value))
  {
    hide LastGlyph, MaxCodepoint;
    if LastGlyph(glyphs, SPACE).Some? {
      WithTabTwice(glyphs, stale);
      SpaceMakesSlot(glyphs, None);
      WithTabKeepsMax(glyphs);
    } else if stale.Some? && EndsIn(glyphs, TabOf(stale.value)) {
      assert glyphs == glyphs[..|glyphs| - 1] + [glyphs[|glyphs| - 1]];
    }
  }

  predicate EndsIn(glyphs: seq<Glyph>, g: Glyph) {
    |glyphs| > 0 && glyphs[|glyphs| - 1] == g
  }

  // ----- Remapping

  function Grown(t: Table, newSize: nat): Table {
    var more := if newSize <= |t.lookup| then 0 else newSize - |t.lookup|;
    t.(xAdvance := t.xAdvance + seq(more, _ => -1.0), lookup := t.lookup + seq(more, _ => NO_GLYPH))
  }

  function Remapped(t: Table, dst: Wchar, src: Wchar, overwrite: bool): Table
    requires |t.xAdvance| == |t.lookup|
  {
    var size := |t.lookup|;
    if dst < size && t.lookup[dst] == NO_GLYPH && !overwrite then t
    else if src >= size && dst >= size then t
    else
      var g := Grown(t, dst + 1);
      g.(lookup := g.lookup[dst := if src < size then t.lookup[src] else NO_GLYPH],
         xAdvance := g.xAdvance[dst := if src < size then t.xAdvance[src] else 1.0])
  }

  /** With overwriting, dst becomes whatever src is, and no other character is found differently; but the
      characters that the index grows over lose the fallback advance, and if src lies beyond the index dst gets
      the advance 1 instead of the fallback's. */
  lemma RemapMeans(t: Table, dst: Wchar, src: Wchar, c: Wchar)
    requires |t.xAdvance| == |t.lookup|
    ensures var r := Remapped(t, dst, src, true);
            && Find(r, c) == (if c == dst then Find(t, src) else Find(t, c))
            && (src < |t.lookup| ==>
                  Advance(r, c) ==
                  if c == dst then Advance(t, src) else if |t.lookup| <= c < dst then -1.0 else Advance(t, c))
            && (src >= |t.lookup| ==>
                  Advance(r, c) == if c == dst && dst < |t.lookup| then 1.0 else Advance(t, c))
  {}

  /** Without overwriting, a character that has a glyph was to keep it.  The test is the wrong way round: such a
      character keeps its glyph only if src has the same one, and one that has a slot but no glyph gets none. */
  lemma RemapKeepsExistingIff(t: Table, dst: Wchar, src: Wchar)
    requires |t.xAdvance| == |t.lookup| && dst < |t.lookup|
    ensures var r := Remapped(t, dst, src, false);
            if t.lookup[dst] == NO_GLYPH then r == t
            else Find(r, dst) == Find(t, dst) <==> Find(t, src) == Find(t, dst)
  {}

  // ----- The class

  class Font {
    var glyphs: seq<Glyph>
    var indexXAdvance: seq<real>
    var indexLookup: seq<nat>
    var fallbackGlyph: Option<nat>
    var fallbackXAdvance: real
    var fallbackChar: Wchar

    ghost function View(): Table
      reads this
    {
      Table(glyphs, indexXAdvance, indexLookup, fallbackGlyph, fallbackXAdvance)
    }

    function FindGlyph(c: Wchar): (i: Option<nat>)
      reads this
      ensures i == Find(View(), c)
    {
      if c < |indexLookup| then
        var i := indexLookup[c];
        if i != NO_GLYPH then Some(i) else fallbackGlyph
      else fallbackGlyph
    }

    function GetCharAdvance(c: Wchar): (a: real)
      reads this
      ensures a == Advance(View(), c)
    {
      if c < |indexXAdvance| then indexXAdvance[c] else fallbackXAdvance
    }

    method GrowIndex(newSize: nat)
      requires |indexXAdvance| == |indexLookup|
      modifies `indexXAdvance, `indexLookup
      ensures var more := if newSize <= old(|indexLookup|) then 0 else newSize - old(|indexLookup|);
              && indexXAdvance == old(indexXAdvance) + seq(more, _ => -1.0)
              && indexLookup == old(indexLookup) + seq(more, _ => NO_GLYPH)
    {
      var oldSize := |indexLookup|;
      if newSize <= oldSize {
        return;
      }
      var x: real := *;
      var l: nat := *;
      indexXAdvance := indexXAdvance + seq(newSize - oldSize, _ => x);
      indexLookup := indexLookup + seq<nat>(newSize - oldSize, _ => l);
      for i := oldSize to newSize
        invariant |indexXAdvance| == |indexLookup| == newSize
        invariant indexXAdvance[..oldSize] == old(indexXAdvance) && indexLookup[..oldSize] == old(indexLookup)
        invariant forall k :: oldSize <= k < i ==> indexXAdvance[k] == -1.0 && indexLookup[k] == NO_GLYPH
      {
        indexXAdvance := indexXAdvance[i := -1.0];
        indexLookup := indexLookup[i := NO_GLYPH];
      }
    }

    /** The index holds every glyph of the first n. */
    ghost predicate Indexed(n: nat, size: nat)
      requires n <= |glyphs| && size <= 0x10000
      reads this
    {
      && |indexLookup| == |indexXAdvance| == size
      && (forall c: Wchar :: c < size ==> indexLookup[c] == Slot(LastGlyph(glyphs[..n], c)))
      && (forall c: Wchar :: c < size ==> indexXAdvance[c] == RawAdvance(glyphs[..n], LastGlyph(glyphs[..n], c)))
    }

    method IndexGlyphs(size: nat)
      requires size == MaxCodepoint(glyphs) + 1
      modifies `indexXAdvance, `indexLookup
      ensures Indexed(|glyphs|, size)
    {
      hide LastGlyph, MaxCodepoint, RawAdvance;
      indexXAdvance, indexLookup := [], [];
      GrowIndex(size);
      NothingFound(glyphs);
      MaxIsMax(glyphs);
      for i := 0 to |glyphs|
        invariant Indexed(i, size)
      {
        FoundNext(glyphs, i);
        var codepoint := glyphs[i].codepoint;
        indexXAdvance := indexXAdvance[codepoint := glyphs[i].xAdvance];
        indexLookup := indexLookup[codepoint := i];
      }
    }

    /** FindGlyph(' ') as the source reads it: a pointer to the glyph, or what FallbackGlyph points to. */
    function SpaceGlyph(stale: Option<Glyph>): Option<Glyph>
      requires forall c: Wchar :: c < |indexLookup| && indexLookup[c] != NO_GLYPH ==> indexLookup[c] < |glyphs|
      reads this
    {
      if SPACE < |indexLookup| && indexLookup[SPACE] != NO_GLYPH then Some(glyphs[indexLookup[SPACE]]) else stale
    }

    /** The space glyph becomes the last of the list, as TAB. */
    method PutTab(size: nat, stale: Option<Glyph>)
      requires size <= 0x10000 && Indexed(|glyphs|, size) && 0 < |glyphs| < NO_GLYPH
      requires TabSource(glyphs, stale).Some? && (LastGlyph(glyphs, SPACE).Some? ==> SPACE < size)
      modifies `glyphs
      ensures glyphs == WithTab(old(glyphs), stale)
    {
      hide LastGlyph, RawAdvance;
      assert glyphs[..|glyphs|] == glyphs;
      if glyphs[|glyphs| - 1].codepoint != TAB {
        var garbage: Glyph := *;
        glyphs := glyphs + [garbage];
      }
      var tab := SpaceGlyph(stale).value;
      tab := tab.(codepoint := TAB);
      tab := tab.(xAdvance := tab.xAdvance * 4.0);
      glyphs := glyphs[|glyphs| - 1 := tab];
    }

    method AddTab(size: nat, stale: Option<Glyph>)
      requires size == MaxCodepoint(glyphs) + 1 && Indexed(|glyphs|, size) && |glyphs| < NO_GLYPH
      requires TabHasSlot(glyphs, stale)
      modifies `glyphs, `indexXAdvance, `indexLookup
      ensures glyphs == WithTab(old(glyphs), stale) && Indexed(|glyphs|, size)
    {
      hide LastGlyph, MaxCodepoint, RawAdvance, WithTab, TabOf;
      TabIndexed(glyphs, stale);
      assert glyphs[..|glyphs|] == glyphs;
      assert SpaceGlyph(stale).Some? <==> TabSource(glyphs, stale).Some?;
      if SpaceGlyph(stale).Some? {
        PutTab(size, stale);
        indexXAdvance := indexXAdvance[TAB := glyphs[|glyphs| - 1].xAdvance];
        indexLookup := indexLookup[TAB := |glyphs| - 1];
      }
      assert glyphs[..|glyphs|] == glyphs;
    }

    /** `stale` is what FallbackGlyph points to meanwhile: a glyph of an earlier build, if there was one, in a buffer
        that may have been freed since.  The TAB must have a slot in the index. */
    method BuildLookupTable(stale: Option<Glyph>)
      requires |glyphs| < NO_GLYPH && (stale.Some? <==> fallbackGlyph.Some?) && TabHasSlot(glyphs, stale)
      modifies this
      ensures View() == Build(old(glyphs), fallbackChar, stale) && fallbackChar == old(fallbackChar)
    {
      hide LastGlyph, WithTab, MaxCodepoint, Build, SlotAdvance, RawAdvance, Find, TabSource, TabHasSlot;
      var maxCodepoint := FindMaxCodepoint();
      var size: nat := maxCodepoint as int + 1;
      IndexGlyphs(size);
      AddTab(size, stale);
      fallbackGlyph := None;
      fallbackGlyph := FindGlyph(fallbackChar);
      assert glyphs[..|glyphs|] == glyphs;
      FallbackFound(old(glyphs), View(), fallbackChar, stale);
      fallbackXAdvance := if fallbackGlyph.Some? then glyphs[fallbackGlyph.value].xAdvance else 0.0;
      ApplyFallback();
      IsBuilt(old(glyphs), View(), fallbackChar, stale);
    }

    method FindMaxCodepoint() returns (maxCodepoint: Wchar)
      ensures maxCodepoint == MaxCodepoint(glyphs)
    {
      maxCodepoint := 0;
      for i := 0 to |glyphs|
        invariant maxCodepoint == MaxCodepoint(glyphs[..i])
      {
        assert glyphs[..i + 1][..i] == glyphs[..i];
        maxCodepoint := if maxCodepoint >= glyphs[i].codepoint then maxCodepoint else glyphs[i].codepoint;
      }
      assert glyphs[..|glyphs|] == glyphs;
    }

    method ApplyFallback()
      requires |indexXAdvance| > 0
      modifies `indexXAdvance
      ensures |indexXAdvance| == old(|indexXAdvance|)
      ensures forall c :: 0 <= c < |indexXAdvance| ==>
                indexXAdvance[c] == if old(indexXAdvance)[c] < 0.0 then fallbackXAdvance else old(indexXAdvance)[c]
    {
      for i := 0 to |indexXAdvance|
        invariant |indexXAdvance| == old(|indexXAdvance|) && indexXAdvance[i..] == old(indexXAdvance)[i..]
        invariant forall c :: 0 <= c < i ==>
                    indexXAdvance[c] == if old(indexXAdvance)[c] < 0.0 then fallbackXAdvance else old(indexXAdvance)[c]
      {
        if indexXAdvance[i] < 0.0 {
          indexXAdvance := indexXAdvance[i := fallbackXAdvance];
        }
      }
    }

    method AddRemapChar(dst: Wchar, src: Wchar, overwriteDst: bool)
      requires |indexXAdvance| == |indexLookup|
      modifies `indexXAdvance, `indexLookup
      ensures View() == Remapped(old(View()), dst, src, overwriteDst)
    {
      var indexSize := |indexLookup|;
      if dst < indexSize && indexLookup[dst] == NO_GLYPH && !overwriteDst {
        return;
      }
      if src >= indexSize && dst >= indexSize {
        return;
      }
      GrowIndex(dst + 1);
      indexLookup := indexLookup[dst := if src < indexSize then indexLookup[src] else NO_GLYPH];
      indexXAdvance := indexXAdvance[dst := if src < indexSize then indexXAdvance[src] else 1.0];
    }

    method SetFallbackChar(c: Wchar, stale: Option<Glyph>)
      requires |glyphs| < NO_GLYPH && (stale.Some? <==> fallbackGlyph.Some?) && TabHasSlot(glyphs, stale)
      modifies this
      ensures View() == Build(old(glyphs), c, stale) && fallbackChar == c
    {
      fallbackChar := c;
      BuildLookupTable(stale);
    }
  }

  /** The advance that the first pass writes. */
  function RawAdvance(glyphs: seq<Glyph>, i: Option<nat>): real
    requires i.Some? ==> i.value < |glyphs|
  {
    if i.Some? then glyphs[i.value].xAdvance else -1.0
  }

  lemma NothingFound(glyphs: seq<Glyph>)
    ensures forall c: Wchar ::
              LastGlyph(glyphs[..0], c) == None && RawAdvance(glyphs[..0], LastGlyph(glyphs[..0], c)) == -1.0
  {}

  lemma MaxIsMax(glyphs: seq<Glyph>)
    ensures forall k :: 0 <= k < |glyphs| ==> glyphs[k].codepoint <= MaxCodepoint(glyphs)
  {}

  /** Glyph i is the last of its character among the first i + 1, and of no other. */
  lemma FoundNext(glyphs: seq<Glyph>, i: nat)
    requires i < |glyphs|
    ensures var (shorter, longer, own) := (glyphs[..i], glyphs[..i + 1], glyphs[i].codepoint);
            && LastGlyph(longer, own) == Some(i) && RawAdvance(longer, LastGlyph(longer, own)) == glyphs[i].xAdvance
            && forall c: Wchar :: c != own ==>
                 && LastGlyph(longer, c) == LastGlyph(shorter, c)
                 && RawAdvance(longer, LastGlyph(longer, c)) == RawAdvance(shorter, LastGlyph(shorter, c))
  {
    assert glyphs[..i + 1][..i] == glyphs[..i];
  }

  /** What the TAB glyph changes in the index. */
  lemma TabIndexed(glyphs: seq<Glyph>, stale: Option<Glyph>)
    requires TabHasSlot(glyphs, stale)
    ensures var g := WithTab(glyphs, stale);
            if TabSource(glyphs, stale).None? then g == glyphs
            else
              LastGlyph(g, TAB) == Some(|g| - 1) && TAB <= MaxCodepoint(glyphs) && |glyphs| > 0
              && RawAdvance(g, LastGlyph(g, TAB)) == g[|g| - 1].xAdvance
    ensures var g := WithTab(glyphs, stale);
            forall c: Wchar :: c != TAB ==>
              && LastGlyph(g, c) == LastGlyph(glyphs, c)
              && RawAdvance(g, LastGlyph(g, c)) == RawAdvance(glyphs, LastGlyph(glyphs, c))
    ensures var space := LastGlyph(glyphs, SPACE);
            space.Some? ==> SPACE <= MaxCodepoint(glyphs)
  {
    hide WithTab, TabSource;
    if TabSource(glyphs, stale).Some? {
      WithTabEndsInTab(glyphs, stale);
    } else {
      NoTab(glyphs, stale);
    }
    forall c: Wchar | c != TAB
      ensures LastGlyph(WithTab(glyphs, stale), c) == LastGlyph(glyphs, c)
      ensures RawAdvance(WithTab(glyphs, stale), LastGlyph(WithTab(glyphs, stale), c))
              == RawAdvance(glyphs, LastGlyph(glyphs, c))
    {
      WithTabKeepsOthers(glyphs, c, stale);
    }
  }

  ghost predicate Looked(glyphs: seq<Glyph>, t: Table, stale: Option<Glyph>) {
    && t.glyphs == WithTab(glyphs, stale) && |t.lookup| == MaxCodepoint(glyphs) + 1
    && forall c: Wchar :: c < |t.lookup| ==> t.lookup[c] == Slot(LastGlyph(t.glyphs, c))
  }

  lemma FallbackFound(glyphs: seq<Glyph>, t: Table, fallbackChar: Wchar, stale: Option<Glyph>)
    requires Looked(glyphs, t, stale) && |glyphs| < NO_GLYPH && TabHasSlot(glyphs, stale)
    ensures Find(t.(fallback := None), fallbackChar) == LastGlyph(t.glyphs, fallbackChar)
  {
    hide LastGlyph, WithTab, MaxCodepoint, TabSource, TabHasSlot;
    WithTabLength(glyphs, stale);
    if fallbackChar > MaxCodepoint(glyphs) {
      BeyondMax(glyphs, fallbackChar, stale);
    }
  }

  lemma IsBuilt(glyphs: seq<Glyph>, t: Table, fallbackChar: Wchar, stale: Option<Glyph>)
    requires Looked(glyphs, t, stale)
    requires t.fallback == LastGlyph(t.glyphs, fallbackChar) && t.fallbackXAdvance == AdvanceOf(t.glyphs, t.fallback)
    requires |t.xAdvance| == |t.lookup|
    requires forall c: Wchar :: c < |t.lookup| ==>
               var raw := RawAdvance(t.glyphs, LastGlyph(t.glyphs, c));
               t.xAdvance[c] == if raw < 0.0 then t.fallbackXAdvance else raw
    ensures t == Build(glyphs, fallbackChar, stale)
  {
    hide LastGlyph, WithTab, MaxCodepoint;
  }

  lemma NoTab(glyphs: seq<Glyph>, stale: Option<Glyph> := None)
    requires TabSource(glyphs, stale).None?
    ensures WithTab(glyphs, stale) == glyphs
  {}
}
