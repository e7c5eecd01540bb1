# Dear ImGui drawing and the asset server, in Dafny

This project models the parts of the repository that keep books by hand, and proves what the books are for.

* **Draw lists** (`imgui/imgui_draw.cpp`). An `ImDrawList` turns a stream of calls (push a clip rectangle, draw a
  primitive, switch channels, ...) into a few large draw commands. `DrawState` gives each call as a function on the
  list's state, `DrawList` holds the class with its buffers and write pointers and proves that its methods compute
  those functions, `Renderer` proves that the back end's loop draws what `DrawState.Render` says. `Batching` compares
  all that with a list that does no batching at all: one tagged item per submission. There the buffers are values; in
  the code they are vectors, and switching channels copies their headers. `Storage` models headers and blocks,
  `ChannelBuffers` the channel calls on them, `Ownership` who owns which block, and `ListRuns` what whole runs draw
  then. `CommandBuffer` holds the one-buffer lemmas, `Primitives` the indices of the primitives, `Mesh` and
  `Watertight` how their triangles fit together, `IndexLimit` what the 16 bits of an index do to runs of them,
  `Vertices` their vertices one by one, `FewCommands` why there are few commands.
* **The embedded font** (`imgui/imgui_draw.cpp`). `Base85`, `LzFormat`, `LzStream`, `Decompressor`, `Adler32` and
  `FontLoader`: from the string literal through base 85 and an LZ77 byte code to the checked TTF bytes, with an
  exact description of the accepted inputs.
* **Text** (`imgui/imgui_draw.cpp`, `imgui/imgui.cpp`). `Utf8`, `FontTable`, `WordWrap`, `TextLayout`, `Lockstep`,
  `FineClip`, `TextRenderer` and `MeasuredText`: the UTF-8 reader, the glyph index, word wrapping, measuring, drawing,
  and what a measurement says about a drawing. `TightBox`, `NothingLost`, `PlainText` and `DrawnText` say what comes of
  it without following the loops: how large, where every character is placed, which of them are drawn, and where.
* **Curves** (`imgui/imgui_draw.cpp`). `Bezier`: recursive subdivision against the cubic itself, and how close it comes.
* **ImVector** (`imgui/imgui.h`). `Vector`: contents as a sequence, and what its growth costs over a whole run.
* **The asset server and its client** (`data-server/data.go`, `src/remtex.c`). `AssetCache` is the file cache with its
  debounced invalidation, as a machine whose threads interleave freely, `CacheUpdate` a run of it; `Transfer` is the
  burst of packets and the client's texture slot that puts the file together again; `ChangedFiles` is what becomes of
  a download when the file changes, and `TextureLife` which bytes the GPU gets over the whole life of a slot.

`Basics` holds the types that several modules share. Floats are reals; where the source relies on 16-bit or 32-bit
wrap-around the model has it too. Texture ids, callbacks and callback data are pointers, modelled as numbers with 0
for NULL. What the memory holds behind an input buffer, the uninitialised tail of a resized vector, anti-aliasing
normals and the result of a division by zero are parameters or arbitrary values.

Each `...Effect`, `...Step` and `...Keeps` lemma is one step of a main result; the main results are statements about
every input, every legal run or every interleaving.

## Where the code falls short of its promise

For each of these there is a theorem that says exactly when the promise holds, or an input that breaks it.

* `UpdateTextureID` throws away a command that still holds indices, because it does not test `ElemCount` as
  `UpdateClipRect` does: `BatchingPreservesMeaning` (drawn as submitted if and only if no update takes that branch),
  `RepeatedTextureLosesAPrimitive` (an input).
* A `Clear` while a channel other than 0 is current leaves the live buffers on memory that the channel's slot still
  points at (or that slot on freed memory), and a later `ChannelsSplit` that opens the slot writes there:
  `BatchingPreservesMeaning` and `SplitIsSafeIff` (when that happens), `ClearInsideSplitLosesAPrimitive` (an input).
* A channel keeps the clip rectangle and texture it was left with: `SwitchedDrawIsTaggedIff`.
* `AddConvexPolyFilled` reserves a wrong number of indices for fewer than two points: `FillReserveMatchesIff`.
* Indices wrap at 16 bits: `ShapeExactIff` (for one stroke, fill, quad or text) and `RunExactIff` (for runs of them) say
  when none does; anti-aliased primitives with 65536 vertices or more also lose count of the vertices: the last
  clause of `AddPolyline` and `AddConvexPolyFilled`.
* The subdivision of a curve can stop before its end: `EndReachedIff`, `PointCurveAppendsNothing`.
* Measuring and drawing disagree on characters beyond U+FFFF: `LockstepIff`, `WidthsAgreeIff`, `FourBytesOutOfStep`.
* `AddRemapChar` without overwriting tests for the opposite of its comment: `RemapKeepsExistingIff`. With overwriting
  it can leave characters with an advance of -1, or give dst an advance of 1: `RemapMeans`.
* `BuildLookupTable` replaces a negative advance: `AdvanceIsGlyphsIff`. Called again, as its comment allows, on a font
  without a space glyph it adds a TAB four fallback glyphs wide: `RebuildChangesNothingIff`.
* A file that changes while a client downloads it can arrive half old and half new: `BufferIsNewIff` and
  `PatchedDownloadIsNewIff` (when it is the new version), `ChangeInMidDownloadMixesVersions` (an input). A client that
  has finished downloading but not rendered yet misses the announcement altogether, and one whose file has grown
  while it was downloading never finishes: `ChangeIsNoticedIff`, `OneVersionLife`.
* `ImVector::reserve` by small amounts breaks the amortised bound: `RunPaidIff` (when), `TightReservesAreQuadratic`
  (how far).

## Model

| member | source | states |
|---|---|---|
| ListRuns.BatchingPreservesMeaning | imgui/imgui_draw.cpp:123-354 | for every legal run, down to headers and blocks: the channels own their buffers throughout if and only if no ChannelsSplit opened the slot of a channel that was current at a Clear; and as long as that is so, every channel draws the submitted items under the stack tops of their submission if and only if no texture update discarded a command that held indices |
| ListRuns.SplitIsSafeIff | imgui/imgui_draw.cpp:277-308 | in a run that has lost nothing, the frame a ChannelsSplit begins is drawn as submitted, whatever calls follow up to the next Clear or ChannelsSplit, if and only if the split does not reach the channel that was current at the last Clear outside channel 0 |
| ListRuns.ReuseEndsOwnership | imgui/imgui_draw.cpp:293-306 | a ChannelsSplit that does reach it leaves two channels on one block, or has written freed memory |
| ListRuns.ClearInsideSplitLosesAPrimitive | imgui/imgui_draw.cpp:123-136 | a frame cleared while channel 1 is current, then a frame of one primitive: the next ChannelsSplit loses it, though no texture update dropped anything |
| ListRuns.TidyRunsDrawWhatWasSubmitted | imgui/imgui_draw.cpp:123-354 | runs in which since the last Clear every push or pop of a texture changed the texture on top, or came before any explicit new command, NULL callback or merge, draw what was submitted unless a slot was reused, whatever earlier frames did; and merging their channels draws channel 0, then channel 1, and so on |
| ListRuns.CarefulRunsDrawWhatWasSubmitted | imgui/imgui_draw.cpp:123-354 | so it suffices that since the last Clear there was no explicit new command, no NULL callback and no merge |
| ListRuns.TextureChangesLoseNothing | imgui/imgui_draw.cpp:210-265 | and it suffices that since the last Clear every push and pop of a texture changed the texture on top, whatever else was called |
| ListRuns.RepeatedTextureLosesAPrimitive | imgui/imgui_draw.cpp:210-230 | draw, AddDrawCmd, draw, push of the texture on top: a legal run that draws three items of the six submitted |
| ListRuns.OwnedRun | imgui/imgui_draw.cpp:123-354 | in a run without reuse the code touches allocated memory only, and headers and blocks hold what the value model says |
| Ownership.SwitchKeeps | imgui/imgui_draw.cpp:344-354 | copying headers keeps the channels in use on blocks of their own, and leaves the slot of the current channel on the live or on freed memory |
| Ownership.ClearKeeps | imgui/imgui_draw.cpp:123-136 | a Clear outside channel 0 makes the current channel's slot an orphan and keeps the blocks of the channels below it |
| Ownership.SplitKeeps | imgui/imgui_draw.cpp:277-308 | a split that stays below the orphan opens channels on blocks of their own |
| Ownership.MergeKeeps | imgui/imgui_draw.cpp:310-342 | a merge appends the channels, read through their headers, in order, and disturbs no other block |
| Batching.SwitchedDrawIsTaggedIff | imgui/imgui_draw.cpp:344-354 | a primitive drawn right after entering a channel has the current clip rectangle and texture exactly if the channel was left under them |
| Batching.SubmissionIsTagged | imgui/imgui_draw.cpp:357-369 | the reference that batching is measured by: a primitive is one item for each of its indices, in order, a callback one item unless NULL, under the tops of the two stacks, behind what the current channel holds and in no other channel |
| FewCommands.FewCommandsRun | imgui/imgui_draw.cpp:165-342 | in every legal run that since the last Clear asked for no command of its own, merges included, no command but the last of a channel is empty; so each channel has at most one command more than the items it draws |
| Batching.PushedRectClips | imgui/imgui_draw.cpp:233-249 | the pushed rectangle is ordered and contains a pixel exactly if the requested one does and, with intersection, the one below it does |
| Batching.ImageLosesNothing | imgui/imgui_draw.cpp:961-976 | the push, draw and pop of AddImage discard no indices if the texture differs from the current one, or else (NULL on an empty stack) if no two neighbouring commands could have been one |
| CommandBuffer.RenderConcat | imgui/imgui_draw.cpp:310-342 | two buffers put together draw the first and then the second, provided the first consumes all its indices |
| CommandBuffer.UpdateClipRectEffect | imgui/imgui_draw.cpp:191-208 | a clip update never changes what the buffer draws, and leaves it open under the new clip rectangle |
| CommandBuffer.UpdateTextureIDEffect | imgui/imgui_draw.cpp:210-230 | a texture update leaves the drawing alone exactly if it does not remove a command with indices; otherwise the buffer draws less |
| CommandBuffer.UpdatesKeepNoTwins | imgui/imgui_draw.cpp:191-230 | updates never leave two neighbouring commands that could be one, and where there are none a texture update discards nothing |
| CommandBuffer.AddCallbackEffect | imgui/imgui_draw.cpp:175-187 | a callback is drawn once, behind everything so far, under the stack tops, and the buffer stays open |
| CommandBuffer.SubmitEffect | imgui/imgui_draw.cpp:357-369 | in a buffer that has lost no indices a submitted primitive is drawn last, under the stack tops; in any buffer the number of items drawn grows by its indices |
| CommandBuffer.TrimmedEffect | imgui/imgui_draw.cpp:317-325 | dropping an empty trailing command before a merge changes neither the drawing nor the index count |
| Renderer.RenderDrawList | imgui/imgui_impl_glfw_gl3.cpp:101-115 | the loop issues every command in order behind all items of the commands before it: its own callback once, or exactly its elemCount indices from the running offset on, each whole and under its own clip rectangle and texture; and that is what the command buffer stands for |
| DrawListClass.DrawList.AddCallback | imgui/imgui_draw.cpp:175-187 | the method performs the callback step and nothing else |
| DrawListClass.DrawList.UpdateClipRect | imgui/imgui_draw.cpp:191-208 | the method computes the clip update whose effect on drawings is proved above |
| DrawListClass.DrawList.UpdateTextureID | imgui/imgui_draw.cpp:210-230 | the method computes the texture update whose effect on drawings is proved above |
| DrawListClass.DrawList.PushClipRect | imgui/imgui_draw.cpp:233-249 | pushes the (intersected, ordered) rectangle and updates the last command |
| ChannelBuffers.ChannelList.Clear | imgui/imgui_draw.cpp:123-137 | empties the live vectors, keeps all blocks and all slots, and makes channel 0 current |
| ChannelBuffers.ChannelList.ChannelsSplit | imgui/imgui_draw.cpp:277-308 | the loop on headers: slot 0 wiped, new slots constructed, old ones emptied in their blocks, a first command pushed into each; wherever that touches allocated memory only |
| ChannelBuffers.ChannelList.ChannelsSetCurrent | imgui/imgui_draw.cpp:344-354 | copies four headers and no block |
| ChannelBuffers.ChannelList.ChannelsMerge | imgui/imgui_draw.cpp:310-342 | trims, counts, grows the live vectors once and copies channel after channel into their blocks |
| ChannelBuffers.PushBack | imgui/imgui.h:877-891 | appends in place if there is room, else in a larger block, freeing the old one |
| DrawListClass.DrawList.AppendChannel | imgui/imgui_draw.cpp:332-339 | copying one channel at the write positions extends the merged prefix by exactly that channel |
| DrawListClass.DrawList.PrimReserve | imgui/imgui_draw.cpp:357-369 | resizes by the given (possibly negative) counts, keeps what was there, moves the write pointers to the old ends and charges the last command |
| DrawListClass.DrawList.PrimRectUV | imgui/imgui_draw.cpp:387-400 | writes two triangles and four corner vertices at the write pointers and advances all three counters in step |
| DrawListClass.DrawList.AddImage | imgui/imgui_draw.cpp:961-976 | an invisible image does nothing; a visible one is one rectangle, indices and vertices, under its texture, pushed only if it is not on top |
| DrawListClass.DrawList.AddPolyline | imgui/imgui_draw.cpp:417-596 | every variant appends exactly its indices and its vertices, point by point with opaque and transparent colours, and fills its reserve; the vertex counter stays right exactly below 65536 vertices (always when not anti-aliased) |
| DrawListClass.DrawList.AddConvexPolyFilled | imgui/imgui_draw.cpp:598-679 | both variants append exactly their indices and vertices and fill their reserve; the vertex counter stays right exactly below 65536 vertices |
| Vertices.StrokeSizes | imgui/imgui_draw.cpp:417-596 | without anti-aliasing four vertices and six indices for each segment, with it three vertices for each point and twelve indices for each segment, or four and eighteen for strokes thicker than 1 |
| Vertices.StrokeVertexAt | imgui/imgui_draw.cpp:470-568 | vertex by vertex of an anti-aliased stroke: which are on the points, which in full colour and which transparent |
| Vertices.SegmentVertexAt | imgui/imgui_draw.cpp:572-594 | vertex by vertex of a plain stroke: four corners for each segment in full colour |
| Vertices.FillVertexAt | imgui/imgui_draw.cpp:604-679 | vertex by vertex of a fill: the points themselves, or for each point an inner vertex in full colour and a transparent outer one |
| Vertices.ColourParts | imgui/imgui.h:1052-1061 | a colour is invisible exactly if its alpha is 0, and its transparent form differs in alpha only |
| Primitives.StrokeWithin | imgui/imgui_draw.cpp:417-596 | below the 16-bit limit every index of a stroke is one of the stroke's own vertices |
| Primitives.FillWithin | imgui/imgui_draw.cpp:598-679 | below the 16-bit limit every index of a filled polygon is one of its own vertices |
| Primitives.FillCovers | imgui/imgui_draw.cpp:604-660 | every vertex of an anti-aliased fill is used by some triangle |
| Watertight.ClosedStrokeHasNoCracks | imgui/imgui_draw.cpp:430-568 | three points or more: an edge belongs to one triangle if and only if it is on a rim, to two if and only if it is inside, never to more |
| Watertight.ClosedPairHasNoRim | imgui/imgui_draw.cpp:430-568 | two points: the stroke lies on itself, every edge belongs to an even number of triangles |
| Watertight.OpenStrokeHasNoCracks | imgui/imgui_draw.cpp:430-568 | an edge belongs to one triangle if and only if it is on a rim or an end, to two if and only if it is inside |
| Watertight.FanHasNoCracks | imgui/imgui_draw.cpp:662-679 | plain fill: an edge belongs to one triangle if and only if it is a side of the polygon, to two if and only if it is a diagonal from the first point |
| Watertight.FringedFillHasNoCracks | imgui/imgui_draw.cpp:604-659 | anti-aliased fill: an edge belongs to one triangle if and only if it is a side of the outer polygon, to two if and only if it is a side of the inner one or lies inside fan or fringe |
| IndexLimit.ShapeExactIff | imgui/imgui_draw.cpp:357-679 | no index of a stroke, fill, quad or text differs from the number of the vertex it means if and only if its vertices end by 65536 or it has no triangle |
| IndexLimit.RunExactIff | imgui/imgui_draw.cpp:357-679 | after any run of primitives on an empty list, with the vertex counter as the code keeps it, every index is the vertex meant if and only if each primitive with a triangle ends by vertex 65536 |
| IndexLimit.RunWithin | imgui/imgui_draw.cpp:357-679 | then the indices of each primitive are vertices of its own, those behind all vertices of the primitives before |
| Primitives.FanTriangle | imgui/imgui_draw.cpp:612-619 | triangle t of the fan joins point 0 with points t+1 and t+2 |
| Primitives.FillReserveMatchesIff | imgui/imgui_draw.cpp:604-679 | the reserved index count is what is written exactly from two points on |
| Primitives.QuadWithinIff | imgui/imgui_draw.cpp:402-415 | for every vertex counter, a quad's indices are its own vertices exactly if they end by 65536 |
| Adler32.StbAdler32 | imgui/imgui_draw.cpp:2252-2281 | for every 32-bit start value and every buffer the blocked sums give the byte-at-a-time checksum of section 2.2 of RFC 1950 |
| Adler32.AdlerConcat | imgui/imgui_draw.cpp:2252-2281 | a checksum continued over a second buffer is that of the concatenation |
| Adler32.AdlerIsTwoSums | imgui/imgui_draw.cpp:2252-2281 | the two halves are 1 plus the byte sum, and the sum of all values the first half took, modulo 65521 |
| Adler32.BlockFitsWord | imgui/imgui_draw.cpp:2257-2276 | within a block of 5552 bytes neither sum leaves 32 bits before it is reduced |
| LzFormat.CopyRepeats | imgui/imgui_draw.cpp:2213-2220 | a match at distance d, longer than d or not, gives out[k] = out[k-d] |
| LzFormat.ParsedAdvances | imgui/imgui_draw.cpp:2235-2250 | every token adds at least one byte to the output and takes at most six bytes of input for each |
| LzFormat.DecodeReads | imgui/imgui_draw.cpp:2283-2315 | the verdict and the output depend on at most 22 + 6 * length bytes of input |
| LzStream.ParsePrint | imgui/imgui_draw.cpp:2231-2250 | a token printed in any fitting form is read back, and exactly its bytes are consumed |
| LzStream.PrintParse | imgui/imgui_draw.cpp:2231-2250 | every token that can be read is the print of the form its first byte announces |
| LzStream.StreamDecodes | imgui/imgui_draw.cpp:2283-2315 | header, printed tokens, end mark and checksum decode to the tokens' meaning |
| LzStream.DecodeAcceptsExactlyStreams | imgui/imgui_draw.cpp:2283-2315 | the decoder returns data if and only if the input is the stream of some token list that means that data |
| LzStream.PrintedLength | imgui/imgui_draw.cpp:2235-2250 | tokens take at most six input bytes for each output byte, and there are no more tokens than output bytes |
| LzStream.TokenBytes | imgui/imgui_draw.cpp:2235-2250 | the bytes of the nearest and shortest and of the farthest and longest copy in each of the six forms |
| LzStream.LiteralBytes | imgui/imgui_draw.cpp:2235-2250 | the bytes in front of the literals in each of the three forms |
| LzStream.StreamBytes | imgui/imgui_draw.cpp:2283-2316 | the first twelve bytes of an accepted stream, and the six behind its tokens |
| LzStream.ValidIff | imgui/imgui_draw.cpp:2213-2229 | a token list means something exactly if each token fits its form and no copy reaches back beyond the first byte produced |
| DecompressorClass.Decompressor.Match | imgui/imgui_draw.cpp:2213-2220 | a match that fits and reaches produced bytes only is copied forward; any other stores nothing and leaves the position past the barrier |
| DecompressorClass.Decompressor.Token | imgui/imgui_draw.cpp:2235-2250 | performs the token at the input position, or stays put where none starts; nothing behind the barrier is written |
| DecompressorClass.Decompressor.Decompress | imgui/imgui_draw.cpp:2283-2315 | for every memory content returns the declared length with the decoded bytes in place, or 0, and writes nothing behind the declared length |
| Base85.Decode85 | imgui/imgui_draw.cpp:1187-1197 | writes the decoded groups, in exactly the size the caller allocates, and nothing else |
| Base85.GroupBijective | imgui/imgui_draw.cpp:1187-1193 | among the groups over the alphabet with a 32-bit value exactly one decodes to a given four bytes |
| Base85.AlphabetInOrder | imgui/imgui_draw.cpp:1187 | the 85 digits are the characters from # to x in their order, without the backslash |
| Base85.DigitsInOrder | imgui/imgui_draw.cpp:1187 | how any other character is read: in the same order, the backslash like the character before it, those from 128 on as negative |
| Base85.GroupIsNumber | imgui/imgui_draw.cpp:1188-1197 | five characters and their four bytes stand for one number, least significant first in both, but for what 32 bits cut off |
| Base85.DecodeEncode | imgui/imgui_draw.cpp:1188-1197 | decoding undoes encoding for every length divisible by four |
| FontLoader.LoadCompressedBase85 | imgui/imgui_draw.cpp:1248-1268 | allocates by the declared length and, where the stream decodes, yields its data |
| FontLoader.LoadsWhatWasPacked | imgui/imgui_draw.cpp:1187-1268 | any token list packed with any padding and encoded in base 85 loads as the data it means |
| Utf8.ReadExactly | imgui/imgui.cpp:1050-1106 | a character other than U+FFFD is read exactly where its encoding after section 3 of RFC 3629 stands |
| Utf8.ReadEncoded | imgui/imgui.cpp:1050-1106 | the encoding of every scalar value is read back with its length, whatever follows |
| Utf8.ReadIsEncoded | imgui/imgui.cpp:1050-1106 | overlong forms, surrogates and values past U+10FFFF are never read as characters |
| Utf8.ReadMalformed | imgui/imgui.cpp:1050-1106 | where no character is spelt: nothing is taken if the byte starts none, else U+FFFD is read and as many bytes taken as announced, or one if there are not so many |
| FontTable.LastGlyph | imgui/imgui_draw.cpp:1742-1747 | the search that the index replaces: the last glyph with the codepoint, or none exactly if no glyph has it |
| FontTable.FindsWhatSearchFinds | imgui/imgui_draw.cpp:1807-1816 | on a built table FindGlyph gives the last glyph of the list for the character, else that of the fallback character |
| FontTable.AdvanceIsGlyphsIff | imgui/imgui.h:1390 | the indexed advance is that of the glyph found (0 if none) exactly if that glyph's advance is not negative or is the fallback's |
| FontTable.BuildOnlyChangesTab | imgui/imgui_draw.cpp:1749-1761 | TAB becomes the space glyph (or the stale fallback glyph) with four times its advance; every other character keeps its glyph |
| FontTable.RebuildChangesNothingIff | imgui/imgui_draw.cpp:1732-1775 | building again, with any fallback character, gives what building once with it gives if and only if there is a space glyph, or no fallback glyph was found before, or the list already ends in the TAB made of that fallback glyph |
| FontTable.Font.BuildLookupTable | imgui/imgui_draw.cpp:1732-1769 | the passes over glyphs and index leave the table that search describes, with the TAB made of the space glyph, or of the stale fallback glyph if there is no space |
| FontTable.Font.GrowIndex | imgui/imgui_draw.cpp:1777-1790 | grows both indexes with empty entries, never shrinks them, keeps what was there |
| FontTable.Font.AddRemapChar | imgui/imgui_draw.cpp:1792-1805 | the method computes the remapping whose meaning the next two lemmas give |
| FontTable.RemapMeans | imgui/imgui_draw.cpp:1792-1805 | with overwriting dst is found as src is and every other character as before; characters grown over get the advance -1, and dst the advance 1 if src lies beyond the index |
| FontTable.RemapKeepsExistingIff | imgui/imgui_draw.cpp:1792-1805 | without overwriting an existing glyph survives exactly if src has the same one, and an empty slot stays empty |
| WordWrap.CalcWordWrapPositionA | imgui/imgui_draw.cpp:1818-1914 | the loop computes the scan's position for every text, malformed UTF-8 and NUL included |
| WordWrap.BreakCharacters | imgui/imgui_draw.cpp:1901 | a line may be broken behind the six characters . , ; ! ? " and at the blanks space, TAB and U+3000 |
| WordWrap.WrapsWell | imgui/imgui_draw.cpp:1818-1914 | every line before the position, measured to its last non-blank, is narrower than the wrap width; and the position is the text's end, or the last end of a word before the first overflow, or a cut through a word too wide for a line |
| WordWrap.TakesAllIff | imgui/imgui_draw.cpp:1818-1914 | the position is the end of the text exactly if no line of it is too wide |
| TextLayout.CalcTextSizeA | imgui/imgui_draw.cpp:1916-2008 | width, height and remaining position are those of the layout walk, with wrapping, blank skipping and max_width |
| TightBox.HeightIsTight | imgui/imgui_draw.cpp:1928-2002 | the height is that of the line ends passed (wraps and newlines), plus one line exactly if the last line has width or there was no line end |
| TightBox.WidthIsTight | imgui/imgui_draw.cpp:1928-2000 | the width is 0 or some character ends right there, and if no advance is negative none ends farther right |
| PlainText.PlainTextIsMeasured | imgui/imgui_draw.cpp:1916-2008 | correctly spelt text without wrapping, from its characters alone: where each one is placed, and the height by counting newlines |
| NothingLost.NothingIsLost | imgui/imgui_draw.cpp:1916-2008 | any bytes, wrapped or not: each character is placed right behind the one before it or at the start of a later line; only carriage returns, line ends and blanks get no place, blanks only where a line ends; a wrapped line never starts with a blank |
| NothingLost.SkipsBlanks | imgui/imgui_draw.cpp:1952-1957 | wrapping skips all the blanks there are, and then one newline if there is one |
| NothingLost.SkipsToLineEnd | imgui/imgui_draw.cpp:2045-2047 | skipping a line stops at the first newline |
| Lockstep.LockstepIff | imgui/imgui_draw.cpp:1916-2195 | measuring and drawing make the same marks at the same offsets on the same lines, wrapped or not, exactly if every character met has the same width in both |
| Lockstep.WidthsAgreeIff | imgui/imgui_draw.cpp:2119-2122 | with a built font the widths agree exactly below U+10000, or where the glyph it is mistaken for is as wide as the fallback |
| Lockstep.BasicTextInLockstep | imgui/imgui_draw.cpp:1916-2195 | with a built font, text without four-byte characters is always measured and drawn in lockstep |
| Lockstep.FourBytesOutOfStep | imgui/imgui_draw.cpp:2120 | U+10041 is measured with the fallback's width and drawn with the letter A's |
| Lockstep.MarksInBox | imgui/imgui_draw.cpp:1996-2007 | every measured character lies within the measured width and, unless it has no width at a line start, on a counted line |
| Lockstep.LimitCutsNothingIff | imgui/imgui_draw.cpp:1988-1993 | max_width changes nothing exactly if every character of the unlimited text ends before it |
| Lockstep.WrappedTextFits | imgui/imgui_draw.cpp:1935-1962 | in a wrapped text every non-blank character ends before the wrap width or stands at the start of its line |
| Lockstep.LineIsWrappedWell | imgui/imgui_draw.cpp:1935-1942 | each line that begins is wrapped where the scan for the full wrap width wants it, or after one byte if that is at once |
| FineClip.ClippingKeepsTexture | imgui/imgui_draw.cpp:2140-2168 | a glyph is drawn exactly if it shares height with the clip rectangle, what is drawn is the intersection, with the whole glyph's texture map at the new corners |
| FineClip.DivisionByZeroIsDiscarded | imgui/imgui_draw.cpp:2140-2168 | the outcome never depends on a division by zero, glyphs without extent included |
| TextRenderer.RenderText | imgui/imgui_draw.cpp:2026-2195 | after over-reserving and giving back, the list holds exactly one quad per drawn glyph and nothing else has changed; its counters are settled even if they were not before |
| DrawnText.DrawsWhatReaches | imgui/imgui_draw.cpp:2119-2178 | of the characters that the walk comes by, one quad each, in order, for just those that have a glyph, are neither space nor TAB, reach the clip rectangle from left and right and, finely clipped, keep some height: whole, or cut to the rectangle |
| DrawnText.PlainTextIsDrawn | imgui/imgui_draw.cpp:2026-2195 | correctly spelt text without wrapping, from its characters to its quads, in positions: those whose line touches the clip rectangle and whose glyph reaches it; skipping lines and stopping early change nothing |
| DrawnText.QuadInBuffers | imgui/imgui_draw.cpp:2170-2182 | quad k of a text has four vertices of its own, clockwise, and two triangles on them |
| DrawnText.StartsAtWholePixel | imgui/imgui_draw.cpp:2031-2033 | the text starts at its position cut towards zero to whole pixels, displaced by the font |
| TextRenderer.WriteText | imgui/imgui_draw.cpp:2060-2187 | the loop writes the quads of the drawing walk one after the other inside what was reserved |
| TextRenderer.DrawnCornersKeepTexture | imgui/imgui_draw.cpp:2138-2178 | the four vertices of a drawn glyph go around a rectangle and carry the whole glyph's texture coordinates at their positions, clipped or not |
| TextRenderer.TextWithin | imgui/imgui_draw.cpp:2172-2173 | below the 16-bit limit the indices of a text are its own vertices |
| MeasuredText.DrawsWhatIsMeasured | imgui/imgui_draw.cpp:1916-2195 | RenderText draws the glyphs where CalcTextSizeA counted them, if the clip rectangle leaves the measured height alone |
| MeasuredText.DrawnInMeasuredBox | imgui/imgui_draw.cpp:1916-2195 | if no character drawn of this text sticks out of its advance and line by more than a margin, nor stands on a last line that does not count for its lack of width, the drawing does not stick out of the measured box by more, finely clipped or not |
| MeasuredText.FontKeepsInk | imgui/imgui_draw.cpp:1996-2007 | that holds of every text if all drawn glyphs of the font (space and TAB never are) stay within their advance and line and move the pen |
| MeasuredText.InklessSpaceIsFine | imgui/imgui_draw.cpp:2123 | a font whose space has no ink meets the condition on fonts with margin 0 |
| MeasuredText.BuiltIsSound | imgui/imgui_draw.cpp:1732-1769 | every position that FindGlyph reads from a built table is a glyph of the list |
| Bezier.HalvesOnCurve | imgui/imgui_draw.cpp:736-747 | the two halves of a subdivision are the curve on [0, 1/2] and on [1/2, 1] |
| Bezier.CasteljauOnCurve | imgui/imgui_draw.cpp:725-749 | every appended point lies on the curve at a strictly increasing multiple of 1/1024; a call at level L appends at most 2^(10-L) |
| Bezier.AutoTessellationOnCurve | imgui/imgui_draw.cpp:751-757 | the auto-tessellated curve has at most 1024 points, all on the curve in order |
| Bezier.EndPointAtOnceIff | imgui/imgui_draw.cpp:725-745 | in coordinates: a piece becomes its end point exactly if the two inner control points together are off the chord by less than the tolerance; else it is halved, or dropped on the tenth level |
| Bezier.ReplacedPieceIsClose | imgui/imgui_draw.cpp:727-736 | no point of a replaced piece is off its chord by more than 4/9 of what the tolerance allows |
| Bezier.ClosePieceIsReplaced | imgui/imgui_draw.cpp:727-736 | a piece is replaced at once if twice the farther control point is close enough |
| Bezier.TessellationIsClose | imgui/imgui_draw.cpp:725-749 | with each appended point goes a stretch of the curve that ends there and is that close to the straight line to it; the stretches do not overlap |
| Bezier.FixedStepsOnCurve | imgui/imgui_draw.cpp:761-772 | n equal steps are n points, the i-th at i n-ths of the curve, the last at its end |
| Bezier.EndReachedIff | imgui/imgui_draw.cpp:725-749 | the end point is appended exactly if one of the last pieces, down to the tenth halving, is flat |
| Bezier.PointCurveAppendsNothing | imgui/imgui_draw.cpp:725-749 | a curve whose control points coincide appends no point at all |
| Bezier.PathBuilder.PathBezierToCasteljau | imgui/imgui_draw.cpp:725-749 | the recursive method appends the points of the subdivision to the path |
| Bezier.PathBuilder.PathBezierCurveTo | imgui/imgui_draw.cpp:751-773 | appends the subdivision's points, or the points at the given number of equal steps, to the path |
| Vector.RunAmortised | imgui/imgui.h:877-895 | in every run whose own reserves ask for nothing new or for half as much again, copies stay within three times the capacity; so within 24, or six for each element of the largest size, or three for each element asked for |
| Vector.RunPaidIff | imgui/imgui.h:877-895 | a run keeps within three copies per element of capacity throughout if and only if each reserve that grows the vector asks for at least a third of the copies made by then, its own included |
| Vector.StepPaidIff | imgui/imgui.h:877-895 | one call keeps that bound exactly if it is no growing reserve for fewer than a third of the copies made by then, its own included; the vector's own growth always keeps it |
| Vector.TightReservesAreQuadratic | imgui/imgui.h:880-891 | reserving one more before each of n pushes copies n(n-1)/2 elements |
| Vector.CapacitiesAreSeries | imgui/imgui.h:877-895 | n pushes end with the first of the capacities 8, 12, 18, 27, ... that holds them, n insertions with the first of 4, 8, 16, ...; each smaller capacity was copied once, when full |
| Vector.ResizedCapacity | imgui/imgui.h:877-879 | resizing takes the size asked for, or half as much again as there was, whichever is more, and nothing if it fits |
| Vector.ImVector.Reserve | imgui/imgui.h:880-889 | grows the buffer to the given capacity, keeping the contents, and copies exactly the elements held |
| Vector.ImVector.PushBack | imgui/imgui.h:891 | appends one element at the amortised cost |
| Vector.ImVector.InsertAt | imgui/imgui.h:895 | inserts one element in place, shifting the rest |
| Vector.ImVector.EraseAt | imgui/imgui.h:894 | removes one element, closing the gap |
| AssetCache.ConstructFileMap | data-server/data.go:118-141 | builds the map from name hash to file, or ends the process exactly if two files collide |
| AssetCache.HashOfPath | data-server/data.go:160-165 | a file is listed under the hash of its name, between the last slash and the last dot: a polynomial in 33, cut to 32 bits |
| AssetCache.RequestServes | data-server/data.go:221-262 | which requests end the server, and what any other leaves: the hash cached, as it was or with the present content of its file, and nothing else changed but a map of files built anew; a heartbeat changes nothing |
| AssetCache.StepKeeps | data-server/data.go:167-265 | every step of every thread keeps the invariant: on each listed open channel waiters minus tokens plus firing goroutines is at least 1, and every outdated entry has its deletion still to come |
| AssetCache.CacheCoherent | data-server/data.go:167-265 | under every interleaving a cached entry is the file's content, or its write event is queued, or a goroutine is bound to delete it |
| AssetCache.SettledCacheIsFresh | data-server/data.go:167-265 | once the queue is empty and no goroutine is left, everything cached is current |
| CacheUpdate.RewrittenFileIsServed | data-server/data.go:167-262 | from any server at rest: a listed file written any number of times in a row is taken out of the cache once, by the last goroutine, and the next request caches what was written last; every other entry stays |
| AssetCache.SendsFindOpenChannel | data-server/data.go:174-195 | the watcher never sends an abort on a closed channel |
| Transfer.SendData | data-server/data.go:285-313 | the packet for every offset, with its payload, and whether it is the last |
| Transfer.SendBurst | data-server/data.go:265-283 | the loop sends the burst of at most 50 packets from the requested offset on |
| Transfer.BurstTiles | data-server/data.go:270-280 | the packets of a burst tile the file from the offset on: consecutive, in order, without gap or overlap |
| Transfer.RemTexSlot.OnReceive | src/remtex.c:154-188 | the slot takes up a packet, or ignores it, as the receive step says, for every packet that does not make the code write past the buffer |
| Transfer.ServerNeverOverruns | src/remtex.c:169-173 | no packet of the server does that, whatever state the client is in |
| Transfer.ReceiveKeepsPrefix | src/remtex.c:154-178 | any packet of the file keeps a correct prefix and correct or blank bytes behind it |
| Transfer.ReceiveAll | src/remtex.c:154-178 | the same after any sequence of packets of the file, with losses, repetitions and reorderings |
| Transfer.BurstReceived | data-server/data.go:270-280 | a burst requested at the client's first missing byte and received whole moves that byte on by 51200, or to the end |
| Transfer.DownloadIsTheFile | src/remtex.c:154-178 | packets lost, repeated or reordered: the counted prefix is the file's, and a finished download is the file |
| Transfer.RoundsNeeded | data-server/data.go:270-280 | without loss a download is finished after exactly the file's length divided by 51200, rounded up, requests |
| TextureLife.EachTextureIsOneVersionIff | src/remtex.c:132-188 | for every interleaving of packets of two versions, announcements and render steps, each texture given to the GPU is the download of what arrived since the one before; it is the new version, or one of the two and no mixture, if and only if the packets taken since then say so position by position |
| TextureLife.OneVersionLife | src/remtex.c:132-188 | while only one version arrives, a client that fits it goes on fitting it and gives the GPU nothing else; a client with too small a buffer, or too much in it, never gives the GPU anything |
| TextureLife.OnlyHandsOverIff | src/remtex.c:132-188 | when only one version arrives from now on, nothing else ever reaches the GPU if and only if what the client holds fits that version or can never be finished with it |
| TextureLife.ChangeIsNoticedIff | src/remtex.c:132-188 | a file changes and the change is announced: only the new version reaches the GPU afterwards if and only if the announcement finds the file in use, or finished but equal to the new version, or unfinished with nothing there, or with a buffer that the new version never finishes, or agreeing with it so far |
| ChangedFiles.HoldsLastBytes | src/remtex.c:154-178 | whatever packets of two versions arrive, whatever their lengths and order and at whatever stage, the buffer holds at each position the byte of the last packet taken that covers it |
| ChangedFiles.BufferIsNewIff | src/remtex.c:154-188 | so a finished download is the new version if and only if the buffer has its length and at each position the last packet taken brought its byte |
| ChangedFiles.RestartedDownloadIsNew | src/remtex.c:154-188 | a client that holds no data when the change is announced ends up with the new version, whatever parts of it follow |
| ChangedFiles.PatchedDownloadIsNewIff | src/remtex.c:154-178 | a client that goes on downloading across a change of the same length ends up with the new version if and only if the versions agree on what it already had |
| ChangedFiles.AnnouncementRestartsIff | src/remtex.c:178-187 | the announcement of a change restarts a download exactly if the file was already in use, and changes nothing else |
| ChangedFiles.IgnoresOtherPackets | src/remtex.c:154-188 | packets for other files change nothing; nor do any in the stages empty and downloaded, nor those in use that are no announcements, nor announcements during a download |
| ChangedFiles.TakesPart | src/remtex.c:154-178 | every part that fits is copied to its place, the count moves on exactly if it is the part awaited, and the download is finished exactly when the count is the size |
| ChangedFiles.ChangeInMidDownloadMixesVersions | src/remtex.c:154-188 | a download across a change can finish with bytes of both versions |

## Left out

- Float rounding: positions, advances and curve points are reals. The clip comparison by `memcmp` is equality, so 0 and -0 do not differ.
- Vertex positions of strokes and fringes: the anti-aliasing normals are a parameter; indices, counts and order are modelled.
- 32-bit overflow of `ElemCount`, `_VtxCurrentIdx` and buffer sizes; 16-bit index wrap is modelled.
- IM_ASSERT in the decompressor is taken as compiled out, so that its error returns are reached.
- Arcs, circles, rounded rectangles and the Add functions that only build a path and stroke or fill it.
- DrawListClass.DrawList.AddPolyline and AddConvexPolyFilled take vertex positions beyond the points themselves from a parameter.
- `ClearFreeMemory`, `AddText`'s own clip intersection, `RenderChar`, `DeIndexAllBuffers`, `ScaleClipRects`.
- `NULL` text ends (strlen) and formats: a text is a sequence of bytes.
- FontTable.Font.BuildLookupTable: what the stale FallbackGlyph points to, in a buffer that may have been freed, is a parameter; and if a TAB is added the index must have a slot for it, as the source's own range check demands.
- FontTable.Font.SetFallbackChar: the same.
- TextLayout.CalcTextSizeA: FLT_MAX as max_width is `None`; a font size of 0 is excluded.
- Font atlas building, rectangle packing and the TrueType rasteriser.
- Sockets, RPC, HTTPS, process launching and the file-system watcher itself: packets and events are values.
- Batching.BatchingKeepsValues: buffers are values there; the memory behind them is the subject of `ListRuns`. The same goes for `ChannelsSplit`, `ChannelsSetCurrent` and `ChannelsMerge` of `DrawListClass.DrawList`, whose counterparts on headers are those of `ChannelBuffers.ChannelList`.
- Storage: block names are never used again, so a header of freed memory never comes to point at a new block; touching freed memory ends the run.
- AssetCache.CacheCoherent: files are written but never deleted, renamed or created during a run, every file of the watched directory matches the glob, and a file is read in one step.
- CacheUpdate.RewrittenFileIsServed: one order of steps, with every write before the timer of the one before it runs out; other orders are the subject of `AssetCache`.
- PlainText.PlainTextIsMeasured: texts without wrapping that are spelt correctly; all others are the subject of `TightBox` and `NothingLost`.
- DrawnText.PlainTextIsDrawn: the same, and lines of no negative height; what is drawn of other texts is stated over the characters of the drawing walk.
- AssetCache.SendsFindOpenChannel: says nothing about a goroutine that closes a channel twice; such a run ends in the state `stopped`. Strict debounce timing, exactly-once firing and freedom from blocking are not claimed.
- Transfer.RoundsNeeded: an empty file is excluded; the client never finishes one.
- Transfer.RemTexSlot.OnReceive: one slot of the client's table, without the scan over slots; a packet whose 32-bit sum of offset and size passes the size test while the sum itself is too large, which makes the code write past its buffer, is excluded.
- TextureLife.ChangeIsNoticedIff: the file changes once, after its first version alone has arrived; late packets of the old version are the subject of `EachTextureIsOneVersionIff`. Loading the texture into OpenGL is not modelled.
- Base85.Decode85: the length of the string must be divisible by five; for any other the source reads past its end.
- DrawListClass.DrawList.AddConvexPolyFilled: fewer than two points are excluded; see `FillReserveMatchesIff`.
- `art-watcher`, the Lua, litehtml and demo code.
