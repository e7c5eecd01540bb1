/** The ImDrawList class: each method is proved to perform the operation of the same name of
    `DrawState.Step`, and each primitive to write exactly the indices and vertices it reserved. */
module DrawListClass {
  import opened DrawState
  import opened CommandBuffer
  import opened Primitives

  datatype Vertex = Vertex(pos: Vec2, uv: Vec2, col: nat)

  /** ImVector::resize: what was there stays, new elements hold whatever the memory held. */
  method Resize<T(0)>(v: seq<T>, size: nat) returns (r: seq<T>)
    ensures |r| == size
    ensures size <= |v| ==> r == v[..size]
    ensures size > |v| ==> r[..|v|] == v
  {
    if size <= |v| {
      r := v[..size];
    } else {
      var garbage: T := *;
      r := v + seq(size - |v|, _ => garbage);
    }
  }

  /** Overwrites v from position `at` on. */
  function Spliced<T>(v: seq<T>, at: nat, chunk: seq<T>): (r: seq<T>)
    requires at + |chunk| <= |v|
    ensures |r| == |v| && r[..at + |chunk|] == v[..at] + chunk
  {
    v[..at] + chunk + v[at + |chunk|..]
  }

  function Transparent(col: nat): nat {
    col % 0x1000000
  }

  /** (col & IM_COL32_A_MASK) == 0 */
  predicate Invisible(col: nat) {
    col / 0x1000000 % 0x100 == 0
  }

  function StrokeKind(antiAliased: bool, thickness: real): Stroke {
    if !antiAliased then Plain else if thickness > 1.0 then Thick else Thin
  }

  /** Vertices of point i of an anti-aliased stroke; `at(i, j)` is temp_points[i * stride + j]. */
  function StrokePointVertices(kind: Stroke, p: Vec2, at: (int, int) -> Vec2, i: int, uv: Vec2,
                               col: nat): (s: seq<Vertex>)
    requires !kind.Plain?
    ensures |s| == kind.Vertices(1)
  {
    var trans := Transparent(col);
    if kind.Thin? then
      [Vertex(p, uv, col), Vertex(at(i, 0), uv, trans), Vertex(at(i, 1), uv, trans)]
    else
      [Vertex(at(i, 0), uv, trans), Vertex(at(i, 1), uv, col), Vertex(at(i, 2), uv, col), Vertex(at(i, 3), uv, trans)]
  }

  /** The four corners of segment i of a plain stroke. */
  function SegmentVertices(at: (int, int) -> Vec2, i: int, uv: Vec2, col: nat): (s: seq<Vertex>)
    ensures |s| == 4
  {
    [Vertex(at(i, 0), uv, col), Vertex(at(i, 1), uv, col), Vertex(at(i, 2), uv, col), Vertex(at(i, 3), uv, col)]
  }

  /** The vertices of the first k points, or segments, of a stroke. */
  function StrokeVertices(kind: Stroke, points: seq<Vec2>, at: (int, int) -> Vec2, uv: Vec2, col: nat,
                          k: nat): (s: seq<Vertex>)
    requires kind.Plain? || k <= |points|
    ensures |s| == kind.Vertices(k)
  {
    if k == 0 then []
    else
      StrokeVertices(kind, points, at, uv, col, k - 1)
      + if kind.Plain? then SegmentVertices(at, k - 1, uv, col)
        else StrokePointVertices(kind, points[k - 1], at, k - 1, uv, col)
  }

  /** An opaque inner and a transparent outer vertex for each of the first k points of a fill. */
  function FringeVertices(at: (int, int) -> Vec2, uv: Vec2, col: nat, k: nat): (s: seq<Vertex>)
    ensures |s| == k * 2
  {
    if k == 0 then []
    else
      FringeVertices(at, uv, col, k - 1)
      + [Vertex(at(k - 1, 0), uv, col), Vertex(at(k - 1, 1), uv, Transparent(col))]
  }

  function PointVertices(points: seq<Vec2>, uv: Vec2, col: nat): (s: seq<Vertex>)
    ensures |s| == |points|
  {
    seq(|points|, i requires 0 <= i < |points| => Vertex(points[i], uv, col))
  }

  function FillVertices(points: seq<Vec2>, at: (int, int) -> Vec2, uv: Vec2, col: nat, antiAliased: bool): seq<Vertex> {
    if antiAliased then FringeVertices(at, uv, col, |points|) else PointVertices(points, uv, col)
  }

  /** The draw list with buffers that are values.  So its ChannelsSplit, ChannelsSetCurrent and ChannelsMerge are the
      channel calls as they are meant, the loops of the source on buffers that nothing else can reach; how the
      source does them, by copying vector headers, is in `ChannelBuffers`, and `Ownership` proves that it comes to
      the same as long as each channel owns its blocks. */
  class DrawList {
    var cmdBuffer: seq<DrawCmd>
    var idxBuffer: seq<Index>
    var vtxBuffer: seq<Vertex>
    var vtxCurrentIdx: nat
    var vtxWrite: nat  // _VtxWritePtr - VtxBuffer.Data
    var idxWrite: nat  // _IdxWritePtr - IdxBuffer.Data
    var clipRectStack: seq<Rect>
    var textureIdStack: seq<Pointer>
    var channelsCurrent: nat
    var channelsCount: nat
    var channels: seq<Layer>

    ghost function View(): State
      reads this
    {
      State(Layer(cmdBuffer, idxBuffer), clipRectStack, textureIdStack, channelsCurrent, channelsCount, channels)
    }

    /** The write pointers stand at the ends of their buffers, and the next vertex gets the next number. */
    ghost predicate Settled()
      reads this
    {
      vtxWrite == |vtxBuffer| == vtxCurrentIdx && idxWrite == |idxBuffer|
    }

    constructor ()
      ensures View() == State(EMPTY_LAYER, [], [], 0, 1, []) && Settled()
    {
      cmdBuffer, idxBuffer, vtxBuffer := [], [], [];
      vtxCurrentIdx, vtxWrite, idxWrite := 0, 0, 0;
      clipRectStack, textureIdStack := [], [];
      channelsCurrent, channelsCount, channels := 0, 1, [];
    }

    method Clear()
      modifies this
      ensures View() == Step(old(View()), Op.Clear) && Settled()
    {
      cmdBuffer, idxBuffer, vtxBuffer := [], [], [];
      vtxCurrentIdx, vtxWrite, idxWrite := 0, 0, 0;
      clipRectStack, textureIdStack := [], [];
      channelsCurrent, channelsCount := 0, 1;
    }

    function GetCurrentClipRect(): Rect
      reads this
    {
      if |clipRectStack| > 0 then clipRectStack[|clipRectStack| - 1] else NULL_CLIP_RECT
    }

    function GetCurrentTextureId(): Pointer
      reads this
    {
      if |textureIdStack| > 0 then textureIdStack[|textureIdStack| - 1] else NULL
    }

    method AddDrawCmd()
      modifies `cmdBuffer
      ensures View() == Step(old(View()), NewCmd)
      ensures cmdBuffer == DrawState.AddDrawCmd(old(cmdBuffer), GetCurrentClipRect(), GetCurrentTextureId())
    {
      cmdBuffer := cmdBuffer + [DrawCmd(0, GetCurrentClipRect(), GetCurrentTextureId(), NULL, NULL)];
    }

    method AddCallback(callback: Pointer, callbackData: Pointer)
      modifies `cmdBuffer
      ensures View() == Step(old(View()), Callback(callback, callbackData))
    {
      hide DrawState.AddCallback, Step;
      if |cmdBuffer| == 0 || cmdBuffer[|cmdBuffer| - 1].elemCount != 0 || cmdBuffer[|cmdBuffer| - 1].callback != NULL {
        AddDrawCmd();
      }
      var last := |cmdBuffer| - 1;
      cmdBuffer := cmdBuffer[last := cmdBuffer[last].(callback := callback, callbackData := callbackData)];
      AddDrawCmd();
      CallbackCmds(old(cmdBuffer), GetCurrentClipRect(), GetCurrentTextureId(), callback, callbackData);
      CallbackStep(old(View()), callback, callbackData);
    }

    method UpdateClipRect()
      modifies `cmdBuffer
      ensures View() == ReclipTop(old(View()))
    {
      hide SplitSlots;
      var currClip := GetCurrentClipRect();
      var last := |cmdBuffer| - 1;
      if last < 0 || (cmdBuffer[last].elemCount != 0 && cmdBuffer[last].clip != currClip)
        || cmdBuffer[last].callback != NULL {
        AddDrawCmd();
        return;
      }
      if cmdBuffer[last].elemCount == 0 && last > 0 && cmdBuffer[last - 1].clip == currClip
         && cmdBuffer[last - 1].texture == GetCurrentTextureId() && cmdBuffer[last - 1].callback == NULL {
        cmdBuffer := cmdBuffer[..last];
      } else {
        cmdBuffer := cmdBuffer[last := cmdBuffer[last].(clip := currClip)];
      }
    }

    method UpdateTextureID()
      modifies `cmdBuffer
      ensures View() == RetextureTop(old(View()))
      ensures cmdBuffer != []
    {
      var currTexture := GetCurrentTextureId();
      var last := |cmdBuffer| - 1;
      if last < 0 || (cmdBuffer[last].elemCount != 0 && cmdBuffer[last].texture != currTexture)
        || cmdBuffer[last].callback != NULL {
        AddDrawCmd();
        return;
      }
      if last > 0 && cmdBuffer[last - 1].texture == currTexture
         && cmdBuffer[last - 1].clip == GetCurrentClipRect() && cmdBuffer[last - 1].callback == NULL {
        cmdBuffer := cmdBuffer[..last];
      } else {
        cmdBuffer := cmdBuffer[last := cmdBuffer[last].(texture := currTexture)];
      }
    }

    method PushClipRect(crMin: Vec2, crMax: Vec2, intersect: bool)
      modifies `cmdBuffer, `clipRectStack
      ensures View() == Step(old(View()), PushClip(crMin, crMax, intersect))
    {
      var cr := Rect(crMin.x, crMin.y, crMax.x, crMax.y);
      if intersect && |clipRectStack| > 0 {
        var current := clipRectStack[|clipRectStack| - 1];
        if cr.x < current.x { cr := cr.(x := current.x); }
        if cr.y < current.y { cr := cr.(y := current.y); }
        if cr.z > current.z { cr := cr.(z := current.z); }
        if cr.w > current.w { cr := cr.(w := current.w); }
      }
      cr := cr.(z := Max(cr.x, cr.z));
      cr := cr.(w := Max(cr.y, cr.w));
      clipRectStack := clipRectStack + [cr];
      UpdateClipRect();
    }

    method PopClipRect()
      requires |clipRectStack| > 0
      modifies `cmdBuffer, `clipRectStack
      ensures View() == Step(old(View()), PopClip)
    {
      clipRectStack := clipRectStack[..|clipRectStack| - 1];
      UpdateClipRect();
    }

    method PushTextureID(textureId: Pointer)
      modifies `cmdBuffer, `textureIdStack
      ensures View() == Step(old(View()), PushTexture(textureId))
      ensures cmdBuffer != [] && textureIdStack == old(textureIdStack) + [textureId]
    {
      textureIdStack := textureIdStack + [textureId];
      UpdateTextureID();
    }

    method PopTextureID()
      requires |textureIdStack| > 0
      modifies `cmdBuffer, `textureIdStack
      ensures View() == Step(old(View()), PopTexture)
    {
      textureIdStack := textureIdStack[..|textureIdStack| - 1];
      UpdateTextureID();
    }

    // ----- Channels

    method ChannelsSplit(n: nat)
      requires Ready(View(), Split(n))
      modifies `channels, `channelsCount
      ensures View() == Step(old(View()), Split(n))
    {
      ghost var before := channels;
      var oldCount := |channels|;
      if oldCount < n {
        channels := Resize(channels, n);
      }
      assert oldCount >= n ==> channels == before;
      channelsCount := n;
      channels := channels[0 := EMPTY_LAYER];
      var i := 1;
      while i < n
        modifies `channels
        invariant 1 <= i <= n && |channels| == (if oldCount < n then n else oldCount)
        invariant channels[0] == EMPTY_LAYER
        invariant forall k :: 1 <= k < i ==>
          channels[k] == Layer([FreshCmd(Last(clipRectStack), Last(textureIdStack))], [])
        invariant forall k :: n <= k < oldCount ==> channels[k] == before[k]
      {
        // a new slot is constructed, an old one is resized to nothing
        channels := channels[i := EMPTY_LAYER];
        if |channels[i].cmds| == 0 {
          var cmd := DrawCmd(0, clipRectStack[|clipRectStack| - 1], textureIdStack[|textureIdStack| - 1], NULL, NULL);
          channels := channels[i := channels[i].(cmds := channels[i].cmds + [cmd])];
        }
        i := i + 1;
      }
      assert channels == SplitSlots(before, n, Last(clipRectStack), Last(textureIdStack));
    }

    method ChannelsSetCurrent(k: nat)
      requires Ready(View(), Switch(k))
      modifies `cmdBuffer, `idxBuffer, `idxWrite, `channelsCurrent, `channels
      ensures View() == SetCurrent(old(View()), k)
      ensures old(idxWrite) == old(|idxBuffer|) ==> idxWrite == |idxBuffer|
    {
      if channelsCurrent == k {
        return;
      }
      channels := channels[channelsCurrent := Layer(cmdBuffer, idxBuffer)];
      channelsCurrent := k;
      cmdBuffer := channels[channelsCurrent].cmds;
      idxBuffer := channels[channelsCurrent].idxs;
      idxWrite := |idxBuffer|;
    }

    method ChannelsMerge()
      requires Ready(View(), MergeAll)
      modifies `cmdBuffer, `idxBuffer, `idxWrite, `channelsCurrent, `channelsCount, `channels
      ensures View() == Step(old(View()), MergeAll)
      ensures old(idxWrite) == old(|idxBuffer|) ==> idxWrite == |idxBuffer|
    {
      hide MergedCmds, MergedIdxs, TrimSlots;
      if channelsCount <= 1 {
        return;
      }
      ChannelsSetCurrent(0);
      MergeParked();
    }

    /** The rest of ChannelsMerge, with channel 0 live. */
    method MergeParked()
      requires channelsCurrent == 0 && 1 < channelsCount <= |channels|
      modifies `cmdBuffer, `idxBuffer, `idxWrite, `channelsCount, `channels
      ensures View() == Merge(old(View()))
      ensures idxWrite == |idxBuffer|
    {
      hide MergedCmds, MergedIdxs, Trimmed;
      ghost var layers := [Layer(cmdBuffer, idxBuffer)] + channels[1..channelsCount];
      var newCmdCount, newIdxCount := TrimAll(layers);
      AppendChannels(layers, newCmdCount, newIdxCount);
      MergedState(old(View()), layers);
      AddDrawCmd();
      channelsCount := 1;
    }

    /** Drop unused trailing commands and count what the other channels will add. */
    method TrimAll(ghost layers: seq<Layer>) returns (newCmdCount: nat, newIdxCount: nat)
      requires 1 < channelsCount <= |channels|
      requires layers == [Layer(cmdBuffer, idxBuffer)] + channels[1..channelsCount]
      modifies `cmdBuffer, `channels
      ensures channels == TrimSlots(old(channels), channelsCount)
      ensures forall k :: 1 <= k < channelsCount ==> channels[k] == Layer(Trimmed(layers[k].cmds), layers[k].idxs)
      ensures cmdBuffer == MergedCmds(layers[..1]) && idxBuffer == MergedIdxs(layers[..1])
      ensures |cmdBuffer| + newCmdCount == |MergedCmds(layers)| && |idxBuffer| + newIdxCount == |MergedIdxs(layers)|
    {
      MergedFirst(layers);
      if |cmdBuffer| > 0 && cmdBuffer[|cmdBuffer| - 1].elemCount == 0 {
        cmdBuffer := cmdBuffer[..|cmdBuffer| - 1];
      }
      newCmdCount, newIdxCount := TrimChannels(layers);
    }

    /** The first loop of ChannelsMerge: drop unused trailing commands and count what is left. */
    method TrimChannels(ghost layers: seq<Layer>) returns (newCmdCount: nat, newIdxCount: nat)
      requires 1 < channelsCount <= |channels| && |layers| == channelsCount
      requires forall k :: 1 <= k < channelsCount ==> layers[k] == channels[k]
      modifies `channels
      ensures channels == TrimSlots(old(channels), channelsCount)
      ensures forall k :: 1 <= k < channelsCount ==> channels[k] == Layer(Trimmed(layers[k].cmds), layers[k].idxs)
      ensures newCmdCount == |MergedCmds(layers)| - |MergedCmds(layers[..1])|
      ensures newIdxCount == |MergedIdxs(layers)| - |MergedIdxs(layers[..1])|
    {
      hide MergedCmds, MergedIdxs;
      newCmdCount, newIdxCount := 0, 0;
      var i := 1;
      while i < channelsCount
        invariant 1 <= i <= channelsCount && |channels| == old(|channels|)
        invariant forall k :: 0 <= k < |channels| ==>
          channels[k] == if 1 <= k < i then old(channels[k]).(cmds := Trimmed(old(channels[k]).cmds))
            else old(channels[k])
        invariant newCmdCount == |MergedCmds(layers[..i])| - |MergedCmds(layers[..1])|
        invariant newIdxCount == |MergedIdxs(layers[..i])| - |MergedIdxs(layers[..1])|
      {
        MergedNext(layers, i);
        var ch := channels[i];
        if |ch.cmds| > 0 && ch.cmds[|ch.cmds| - 1].elemCount == 0 {
          channels := channels[i := ch.(cmds := ch.cmds[..|ch.cmds| - 1])];
        }
        newCmdCount := newCmdCount + |channels[i].cmds|;
        newIdxCount := newIdxCount + |channels[i].idxs|;
        i := i + 1;
      }
      assert layers[..channelsCount] == layers;
    }

    /** The rest of ChannelsMerge: grow both buffers once and copy the channels in. */
    method AppendChannels(ghost layers: seq<Layer>, newCmdCount: nat, newIdxCount: nat)
      requires 1 < channelsCount <= |channels| && |layers| == channelsCount
      requires forall k :: 1 <= k < channelsCount ==> channels[k] == Layer(Trimmed(layers[k].cmds), layers[k].idxs)
      requires cmdBuffer == MergedCmds(layers[..1]) && idxBuffer == MergedIdxs(layers[..1])
      requires |cmdBuffer| + newCmdCount == |MergedCmds(layers)| && |idxBuffer| + newIdxCount == |MergedIdxs(layers)|
      modifies `cmdBuffer, `idxBuffer, `idxWrite
      ensures cmdBuffer == MergedCmds(layers) && idxBuffer == MergedIdxs(layers) && idxWrite == |idxBuffer|
    {
      hide MergedCmds, MergedIdxs;
      cmdBuffer := Resize(cmdBuffer, |cmdBuffer| + newCmdCount);
      idxBuffer := Resize(idxBuffer, |idxBuffer| + newIdxCount);
      var cmdWrite: nat := |cmdBuffer| - newCmdCount;
      idxWrite := |idxBuffer| - newIdxCount;
      var i := 1;
      while i < channelsCount
        invariant 1 <= i <= channelsCount
        invariant |cmdBuffer| == |MergedCmds(layers)| && |idxBuffer| == |MergedIdxs(layers)|
        invariant Merged(layers, i, cmdWrite)
      {
        cmdWrite := AppendChannel(layers, i, cmdWrite);
        i := i + 1;
      }
      assert layers[..channelsCount] == layers;
      assert cmdBuffer[..|cmdBuffer|] == cmdBuffer && idxBuffer[..|idxBuffer|] == idxBuffer;
    }

    /** The channels before i have been copied, and the write positions stand behind them. */
    ghost predicate Merged(layers: seq<Layer>, i: nat, cmdWrite: nat)
      requires i <= |layers|
      reads this
    {
      && cmdWrite == |MergedCmds(layers[..i])| <= |cmdBuffer| && cmdBuffer[..cmdWrite] == MergedCmds(layers[..i])
      && idxWrite == |MergedIdxs(layers[..i])| <= |idxBuffer| && idxBuffer[..idxWrite] == MergedIdxs(layers[..i])
    }

    method AppendChannel(ghost layers: seq<Layer>, i: nat, cmdStart: nat) returns (cmdWrite: nat)
      requires i < |channels| && i < |layers| && channels[i] == Layer(Trimmed(layers[i].cmds), layers[i].idxs)
      requires |cmdBuffer| == |MergedCmds(layers)| && |idxBuffer| == |MergedIdxs(layers)|
      requires Merged(layers, i, cmdStart)
      modifies `cmdBuffer, `idxBuffer, `idxWrite
      ensures |cmdBuffer| == old(|cmdBuffer|) && |idxBuffer| == old(|idxBuffer|)
      ensures Merged(layers, i + 1, cmdWrite)
    {
      cmdWrite := cmdStart;
      MergedNext(layers, i);
      MergedPrefix(layers, i + 1);
      var ch := channels[i];
      if |ch.cmds| > 0 {
        cmdBuffer := Spliced(cmdBuffer, cmdWrite, ch.cmds);
        cmdWrite := cmdWrite + |ch.cmds|;
      }
      if |ch.idxs| > 0 {
        idxBuffer := Spliced(idxBuffer, idxWrite, ch.idxs);
        idxWrite := idxWrite + |ch.idxs|;
      }
    }

    // ----- Reserving and writing

    /** Negative counts take primitives back, as long as nothing underflows. */
    method PrimReserve(idxCount: int, vtxCount: int)
      requires cmdBuffer != [] && Last(cmdBuffer).elemCount + idxCount >= 0
      requires |idxBuffer| + idxCount >= 0 && |vtxBuffer| + vtxCount >= 0
      modifies `cmdBuffer, `idxBuffer, `vtxBuffer, `idxWrite, `vtxWrite
      ensures cmdBuffer == Front(old(cmdBuffer))
              + [Last(old(cmdBuffer)).(elemCount := Last(old(cmdBuffer)).elemCount + idxCount)]
      ensures |idxBuffer| == old(|idxBuffer|) + idxCount && idxWrite == old(|idxBuffer|)
      ensures |vtxBuffer| == old(|vtxBuffer|) + vtxCount && vtxWrite == old(|vtxBuffer|)
      ensures idxCount >= 0 ==> idxBuffer[..idxWrite] == old(idxBuffer)
      ensures idxCount < 0 ==> idxBuffer == old(idxBuffer)[..|idxBuffer|]
      ensures vtxCount >= 0 ==> vtxBuffer[..vtxWrite] == old(vtxBuffer)
      ensures vtxCount < 0 ==> vtxBuffer == old(vtxBuffer)[..|vtxBuffer|]
    {
      var last := |cmdBuffer| - 1;
      cmdBuffer := cmdBuffer[last := cmdBuffer[last].(elemCount := cmdBuffer[last].elemCount + idxCount)];
      vtxWrite := |vtxBuffer|;
      vtxBuffer := Resize(vtxBuffer, |vtxBuffer| + vtxCount);
      idxWrite := |idxBuffer|;
      idxBuffer := Resize(idxBuffer, |idxBuffer| + idxCount);
    }

    /** _IdxWritePtr[0] = ...; _IdxWritePtr += |chunk| */
    method WriteIdx(chunk: seq<Index>)
      requires idxWrite + |chunk| <= |idxBuffer|
      modifies `idxBuffer, `idxWrite
      ensures idxWrite == old(idxWrite) + |chunk| && |idxBuffer| == old(|idxBuffer|)
      ensures idxBuffer[..idxWrite] == old(idxBuffer[..idxWrite]) + chunk
    {
      idxBuffer := Spliced(idxBuffer, idxWrite, chunk);
      idxWrite := idxWrite + |chunk|;
    }

    /** WriteIdx for a primitive that has already written `done` behind `before`. */
    method AppendIdx(chunk: seq<Index>, ghost before: seq<Index>, ghost done: seq<Index>)
      requires idxWrite + |chunk| <= |idxBuffer| && idxBuffer[..idxWrite] == before + done
      modifies `idxBuffer, `idxWrite
      ensures idxWrite == old(idxWrite) + |chunk| && |idxBuffer| == old(|idxBuffer|)
      ensures idxBuffer[..idxWrite] == before + (done + chunk)
    {
      WriteIdx(chunk);
      Associative(before, done, chunk);
    }

    method WriteVtx(chunk: seq<Vertex>)
      requires vtxWrite + |chunk| <= |vtxBuffer|
      modifies `vtxBuffer, `vtxWrite
      ensures vtxWrite == old(vtxWrite) + |chunk| && |vtxBuffer| == old(|vtxBuffer|)
      ensures vtxBuffer[..vtxWrite] == old(vtxBuffer[..vtxWrite]) + chunk
    {
      vtxBuffer := Spliced(vtxBuffer, vtxWrite, chunk);
      vtxWrite := vtxWrite + |chunk|;
    }

    /** A reserve that has been written to its end is a submission. */
    twostate lemma ReserveWritten(idxs: seq<Index>)
      requires old(cmdBuffer) != []
      requires cmdBuffer == Front(old(cmdBuffer))
               + [Last(old(cmdBuffer)).(elemCount := Last(old(cmdBuffer)).elemCount + |idxs|)]
      requires idxWrite == |idxBuffer| && idxBuffer[..idxWrite] == old(idxBuffer) + idxs
      requires clipRectStack == old(clipRectStack) && textureIdStack == old(textureIdStack)
      requires channelsCurrent == old(channelsCurrent) && channelsCount == old(channelsCount)
               && channels == old(channels)
      ensures View() == Drawn(old(View()), idxs)
    {
      assert idxBuffer[..idxWrite] == idxBuffer;
    }

    // ----- Primitives

    method PrimQuadUV(a: Vec2, b: Vec2, c: Vec2, d: Vec2, uvA: Vec2, uvB: Vec2, uvC: Vec2, uvD: Vec2, col: nat)
      requires idxWrite + 6 <= |idxBuffer| && vtxWrite + 4 <= |vtxBuffer|
      modifies `idxBuffer, `vtxBuffer, `idxWrite, `vtxWrite, `vtxCurrentIdx
      ensures |idxBuffer| == old(|idxBuffer|) && idxWrite == old(idxWrite) + 6
      ensures idxBuffer[..idxWrite] == old(idxBuffer[..idxWrite]) + QuadIndices(old(vtxCurrentIdx))
      ensures |vtxBuffer| == old(|vtxBuffer|) && vtxWrite == old(vtxWrite) + 4
      ensures vtxBuffer[..vtxWrite] == old(vtxBuffer[..vtxWrite])
                + [Vertex(a, uvA, col), Vertex(b, uvB, col), Vertex(c, uvC, col), Vertex(d, uvD, col)]
      ensures vtxCurrentIdx == old(vtxCurrentIdx) + 4
    {
      hide Idx;
      var idx: nat := Idx(vtxCurrentIdx);
      IdxOfSum(vtxCurrentIdx, 1);
      IdxOfSum(vtxCurrentIdx, 2);
      IdxOfSum(vtxCurrentIdx, 3);
      WriteIdx([idx, Idx(idx + 1), Idx(idx + 2), idx, Idx(idx + 2), Idx(idx + 3)]);
      WriteVtx([Vertex(a, uvA, col), Vertex(b, uvB, col), Vertex(c, uvC, col), Vertex(d, uvD, col)]);
      vtxCurrentIdx := vtxCurrentIdx + 4;
    }

    method PrimRectUV(a: Vec2, c: Vec2, uvA: Vec2, uvC: Vec2, col: nat)
      requires idxWrite + 6 <= |idxBuffer| && vtxWrite + 4 <= |vtxBuffer|
      modifies `idxBuffer, `vtxBuffer, `idxWrite, `vtxWrite, `vtxCurrentIdx
      ensures |idxBuffer| == old(|idxBuffer|) && idxWrite == old(idxWrite) + 6
      ensures idxBuffer[..idxWrite] == old(idxBuffer[..idxWrite]) + QuadIndices(old(vtxCurrentIdx))
      ensures |vtxBuffer| == old(|vtxBuffer|) && vtxWrite == old(vtxWrite) + 4
      ensures vtxBuffer[..vtxWrite] == old(vtxBuffer[..vtxWrite])
                + [Vertex(a, uvA, col), Vertex(Vec2(c.x, a.y), Vec2(uvC.x, uvA.y), col),
                   Vertex(c, uvC, col), Vertex(Vec2(a.x, c.y), Vec2(uvA.x, uvC.y), col)]
      ensures vtxCurrentIdx == old(vtxCurrentIdx) + 4
    {
      PrimQuadUV(a, Vec2(c.x, a.y), c, Vec2(a.x, c.y), uvA, Vec2(uvC.x, uvA.y), uvC, Vec2(uvA.x, uvC.y), col);
    }

    /** A rectangle primitive on its own: reserve, then PrimRectUV. */
    method AddRectUV(a: Vec2, c: Vec2, uvA: Vec2, uvC: Vec2, col: nat)
      requires cmdBuffer != []
      modifies `cmdBuffer, `idxBuffer, `vtxBuffer, `idxWrite, `vtxWrite, `vtxCurrentIdx
      ensures View() == Drawn(old(View()), QuadIndices(old(vtxCurrentIdx))) && (old(Settled()) ==> Settled())
      ensures vtxBuffer == old(vtxBuffer)
                + [Vertex(a, uvA, col), Vertex(Vec2(c.x, a.y), Vec2(uvC.x, uvA.y), col),
                   Vertex(c, uvC, col), Vertex(Vec2(a.x, c.y), Vec2(uvA.x, uvC.y), col)]
    {
      PrimReserve(6, 4);
      PrimRectUV(a, c, uvA, uvC, col);
      ReserveWritten(QuadIndices(old(vtxCurrentIdx)));
      assert vtxBuffer[..vtxWrite] == vtxBuffer;
    }

    /** AddImage: a rectangle under a texture of its own, which is pushed and popped again if it is not on
        top already. */
    method AddImage(texture: Pointer, a: Vec2, b: Vec2, uvA: Vec2, uvB: Vec2, col: nat)
      requires cmdBuffer != []
      modifies `cmdBuffer, `idxBuffer, `vtxBuffer, `idxWrite, `vtxWrite, `vtxCurrentIdx, `textureIdStack
      ensures old(Settled()) ==> Settled()
      ensures View() ==
              if Invisible(col) then old(View())
              else if old(textureIdStack == [] || texture != Last(textureIdStack))
              then Step(Step(Step(old(View()), PushTexture(texture)), Draw(QuadIndices(old(vtxCurrentIdx)))),
                PopTexture)
              else Step(old(View()), Draw(QuadIndices(old(vtxCurrentIdx))))
      ensures vtxBuffer == old(vtxBuffer) + if Invisible(col) then [] else
                [Vertex(a, uvA, col), Vertex(Vec2(b.x, a.y), Vec2(uvB.x, uvA.y), col),
                 Vertex(b, uvB, col), Vertex(Vec2(a.x, b.y), Vec2(uvA.x, uvB.y), col)]
    {
      if Invisible(col) {
        return;
      }
      var pushTexture := |textureIdStack| == 0 || texture != textureIdStack[|textureIdStack| - 1];
      if pushTexture {
        PushTextureID(texture);
      }
      DrawIsStep(View(), QuadIndices(vtxCurrentIdx));
      AddRectUV(a, b, uvA, uvB, col);
      if pushTexture {
        PopTextureID();
      }
    }

    method AddPolyline(points: seq<Vec2>, col: nat, closed: bool, thickness: real, antiAliased: bool, uv: Vec2,
                       at: (int, int) -> Vec2)
      requires cmdBuffer != []
      modifies `cmdBuffer, `idxBuffer, `vtxBuffer, `idxWrite, `vtxWrite, `vtxCurrentIdx
      ensures |points| < 2 ==> View() == old(View()) && (old(Settled()) ==> Settled()) && vtxBuffer == old(vtxBuffer)
      ensures |points| >= 2 ==>
        var (kind, count) := (StrokeKind(antiAliased, thickness), SegmentCount(|points|, closed));
        && View() == Drawn(old(View()), StrokeIndices(kind, old(vtxCurrentIdx), |points|, count))
        && vtxBuffer == old(vtxBuffer)
             + StrokeVertices(kind, points, at, uv, col, if kind.Plain? then count else |points|)
        && vtxWrite == |vtxBuffer| && idxWrite == |idxBuffer|
      ensures |points| >= 2 && old(Settled()) ==>
        (Settled() <==> !antiAliased || VertexCount(StrokeKind(true, thickness), |points|, closed) < 0x10000)
    {
      hide Drawn, StrokeIndices, StrokeVertices;
      if |points| < 2 {
        return;
      }
      var count: nat := |points|;
      if !closed {
        count := |points| - 1;
      }
      if antiAliased {
        var kind := StrokeKind(true, thickness);
        StrokeAntiAliased(points, col, closed, count, kind, uv, at);
      } else {
        StrokePlain(points, col, closed, count, uv, at);
      }
    }

    method StrokeAntiAliased(points: seq<Vec2>, col: nat, closed: bool, count: nat, kind: Stroke, uv: Vec2,
                             at: (int, int) -> Vec2)
      requires cmdBuffer != [] && |points| >= 2 && count == SegmentCount(|points|, closed) && !kind.Plain?
      modifies `cmdBuffer, `idxBuffer, `vtxBuffer, `idxWrite, `vtxWrite, `vtxCurrentIdx
      ensures View() == Drawn(old(View()), StrokeIndices(kind, old(vtxCurrentIdx), |points|, count))
      ensures vtxBuffer == old(vtxBuffer) + StrokeVertices(kind, points, at, uv, col, |points|)
      ensures vtxWrite == |vtxBuffer| && idxWrite == |idxBuffer|
      ensures old(Settled()) ==> (Settled() <==> kind.Vertices(|points|) < 0x10000)
    {
      hide Drawn, StrokeIndices, SegmentIndices, StrokeVertices;
      var idxCount := if kind.Thick? then count * 18 else count * 12;
      var vtxCount := if kind.Thick? then |points| * 4 else |points| * 3;
      PrimReserve(idxCount, vtxCount);
      WriteStroke(kind, |points|, count);
      WriteStrokePoints(points, col, kind, uv, at);
      ReserveWritten(StrokeIndices(kind, vtxCurrentIdx, |points|, count));
      WrapsIff(vtxCount);
      vtxCurrentIdx := vtxCurrentIdx + vtxCount % 0x10000;
    }

    method WriteStroke(kind: Stroke, n: nat, count: nat)
      requires !kind.Plain? && 1 <= count <= n && idxWrite + kind.Indices(count) == |idxBuffer|
      modifies `idxBuffer, `idxWrite
      ensures idxWrite == |idxBuffer| == old(|idxBuffer|)
      ensures idxBuffer[..idxWrite] == old(idxBuffer[..idxWrite]) + StrokeIndices(kind, vtxCurrentIdx, n, count)
    {
      hide SegmentIndices;
      ghost var before := idxBuffer[..idxWrite];
      assert idxBuffer[..idxWrite] == before + StrokeIndices(kind, vtxCurrentIdx, n, 0);
      var idx1 := vtxCurrentIdx;
      var i1 := 0;
      while i1 < count
        invariant 0 <= i1 <= count && |idxBuffer| == old(|idxBuffer|)
        invariant i1 < count ==> idx1 == vtxCurrentIdx + kind.Vertices(i1)
        invariant idxWrite == old(idxWrite) + kind.Indices(i1)
        invariant idxBuffer[..idxWrite] == before + StrokeIndices(kind, vtxCurrentIdx, n, i1)
      {
        IndicesStep(kind, i1, count);
        idx1 := WriteStrokeSegment(kind, n, i1, idx1, before);
        i1 := i1 + 1;
      }
    }

    method WriteStrokeSegment(kind: Stroke, n: nat, i1: nat, idx1: nat, ghost before: seq<Index>) returns (idx2: nat)
      requires !kind.Plain? && i1 < n && idx1 == vtxCurrentIdx + kind.Vertices(i1)
      requires idxWrite + kind.Indices(1) <= |idxBuffer|
      requires idxBuffer[..idxWrite] == before + StrokeIndices(kind, vtxCurrentIdx, n, i1)
      modifies `idxBuffer, `idxWrite
      ensures i1 + 1 < n ==> idx2 == vtxCurrentIdx + kind.Vertices(i1 + 1)
      ensures idxWrite == old(idxWrite) + kind.Indices(1) && |idxBuffer| == old(|idxBuffer|)
      ensures idxBuffer[..idxWrite] == before + StrokeIndices(kind, vtxCurrentIdx, n, i1 + 1)
    {
      idx2 := if i1 + 1 == n then vtxCurrentIdx else idx1 + (if kind.Thick? then 4 else 3);
      var segment := SegmentIndices(kind, idx1, idx2);
      ghost var done := StrokeIndices(kind, vtxCurrentIdx, n, i1);
      ghost var next := StrokeNext(kind, vtxCurrentIdx, n, i1, idx1, idx2);
      AppendIdx(segment, before, done);
      assert next == done + segment;
    }

    method WriteStrokePoints(points: seq<Vec2>, col: nat, kind: Stroke, uv: Vec2, at: (int, int) -> Vec2)
      requires !kind.Plain? && vtxWrite + kind.Vertices(|points|) == |vtxBuffer|
      modifies `vtxBuffer, `vtxWrite
      ensures vtxWrite == |vtxBuffer| == old(|vtxBuffer|)
      ensures vtxBuffer == old(vtxBuffer[..vtxWrite]) + StrokeVertices(kind, points, at, uv, col, |points|)
    {
      hide StrokePointVertices;
      var i := 0;
      while i < |points|
        invariant 0 <= i <= |points| && vtxWrite == old(vtxWrite) + kind.Vertices(i) && |vtxBuffer| == old(|vtxBuffer|)
        invariant vtxBuffer[..vtxWrite] == old(vtxBuffer[..vtxWrite]) + StrokeVertices(kind, points, at, uv, col, i)
      {
        WriteVtx(StrokePointVertices(kind, points[i], at, i, uv, col));
        i := i + 1;
      }
      assert vtxBuffer[..vtxWrite] == vtxBuffer;
    }

    method StrokePlain(points: seq<Vec2>, col: nat, closed: bool, count: nat, uv: Vec2, at: (int, int) -> Vec2)
      requires cmdBuffer != [] && |points| >= 2 && count == SegmentCount(|points|, closed)
      modifies `cmdBuffer, `idxBuffer, `vtxBuffer, `idxWrite, `vtxWrite, `vtxCurrentIdx
      ensures View() == Drawn(old(View()), StrokeIndices(Plain, old(vtxCurrentIdx), |points|, count))
      ensures vtxBuffer == old(vtxBuffer) + StrokeVertices(Plain, points, at, uv, col, count)
      ensures vtxWrite == |vtxBuffer| && idxWrite == |idxBuffer| && (old(Settled()) ==> Settled())
    {
      hide Drawn, StrokeIndices, SegmentIndices, StrokeVertices;
      PrimReserve(count * 6, count * 4);
      WriteSegments(points, |points|, col, count, uv, at);
      assert vtxBuffer[..vtxWrite] == vtxBuffer;
      ReserveWritten(StrokeIndices(Plain, old(vtxCurrentIdx), |points|, count));
    }

    method WriteSegments(ghost points: seq<Vec2>, ghost n: nat, col: nat, count: nat, uv: Vec2, at: (int, int) -> Vec2)
      requires idxWrite + count * 6 <= |idxBuffer| && vtxWrite + count * 4 <= |vtxBuffer|
      modifies `idxBuffer, `vtxBuffer, `idxWrite, `vtxWrite, `vtxCurrentIdx
      ensures idxWrite == old(idxWrite) + count * 6 && |idxBuffer| == old(|idxBuffer|)
      ensures idxBuffer[..idxWrite] == old(idxBuffer[..idxWrite]) + StrokeIndices(Plain, old(vtxCurrentIdx), n, count)
      ensures vtxWrite == old(vtxWrite) + count * 4 && |vtxBuffer| == old(|vtxBuffer|)
      ensures vtxBuffer[..vtxWrite] == old(vtxBuffer[..vtxWrite]) + StrokeVertices(Plain, points, at, uv, col, count)
      ensures vtxCurrentIdx == old(vtxCurrentIdx) + count * 4
    {
      hide QuadIndices, SegmentVertices;
      ghost var before, base := idxBuffer[..idxWrite], vtxCurrentIdx;
      var i1 := 0;
      while i1 < count
        invariant 0 <= i1 <= count && |idxBuffer| == old(|idxBuffer|) && |vtxBuffer| == old(|vtxBuffer|)
        invariant idxWrite == old(idxWrite) + i1 * 6 && vtxWrite == old(vtxWrite) + i1 * 4
        invariant vtxCurrentIdx == base + i1 * 4
        invariant idxBuffer[..idxWrite] == before + StrokeIndices(Plain, base, n, i1)
        invariant vtxBuffer[..vtxWrite] == old(vtxBuffer[..vtxWrite]) + StrokeVertices(Plain, points, at, uv, col, i1)
      {
        ghost var done, quad := StrokeIndices(Plain, base, n, i1), QuadIndices(vtxCurrentIdx);
        ghost var next := StrokeNext(Plain, base, n, i1, vtxCurrentIdx, base + Plain.Vertices(NextPoint(i1, n)));
        assert next == done + quad;
        WriteSegment(col, uv, at, i1, before, done);
        i1 := i1 + 1;
      }
    }

    method WriteSegment(col: nat, uv: Vec2, at: (int, int) -> Vec2, i: int, ghost before: seq<Index>,
                        ghost done: seq<Index>)
      requires idxWrite + 6 <= |idxBuffer| && vtxWrite + 4 <= |vtxBuffer|
      requires idxBuffer[..idxWrite] == before + done
      modifies `idxBuffer, `vtxBuffer, `idxWrite, `vtxWrite, `vtxCurrentIdx
      ensures |idxBuffer| == old(|idxBuffer|) && idxWrite == old(idxWrite) + 6
      ensures idxBuffer[..idxWrite] == before + (done + QuadIndices(old(vtxCurrentIdx)))
      ensures |vtxBuffer| == old(|vtxBuffer|) && vtxWrite == old(vtxWrite) + 4
      ensures vtxBuffer[..vtxWrite] == old(vtxBuffer[..vtxWrite]) + SegmentVertices(at, i, uv, col)
      ensures vtxCurrentIdx == old(vtxCurrentIdx) + 4
    {
      WriteVtx(SegmentVertices(at, i, uv, col));
      AppendIdx(QuadIndices(vtxCurrentIdx), before, done);
      vtxCurrentIdx := vtxCurrentIdx + 4;
    }

    method AddConvexPolyFilled(points: seq<Vec2>, col: nat, antiAliased: bool, uv: Vec2, at: (int, int) -> Vec2)
      requires cmdBuffer != [] && |points| >= 2
      modifies `cmdBuffer, `idxBuffer, `vtxBuffer, `idxWrite, `vtxWrite, `vtxCurrentIdx
      ensures View() == Drawn(old(View()), FillIndices(old(vtxCurrentIdx), |points|, antiAliased))
      ensures vtxBuffer == old(vtxBuffer) + FillVertices(points, at, uv, col, antiAliased)
      ensures vtxWrite == |vtxBuffer| && idxWrite == |idxBuffer|
      ensures old(Settled()) ==> (Settled() <==> FillVertexCount(|points|, antiAliased) < 0x10000)
    {
      hide Drawn, FillIndices, FringeVertices, PointVertices;
      if antiAliased {
        FillAntiAliased(points, col, uv, at);
      } else {
        FillPlain(points, col, uv);
      }
    }

    method FillAntiAliased(points: seq<Vec2>, col: nat, uv: Vec2, at: (int, int) -> Vec2)
      requires cmdBuffer != [] && |points| >= 2
      modifies `cmdBuffer, `idxBuffer, `vtxBuffer, `idxWrite, `vtxWrite, `vtxCurrentIdx
      ensures View() == Drawn(old(View()), FillIndices(old(vtxCurrentIdx), |points|, true))
      ensures vtxBuffer == old(vtxBuffer) + FringeVertices(at, uv, col, |points|)
      ensures vtxWrite == |vtxBuffer| && idxWrite == |idxBuffer|
      ensures vtxCurrentIdx == old(vtxCurrentIdx) + |points| * 2 % 0x10000
    {
      hide Drawn, FanIndices, FringeIndices, FringeVertices;
      var n := |points|;
      var idxCount, vtxCount := (n - 2) * 3 + n * 6, n * 2;
      PrimReserve(idxCount, vtxCount);
      WriteFan(vtxCurrentIdx, 2, n);
      WriteFringe(points, col, uv, at);
      Associative(old(idxBuffer), FanIndices(vtxCurrentIdx, 2, n), FringeIndices(vtxCurrentIdx, n, n));
      assert vtxBuffer[..vtxWrite] == vtxBuffer;
      ReserveWritten(FillIndices(vtxCurrentIdx, n, true));
      vtxCurrentIdx := vtxCurrentIdx + vtxCount % 0x10000;
    }

    method FillPlain(points: seq<Vec2>, col: nat, uv: Vec2)
      requires cmdBuffer != [] && |points| >= 2
      modifies `cmdBuffer, `idxBuffer, `vtxBuffer, `idxWrite, `vtxWrite, `vtxCurrentIdx
      ensures View() == Drawn(old(View()), FillIndices(old(vtxCurrentIdx), |points|, false))
      ensures vtxBuffer == old(vtxBuffer) + PointVertices(points, uv, col)
      ensures vtxWrite == |vtxBuffer| && idxWrite == |idxBuffer|
      ensures vtxCurrentIdx == old(vtxCurrentIdx) + |points| % 0x10000
    {
      hide Drawn, FanIndices, PointVertices;
      var n := |points|;
      var idxCount, vtxCount := (n - 2) * 3, n;
      PrimReserve(idxCount, vtxCount);
      WritePoints(points, col, uv);
      assert vtxBuffer[..vtxWrite] == vtxBuffer;
      WriteFan(vtxCurrentIdx, 1, n);
      ReserveWritten(FillIndices(vtxCurrentIdx, n, false));
      vtxCurrentIdx := vtxCurrentIdx + vtxCount % 0x10000;
    }

    method WritePoints(points: seq<Vec2>, col: nat, uv: Vec2)
      requires vtxWrite + |points| <= |vtxBuffer|
      modifies `vtxBuffer, `vtxWrite
      ensures vtxWrite == old(vtxWrite) + |points| && |vtxBuffer| == old(|vtxBuffer|)
      ensures vtxBuffer[..vtxWrite] == old(vtxBuffer[..vtxWrite]) + PointVertices(points, uv, col)
    {
      var i := 0;
      while i < |points|
        invariant 0 <= i <= |points| && vtxWrite == old(vtxWrite) + i && |vtxBuffer| == old(|vtxBuffer|)
        invariant vtxBuffer[..vtxWrite] == old(vtxBuffer[..vtxWrite]) + PointVertices(points[..i], uv, col)
      {
        assert PointVertices(points[..i + 1], uv, col)
               == PointVertices(points[..i], uv, col) + [Vertex(points[i], uv, col)];
        WriteVtx([Vertex(points[i], uv, col)]);
        i := i + 1;
      }
      assert points[..|points|] == points;
    }

    method WriteFan(base: nat, step: nat, n: nat)
      requires n >= 2 && idxWrite + (n - 2) * 3 <= |idxBuffer|
      modifies `idxBuffer, `idxWrite
      ensures idxWrite == old(idxWrite) + (n - 2) * 3 && |idxBuffer| == old(|idxBuffer|)
      ensures idxBuffer[..idxWrite] == old(idxBuffer[..idxWrite]) + FanIndices(base, step, n)
    {
      hide Idx;
      var i := 2;
      while i < n
        invariant 2 <= i <= n && |idxBuffer| == old(|idxBuffer|) && idxWrite == old(idxWrite) + (i - 2) * 3
        invariant idxBuffer[..idxWrite] == old(idxBuffer[..idxWrite]) + FanIndices(base, step, i)
      {
        WriteIdx([Idx(base), Idx(base + (i - 1) * step), Idx(base + i * step)]);
        i := i + 1;
      }
    }

    method WriteFringe(points: seq<Vec2>, col: nat, uv: Vec2, at: (int, int) -> Vec2)
      requires |points| >= 1
      requires idxWrite + |points| * 6 <= |idxBuffer| && vtxWrite + |points| * 2 <= |vtxBuffer|
      modifies `idxBuffer, `idxWrite, `vtxBuffer, `vtxWrite
      ensures idxWrite == old(idxWrite) + |points| * 6 && |idxBuffer| == old(|idxBuffer|)
      ensures idxBuffer[..idxWrite] == old(idxBuffer[..idxWrite]) + FringeIndices(vtxCurrentIdx, |points|, |points|)
      ensures vtxWrite == old(vtxWrite) + |points| * 2 && |vtxBuffer| == old(|vtxBuffer|)
      ensures vtxBuffer[..vtxWrite] == old(vtxBuffer[..vtxWrite]) + FringeVertices(at, uv, col, |points|)
    {
      hide FringeSegment, Transparent;
      var n := |points|;
      var i0, i1 := n - 1, 0;
      while i1 < n
        invariant 0 <= i1 <= n && |idxBuffer| == old(|idxBuffer|) && |vtxBuffer| == old(|vtxBuffer|)
        invariant i1 < n ==> i0 == PreviousPoint(i1, n)
        invariant idxWrite == old(idxWrite) + i1 * 6 && vtxWrite == old(vtxWrite) + i1 * 2
        invariant idxBuffer[..idxWrite] == old(idxBuffer[..idxWrite]) + FringeIndices(vtxCurrentIdx, n, i1)
        invariant vtxBuffer[..vtxWrite] == old(vtxBuffer[..vtxWrite]) + FringeVertices(at, uv, col, i1)
      {
        WriteVtx([Vertex(at(i1, 0), uv, col), Vertex(at(i1, 1), uv, Transparent(col))]);
        WriteIdx(FringeSegment(vtxCurrentIdx, i0, i1));
        i0, i1 := i1, i1 + 1;
      }
    }
  }

  lemma CallbackCmds(cmds: seq<DrawCmd>, clip: Rect, texture: Pointer, callback: Pointer, data: Pointer)
    ensures var cs := if CanHoldCallback(cmds) then cmds else DrawState.AddDrawCmd(cmds, clip, texture);
            DrawState.AddDrawCmd(cs[|cs| - 1 := cs[|cs| - 1].(callback := callback, callbackData := data)], clip,
              texture)
            == DrawState.AddCallback(cmds, clip, texture, callback, data)
  {
    var cs := if CanHoldCallback(cmds) then cmds else DrawState.AddDrawCmd(cmds, clip, texture);
    var called := Last(cs).(callback := callback, callbackData := data);
    assert cs[|cs| - 1 := called] == Front(cs) + [called];
  }

  lemma CallbackStep(st: State, callback: Pointer, data: Pointer)
    ensures Step(st, Callback(callback, data))
            == SetCmds(st, DrawState.AddCallback(st.live.cmds, st.TopClip(), st.TopTexture(), callback, data))
  {}

  lemma DrawIsStep(st: State, idxs: seq<Index>)
    requires st.live.cmds != []
    ensures Step(st, Draw(idxs)) == Drawn(st, idxs)
  {}

  // ----- Channel merging, one channel at a time

  lemma MergedState(st: State, layers: seq<Layer>)
    requires st.current == 0 && 1 < st.count <= |st.channels| && layers == [st.live] + st.channels[1..st.count]
    ensures Merge(st) == State(Layer(AddDrawCmd(MergedCmds(layers), st.TopClip(), st.TopTexture()), MergedIdxs(layers)),
                               st.clips, st.textures, 0, 1, TrimSlots(st.channels, st.count))
  {}
}
