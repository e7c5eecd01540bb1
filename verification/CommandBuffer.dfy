/** What each operation on one command buffer does to the drawing that the buffer stands for. */
module CommandBuffer {
  import opened DrawState

  // ----- Total and Render on concatenations

  lemma {:induction false} TotalConcat(a: seq<DrawCmd>, b: seq<DrawCmd>)
    ensures Total(a + b) == Total(a) + Total(b)
    decreases |b|
  {
    if b == [] {
      assert a + b == a;
    } else {
      assert Front(a + b) == a + Front(b);
      TotalConcat(a, Front(b));
    }
  }

  /** Commands ignore the indices behind the ones they consume. */
  lemma {:induction false} RenderIgnoresTail(cmds: seq<DrawCmd>, idxs: seq<Index>, more: seq<Index>)
    requires Total(cmds) <= |idxs|
    ensures Render(cmds, idxs + more) == Render(cmds, idxs)
    decreases |cmds|
  {
    if cmds != [] {
      RenderIgnoresTail(Front(cmds), idxs, more);
      assert (idxs + more)[Total(Front(cmds))..Total(cmds)] == idxs[Total(Front(cmds))..Total(cmds)];
    }
  }

  /** Two buffers glued together draw the first and then the second, provided the first consumes all of
      its indices. */
  lemma {:induction false} RenderConcat(a: seq<DrawCmd>, i: seq<Index>, b: seq<DrawCmd>, j: seq<Index>)
    requires Total(a) == |i| && Total(b) <= |j|
    ensures Total(a + b) <= |i + j| && Render(a + b, i + j) == Render(a, i) + Render(b, j)
    decreases |b|
  {
    hide CmdItems;
    TotalConcat(a, b);
    if b == [] {
      assert a + b == a;
      RenderIgnoresTail(a, i, j);
    } else {
      var front, last := Front(b), Last(b);
      var from, to := Total(front), Total(b);
      calc {
        Render(a + b, i + j);
        { assert a + b == (a + front) + [last]; TotalConcat(a, front); RenderSnoc(a + front, last, i + j); }
        Render(a + front, i + j) + CmdItems(last, (i + j)[|i| + from..|i| + to]);
        { ConsumedByLast(i, j, from, to); }
        Render(a + front, i + j) + CmdItems(last, j[from..to]);
        { RenderConcat(a, i, front, j); }
        (Render(a, i) + Render(front, j)) + CmdItems(last, j[from..to]);
        { Associative(Render(a, i), Render(front, j), CmdItems(last, j[from..to])); }
        Render(a, i) + Render(b, j);
      }
    }
  }

  lemma Associative<T>(a: seq<T>, b: seq<T>, c: seq<T>)
    ensures (a + b) + c == a + (b + c)
  {}

  lemma ConsumedByLast(i: seq<Index>, j: seq<Index>, from: nat, to: nat)
    requires from <= to <= |j|
    ensures (i + j)[|i| + from..|i| + to] == j[from..to]
  {}

  lemma {:induction false} RenderSnoc(cmds: seq<DrawCmd>, cmd: DrawCmd, idxs: seq<Index>)
    requires Total(cmds) + cmd.elemCount <= |idxs|
    ensures Total(cmds + [cmd]) == Total(cmds) + cmd.elemCount
    ensures Render(cmds + [cmd], idxs) == Render(cmds, idxs)
            + CmdItems(cmd, idxs[Total(cmds)..Total(cmds) + cmd.elemCount])
  {
    assert Front(cmds + [cmd]) == cmds;
  }

  /** A command without indices and callback draws nothing. */
  lemma {:induction false} RenderSnocEmpty(cmds: seq<DrawCmd>, cmd: DrawCmd, idxs: seq<Index>)
    requires Total(cmds) <= |idxs| && cmd.elemCount == 0 && cmd.callback == NULL
    ensures Total(cmds + [cmd]) == Total(cmds)
    ensures Render(cmds + [cmd], idxs) == Render(cmds, idxs)
  {
    RenderSnoc(cmds, cmd, idxs);
  }

  /** A layer ready for drawing under the stack tops `clip` and `texture`: its last command carries them
      and is not a callback, and callbacks own no indices. */
  ghost predicate Open(layer: Layer, clip: Rect, texture: Pointer) {
    && layer.cmds != []
    && Matches(Last(layer.cmds), clip, texture)
    && Total(layer.cmds) <= |layer.idxs|
    && CallbacksEmpty(layer.cmds)
  }

  ghost predicate CallbacksEmpty(cmds: seq<DrawCmd>) {
    forall k :: 0 <= k < |cmds| && cmds[k].callback != NULL ==> cmds[k].elemCount == 0
  }

  /** Every index of the layer belongs to some command. */
  ghost predicate Exact(layer: Layer) {
    Total(layer.cmds) == |layer.idxs|
  }

  ghost function Drawing(layer: Layer): seq<Item>
    requires Total(layer.cmds) <= |layer.idxs|
  {
    Render(layer.cmds, layer.idxs)
  }

  // ----- The effect of each operation

  lemma AddDrawCmdEffect(layer: Layer, clip: Rect, texture: Pointer)
    requires Total(layer.cmds) <= |layer.idxs| && CallbacksEmpty(layer.cmds)
    ensures var l := layer.(cmds := AddDrawCmd(layer.cmds, clip, texture));
            Open(l, clip, texture) && Drawing(l) == Drawing(layer) && (Exact(l) <==> Exact(layer))
  {
    RenderSnocEmpty(layer.cmds, FreshCmd(clip, texture), layer.idxs);
  }

  lemma FrontAndLast(cmds: seq<DrawCmd>)
    requires cmds != []
    ensures Front(cmds) + [Last(cmds)] == cmds
  {}

  lemma UpdateClipRectEffect(layer: Layer, oldClip: Rect, clip: Rect, texture: Pointer)
    requires Open(layer, oldClip, texture)
    ensures var l := layer.(cmds := UpdateClipRect(layer.cmds, clip, texture));
            Open(l, clip, texture) && Drawing(l) == Drawing(layer) && (Exact(l) <==> Exact(layer))
  {
    var cmds := layer.cmds;
    var last := Last(cmds);
    FrontAndLast(cmds);
    if last.elemCount != 0 && last.clip != clip {
      AddDrawCmdEffect(layer, clip, texture);
    } else if last.elemCount == 0 {
      RenderSnocEmpty(Front(cmds), last, layer.idxs);
      if !PreviousMatches(cmds, clip, texture) {
        RenderSnocEmpty(Front(cmds), last.(clip := clip), layer.idxs);
      }
    }
  }

  /** The branch of UpdateTextureID that throws away a command which holds indices. */
  predicate DropsIndices(cmds: seq<DrawCmd>, clip: Rect, texture: Pointer) {
    && cmds != [] && Last(cmds).elemCount != 0 && Last(cmds).texture == texture && Last(cmds).callback == NULL
    && PreviousMatches(cmds, clip, texture)
  }

  /** A texture update leaves the drawing alone exactly when it does not take that branch; otherwise the
      drawing loses its tail. */
  lemma UpdateTextureIDEffect(layer: Layer, clip: Rect, oldTexture: Pointer, texture: Pointer)
    requires Open(layer, clip, oldTexture)
    ensures var l := layer.(cmds := UpdateTextureID(layer.cmds, clip, texture));
            && Open(l, clip, texture)
            && (if DropsIndices(layer.cmds, clip, texture)
                then Drawing(l) < Drawing(layer)
                else Drawing(l) == Drawing(layer) && (Exact(l) <==> Exact(layer)))
  {
    var cmds := layer.cmds;
    var last := Last(cmds);
    FrontAndLast(cmds);
    if last.elemCount != 0 && last.texture != texture {
      AddDrawCmdEffect(layer, clip, texture);
    } else if last.elemCount == 0 {
      RenderSnocEmpty(Front(cmds), last, layer.idxs);
      if !PreviousMatches(cmds, clip, texture) {
        RenderSnocEmpty(Front(cmds), last.(texture := texture), layer.idxs);
      }
    }
  }

  function CallItems(callback: Pointer, data: Pointer, clip: Rect, texture: Pointer): seq<Item> {
    if callback == NULL then [] else [Call(callback, data, clip, texture)]
  }

  lemma AddCallbackEffect(layer: Layer, clip: Rect, texture: Pointer, callback: Pointer, data: Pointer)
    requires Total(layer.cmds) <= |layer.idxs| && CallbacksEmpty(layer.cmds)
    requires layer.cmds != [] ==> Open(layer, clip, texture)
    ensures var l := layer.(cmds := AddCallback(layer.cmds, clip, texture, callback, data));
            && Open(l, clip, texture)
            && Drawing(l) == Drawing(layer) + CallItems(callback, data, clip, texture)
            && (Exact(l) <==> Exact(layer))
  {
    if CanHoldCallback(layer.cmds) {
      PlaceCallbackEffect(layer, clip, texture, callback, data);
    } else {
      AddDrawCmdEffect(layer, clip, texture);
      PlaceCallbackEffect(layer.(cmds := AddDrawCmd(layer.cmds, clip, texture)), clip, texture, callback, data);
    }
  }

  lemma PlaceCallbackEffect(layer: Layer, clip: Rect, texture: Pointer, callback: Pointer, data: Pointer)
    requires Open(layer, clip, texture) && Last(layer.cmds).elemCount == 0
    ensures var called := Last(layer.cmds).(callback := callback, callbackData := data);
            var l := layer.(cmds := AddDrawCmd(Front(layer.cmds) + [called], clip, texture));
            && Open(l, clip, texture)
            && Drawing(l) == Drawing(layer) + CallItems(callback, data, clip, texture)
            && (Exact(l) <==> Exact(layer))
  {
    FrontAndLast(layer.cmds);
    var front, last := Front(layer.cmds), Last(layer.cmds);
    RenderSnocEmpty(front, last, layer.idxs);
    var called := last.(callback := callback, callbackData := data);
    RenderSnoc(front, called, layer.idxs);
    AddDrawCmdEffect(layer.(cmds := front + [called]), clip, texture);
  }

  lemma {:induction false} RenderLength(cmds: seq<DrawCmd>, idxs: seq<Index>)
    requires Total(cmds) <= |idxs| && CallbacksEmpty(cmds)
    ensures |Render(cmds, idxs)| == Weight(cmds)
    decreases |cmds|
  {
    if cmds != [] {
      RenderLength(Front(cmds), idxs);
    }
  }

  /** The number of items a buffer draws. */
  function Weight(cmds: seq<DrawCmd>): nat {
    if cmds == [] then 0
    else Weight(Front(cmds)) + if Last(cmds).callback != NULL then 1 else Last(cmds).elemCount
  }

  lemma {:induction false} WeightConcat(a: seq<DrawCmd>, b: seq<DrawCmd>)
    ensures Weight(a + b) == Weight(a) + Weight(b)
    decreases |b|
  {
    if b == [] {
      assert a + b == a;
    } else {
      assert Front(a + b) == a + Front(b);
      WeightConcat(a, Front(b));
    }
  }

  /** Submitting a primitive appends its indices, each under the stack tops.  In a buffer that has lost
      a command the count still grows by as much. */
  lemma SubmitEffect(layer: Layer, clip: Rect, texture: Pointer, idxs: seq<Index>)
    requires Open(layer, clip, texture)
    ensures var l := Submit(layer, idxs);
            && Open(l, clip, texture)
            && |Drawing(l)| == |Drawing(layer)| + |idxs|
            && (Exact(layer) ==> Exact(l) && Drawing(l) == Drawing(layer) + Elems(idxs, clip, texture))
  {
    hide Render, Elems;
    var l := Submit(layer, idxs);
    var front, last, grown := Front(layer.cmds), Last(layer.cmds), Last(l.cmds);
    var t := Total(front);
    FrontAndLast(layer.cmds);
    RenderSnoc(front, last, layer.idxs);
    RenderSnoc(front, grown, l.idxs);
    RenderIgnoresTail(front, layer.idxs, idxs);
    if Exact(layer) {
      var mine := layer.idxs[t..t + last.elemCount];
      assert l.idxs[t..t + grown.elemCount] == mine + idxs;
      ElemsConcat(mine, idxs, clip, texture);
      Associative(Render(front, layer.idxs), Elems(mine, clip, texture), Elems(idxs, clip, texture));
    }
  }

  lemma ElemsConcat(a: seq<Index>, b: seq<Index>, clip: Rect, texture: Pointer)
    ensures Elems(a + b, clip, texture) == Elems(a, clip, texture) + Elems(b, clip, texture)
  {}

  lemma UpdatesOpenAnEmptyBuffer(clip: Rect, texture: Pointer)
    ensures UpdateClipRect([], clip, texture) == AddDrawCmd([], clip, texture) == UpdateTextureID([], clip, texture)
  {}

  lemma EmptyLayerDrawsNothing()
    ensures Total(EMPTY_LAYER.cmds) == 0 && CallbacksEmpty(EMPTY_LAYER.cmds) && Drawing(EMPTY_LAYER) == []
  {}

  lemma TrimmedEffect(layer: Layer, clip: Rect, texture: Pointer)
    requires Open(layer, clip, texture)
    ensures var l := layer.(cmds := Trimmed(layer.cmds));
            && Total(l.cmds) == Total(layer.cmds) && CallbacksEmpty(l.cmds)
            && Drawing(l) == Drawing(layer)
  {
    if Last(layer.cmds).elemCount == 0 {
      FrontAndLast(layer.cmds);
      RenderSnocEmpty(Front(layer.cmds), Last(layer.cmds), layer.idxs);
    }
  }

  // ----- Neighbours

  /** No two neighbouring commands could have been one. */
  ghost predicate NoTwins(cmds: seq<DrawCmd>) {
    forall k :: 0 < k < |cmds| && cmds[k].callback == NULL ==> !Matches(cmds[k - 1], cmds[k].clip, cmds[k].texture)
  }

  lemma UpdatesKeepNoTwins(cmds: seq<DrawCmd>, clip: Rect, texture: Pointer, newClip: Rect, newTexture: Pointer)
    requires NoTwins(cmds)
    requires cmds != [] ==> Matches(Last(cmds), clip, texture)
    ensures NoTwins(UpdateClipRect(cmds, newClip, texture))
    ensures NoTwins(UpdateTextureID(cmds, clip, newTexture))
    ensures !DropsIndices(cmds, clip, newTexture)
  {}

  lemma CallbackKeepsNoTwins(cmds: seq<DrawCmd>, clip: Rect, texture: Pointer, callback: Pointer, data: Pointer)
    requires NoTwins(cmds) && callback != NULL
    requires cmds != [] ==> Matches(Last(cmds), clip, texture)
    ensures NoTwins(AddCallback(cmds, clip, texture, callback, data))
  {}

  lemma SubmitKeepsNoTwins(layer: Layer, idxs: seq<Index>)
    requires layer.cmds != [] && NoTwins(layer.cmds)
    ensures NoTwins(Submit(layer, idxs).cmds)
  {}

  // ----- Merging, one channel at a time

  lemma MergedNext(layers: seq<Layer>, i: nat)
    requires i < |layers|
    ensures MergedCmds(layers[..i + 1]) == MergedCmds(layers[..i]) + Trimmed(layers[i].cmds)
    ensures MergedIdxs(layers[..i + 1]) == MergedIdxs(layers[..i]) + layers[i].idxs
  {
    assert Front(layers[..i + 1]) == layers[..i];
  }

  lemma MergedFirst(layers: seq<Layer>)
    requires layers != []
    ensures MergedCmds(layers[..1]) == Trimmed(layers[0].cmds) && MergedIdxs(layers[..1]) == layers[0].idxs
  {
    MergedNext(layers, 0);
  }

  lemma {:induction false} MergedPrefix(layers: seq<Layer>, i: nat)
    requires i <= |layers|
    ensures |MergedCmds(layers[..i])| <= |MergedCmds(layers)| && |MergedIdxs(layers[..i])| <= |MergedIdxs(layers)|
    decreases |layers| - i
  {
    if i == |layers| {
      assert layers[..i] == layers;
    } else {
      MergedNext(layers, i);
      MergedPrefix(layers, i + 1);
    }
  }
}
