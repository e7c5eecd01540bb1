/** Batching keeps the meaning of what was submitted.  The reference list below knows nothing of commands: it holds,
    per channel, one tagged item after the other.  On buffers that are values, every legal run of list operations
    draws exactly that list unless some texture update threw a command away; `ListRuns.dfy` goes on from here to
    the memory behind the buffers. */
module Batching {
  import opened DrawState
  import opened CommandBuffer

  // ----- The reference: one tagged item at a time

  type Tag = (Rect, Pointer)

  /** `layers[k]` is what was submitted to channel k, `tags[k]` the stack tops when channel k was last
      left, `started` whether any call has opened a command yet. */
  datatype Ref = Ref(layers: seq<seq<Item>>, current: nat, clips: seq<Rect>, textures: seq<Pointer>,
                     tags: seq<Tag>, started: bool)
  {
    function Tops(): Tag {
      (if clips == [] then NULL_CLIP_RECT else Last(clips), if textures == [] then NULL else Last(textures))
    }
  }

  const START := Ref([[]], 0, [], [], [(NULL_CLIP_RECT, NULL)], false)

  function Concat(layers: seq<seq<Item>>): seq<Item> {
    if layers == [] then [] else Concat(Front(layers)) + Last(layers)
  }

  predicate WellFormed(ref: Ref) {
    ref.current < |ref.layers| == |ref.tags|
  }

  /** When a call is allowed.  A channel may be entered only under the stack tops it was left with. */
  predicate Enabled(ref: Ref, op: Op) {
    match op
    case PopClip => ref.clips != []
    case PopTexture => ref.textures != []
    case Draw(_) => ref.started
    case Split(n) => n >= 1 && |ref.layers| == 1 && ref.clips != [] && ref.textures != []
    case Switch(k) => k < |ref.layers| == |ref.tags| && (k == ref.current || ref.tags[k] == ref.Tops())
    case _ => true
  }

  function Emit(ref: Ref, items: seq<Item>): Ref
    requires WellFormed(ref)
  {
    ref.(layers := ref.layers[ref.current := ref.layers[ref.current] + items], started := true)
  }

  function RefStep(ref: Ref, op: Op): (r: Ref)
    requires WellFormed(ref) && Enabled(ref, op)
    ensures WellFormed(r)
  {
    match op
    case Clear => START
    case PushClip(min, max, intersect) =>
      ref.(clips := ref.clips + [PushedRect(ref.clips, min, max, intersect)], started := true)
    case PopClip => ref.(clips := Front(ref.clips), started := true)
    case PushTexture(texture) => ref.(textures := ref.textures + [texture], started := true)
    case PopTexture => ref.(textures := Front(ref.textures), started := true)
    case NewCmd => ref.(started := true)
    case Callback(callback, data) => Emit(ref, CallItems(callback, data, ref.Tops().0, ref.Tops().1))
    case Draw(idxs) => Emit(ref, Elems(idxs, ref.Tops().0, ref.Tops().1))
    case Split(n) => ref.(layers := [ref.layers[0]] + seq(n - 1, _ => []), tags := seq(n, _ => ref.Tops()))
    case Switch(k) => if k == ref.current then ref else ref.(tags := ref.tags[ref.current := ref.Tops()], current := k)
    case MergeAll => if |ref.layers| == 1 then ref
         else ref.(layers := [Concat(ref.layers)], current := 0, tags := [ref.Tops()])
  }

  /** What the reference holds after a submission: for each index, in order, an item with that index under the top of
      the clip stack and of the texture stack (or their NULL values); for a callback one item with its data, if it
      is not NULL; behind what the current channel held, and nothing in any other channel. */
  lemma SubmissionIsTagged(ref: Ref, op: Op, k: nat)
    requires WellFormed(ref) && Enabled(ref, op) && (op.Draw? || op.Callback?) && k < |ref.layers|
    ensures var (before, after) := (ref.layers[k], RefStep(ref, op).layers[k]);
            var clip := if |ref.clips| > 0 then ref.clips[|ref.clips| - 1] else Rect(-8192.0, -8192.0, 8192.0, 8192.0);
            var texture := if |ref.textures| > 0 then ref.textures[|ref.textures| - 1] else 0;
            if k != ref.current then after == before
            else if op.Callback? then
              after == if op.callback == 0 then before else before + [Call(op.callback, op.data, clip, texture)]
            else
              && |after| == |before| + |op.idxs| && after[..|before|] == before
              && forall i :: 0 <= i < |op.idxs| ==> after[|before| + i] == Elem(op.idxs[i], clip, texture)
    ensures |RefStep(ref, op).layers| == |ref.layers|
  {
    hide PushedRect, Concat, Elems;
    if op.Draw? {
      ElemsAre(op.idxs, ref.Tops().0, ref.Tops().1);
      if k == ref.current {
        Behind(ref.layers[k], Elems(op.idxs, ref.Tops().0, ref.Tops().1));
      }
    }
  }

  lemma ElemsAre(idxs: seq<Index>, clip: Rect, texture: Pointer)
    ensures forall i :: 0 <= i < |idxs| ==> Elems(idxs, clip, texture)[i] == Elem(idxs[i], clip, texture)
  {}

  lemma Behind<T>(a: seq<T>, b: seq<T>)
    ensures (a + b)[..|a|] == a && forall i :: 0 <= i < |b| ==> (a + b)[|a| + i] == b[i]
  {}

  ghost predicate Legal(ops: seq<Op>)
    decreases |ops|, 0
  {
    ops == [] || (Legal(Front(ops)) && Enabled(RefRun(Front(ops)), Last(ops)))
  }

  ghost function RefRun(ops: seq<Op>): (r: Ref)
    requires Legal(ops)
    ensures WellFormed(r)
    decreases |ops|, 1
  {
    if ops == [] then START else RefStep(RefRun(Front(ops)), Last(ops))
  }

  // ----- The draw list simulates the reference

  const EMPTY_LIST := State(EMPTY_LAYER, [], [], 0, 1, [])

  /** Everything that holds in every run, lost commands or not: the last command of each channel carries
      the stack tops in force there, is no callback, and every rectangle is ordered. */
  ghost predicate Sim(st: State, ref: Ref) {
    && WellFormed(ref)
    && st.clips == ref.clips && st.textures == ref.textures && st.current == ref.current
    && st.count == |ref.layers|
    && (st.count > 1 ==> st.count <= |st.channels|)
    && (forall r <- st.clips :: r.Ordered())
    && ((st.clips != [] || st.textures != [] || st.count > 1) ==> ref.started)
    && (if ref.started then Open(st.live, ref.Tops().0, ref.Tops().1) else st.live == EMPTY_LAYER && ref.layers == [[]])
    && (forall k | 0 <= k < st.count && k != st.current :: Open(st.LayerAt(k), ref.tags[k].0, ref.tags[k].1))
  }

  lemma LayersDrawable(st: State, ref: Ref, k: nat)
    requires Sim(st, ref) && k < st.count
    ensures st.HasLayer(k) && Total(st.LayerAt(k).cmds) <= |st.LayerAt(k).idxs| && CallbacksEmpty(st.LayerAt(k).cmds)
  {}

  ghost function DrawingAt(st: State, ref: Ref, k: nat): (items: seq<Item>)
    requires Sim(st, ref) && k < st.count
    ensures |items| == Weight(st.LayerAt(k).cmds)
  {
    LayersDrawable(st, ref, k);
    RenderLength(st.LayerAt(k).cmds, st.LayerAt(k).idxs);
    Drawing(st.LayerAt(k))
  }

  /** Channel by channel, the list draws what was submitted. */
  ghost predicate Faithful(st: State, ref: Ref)
    requires Sim(st, ref)
  {
    forall k | 0 <= k < st.count :: DrawingAt(st, ref, k) == ref.layers[k]
  }

  ghost predicate AllExact(st: State)
    requires st.current < st.count && (st.count > 1 ==> st.count <= |st.channels|)
  {
    forall k | 0 <= k < st.count :: Exact(st.LayerAt(k))
  }

  /** No channel draws more than was submitted to it, and some channel draws less. */
  ghost predicate Lagging(st: State, ref: Ref)
    requires Sim(st, ref)
  {
    && (forall k | 0 <= k < st.count :: |DrawingAt(st, ref, k)| <= |ref.layers[k]|)
    && (exists k | 0 <= k < st.count :: |DrawingAt(st, ref, k)| < |ref.layers[k]|)
  }

  // ----- One step

  /** The calls that touch only the live buffers and the stacks. */
  predicate Live(op: Op) {
    !op.Clear? && !op.Split? && !op.Switch? && !op.MergeAll?
  }

  predicate Drops(st: State, op: Op)
    requires Ready(st, op)
  {
    match op
    case PushTexture(texture) => DropsIndices(st.live.cmds, st.TopClip(), texture)
    case PopTexture => DropsIndices(st.live.cmds, st.TopClip(), st.(textures := Front(st.textures)).TopTexture())
    case _ => false
  }

  function Emitted(ref: Ref, op: Op): seq<Item> {
    match op
    case Callback(callback, data) => CallItems(callback, data, ref.Tops().0, ref.Tops().1)
    case Draw(idxs) => Elems(idxs, ref.Tops().0, ref.Tops().1)
    case _ => []
  }

  lemma ReadyStep(st: State, ref: Ref, op: Op)
    requires Sim(st, ref) && Enabled(ref, op)
    ensures Ready(st, op)
  {}

  lemma LiveRefStep(ref: Ref, op: Op)
    requires WellFormed(ref) && Enabled(ref, op) && Live(op)
    ensures RefStep(ref, op).layers == ref.layers[ref.current := ref.layers[ref.current] + Emitted(ref, op)]
  {
    var items := ref.layers[ref.current];
    assert items + [] == items;
  }

  lemma PushedRectOrdered(clips: seq<Rect>, min: Vec2, max: Vec2, intersect: bool)
    ensures PushedRect(clips, min, max, intersect).Ordered()
  {}

  /** What a live call does to the live layer: it is open under the new stack tops, and it draws what was
      submitted besides, unless a texture update dropped its last command. */
  ghost predicate LayerStep(st: State, ref: Ref, op: Op)
    requires Sim(st, ref) && Enabled(ref, op) && Live(op) && Ready(st, op)
  {
    var l := Step(st, op).live;
    var r := RefStep(ref, op);
    && Open(l, r.Tops().0, r.Tops().1)
    && (if Drops(st, op) then |Drawing(l)| < |Drawing(st.live)|
        else
          && |Drawing(l)| == |Drawing(st.live)| + |Emitted(ref, op)|
          && (Exact(st.live) ==> Exact(l) && Drawing(l) == Drawing(st.live) + Emitted(ref, op)))
  }

  lemma ClipLayerStep(st: State, ref: Ref, op: Op)
    requires Sim(st, ref) && Enabled(ref, op) && (op.PushClip? || op.PopClip?) && Ready(st, op)
    ensures LayerStep(st, ref, op)
  {
    hide Render, Total, UpdateClipRect;
    EmptyLayerDrawsNothing();
    var tops := RefStep(ref, op).Tops();
    assert Step(st, op).live == st.live.(cmds := UpdateClipRect(st.live.cmds, tops.0, tops.1));
    if ref.started {
      UpdateClipRectEffect(st.live, ref.Tops().0, tops.0, tops.1);
    } else {
      UpdatesOpenAnEmptyBuffer(tops.0, tops.1);
      AddDrawCmdEffect(st.live, tops.0, tops.1);
    }
  }

  lemma TextureLayerStep(st: State, ref: Ref, op: Op)
    requires Sim(st, ref) && Enabled(ref, op) && (op.PushTexture? || op.PopTexture?) && Ready(st, op)
    ensures LayerStep(st, ref, op)
  {
    hide Render, Total, UpdateTextureID;
    EmptyLayerDrawsNothing();
    var tops := RefStep(ref, op).Tops();
    assert Step(st, op).live == st.live.(cmds := UpdateTextureID(st.live.cmds, tops.0, tops.1));
    if ref.started {
      UpdateTextureIDEffect(st.live, tops.0, ref.Tops().1, tops.1);
    } else {
      UpdatesOpenAnEmptyBuffer(tops.0, tops.1);
      AddDrawCmdEffect(st.live, tops.0, tops.1);
    }
  }

  lemma NewCmdLayerStep(st: State, ref: Ref)
    requires Sim(st, ref) && Ready(st, NewCmd)
    ensures LayerStep(st, ref, NewCmd)
  {
    hide Render, Total, AddDrawCmd;
    EmptyLayerDrawsNothing();
    AddDrawCmdEffect(st.live, ref.Tops().0, ref.Tops().1);
  }

  lemma CallbackLayerStep(st: State, ref: Ref, callback: Pointer, data: Pointer)
    requires Sim(st, ref) && Ready(st, Callback(callback, data))
    ensures LayerStep(st, ref, Callback(callback, data))
  {
    hide Render, Total, AddCallback;
    EmptyLayerDrawsNothing();
    AddCallbackEffect(st.live, ref.Tops().0, ref.Tops().1, callback, data);
  }

  lemma DrawLayerStep(st: State, ref: Ref, idxs: seq<Index>)
    requires Sim(st, ref) && Enabled(ref, Draw(idxs)) && Ready(st, Draw(idxs))
    ensures LayerStep(st, ref, Draw(idxs))
  {
    hide Render, Total, Submit;
    SubmitEffect(st.live, ref.Tops().0, ref.Tops().1, idxs);
  }

  lemma LiveLayerStep(st: State, ref: Ref, op: Op)
    requires Sim(st, ref) && Enabled(ref, op) && Live(op) && Ready(st, op)
    ensures LayerStep(st, ref, op)
  {
    hide LayerStep, Sim, Ready;
    match op
    case PushClip(_, _, _) => ClipLayerStep(st, ref, op);
    case PopClip => ClipLayerStep(st, ref, op);
    case PushTexture(_) => TextureLayerStep(st, ref, op);
    case PopTexture => TextureLayerStep(st, ref, op);
    case NewCmd => NewCmdLayerStep(st, ref);
    case Callback(callback, data) => CallbackLayerStep(st, ref, callback, data);
    case Draw(idxs) => DrawLayerStep(st, ref, idxs);
  }

  /** Only the current channel differs. */
  ghost predicate SameElsewhere(st: State, ref: Ref, s: State, r: Ref)
    requires Sim(st, ref) && Sim(s, r)
  {
    && s.count == st.count && s.current == st.current
    && forall k | 0 <= k < st.count && k != st.current :: s.LayerAt(k) == st.LayerAt(k) && r.layers[k] == ref.layers[k]
  }

  lemma FaithfulFrame(st: State, ref: Ref, s: State, r: Ref)
    requires Sim(st, ref) && Sim(s, r) && SameElsewhere(st, ref, s, r) && Faithful(st, ref) && AllExact(st)
    requires Exact(s.live) && Drawing(s.live) == r.layers[s.current]
    ensures Faithful(s, r) && AllExact(s)
  {
    forall k | 0 <= k < s.count
      ensures DrawingAt(s, r, k) == r.layers[k] && Exact(s.LayerAt(k))
    {
      if k != s.current {
        assert DrawingAt(s, r, k) == DrawingAt(st, ref, k);
      }
    }
  }

  lemma LaggingFrame(st: State, ref: Ref, s: State, r: Ref)
    requires Sim(st, ref) && Sim(s, r) && SameElsewhere(st, ref, s, r) && Lagging(st, ref)
    requires |Drawing(s.live)| - |r.layers[s.current]| <= |Drawing(st.live)| - |ref.layers[st.current]|
    ensures Lagging(s, r)
  {
    var lag :| 0 <= lag < st.count && |DrawingAt(st, ref, lag)| < |ref.layers[lag]|;
    forall k | 0 <= k < s.count
      ensures |DrawingAt(s, r, k)| <= |r.layers[k]|
      ensures k == lag ==> |DrawingAt(s, r, k)| < |r.layers[k]|
    {
      assert |DrawingAt(st, ref, k)| <= |ref.layers[k]|;
    }
  }

  lemma DropFrame(st: State, ref: Ref, s: State, r: Ref)
    requires Sim(st, ref) && Sim(s, r) && SameElsewhere(st, ref, s, r) && Faithful(st, ref)
    requires |Drawing(s.live)| < |r.layers[s.current]|
    ensures Lagging(s, r)
  {
    forall k | 0 <= k < s.count
      ensures |DrawingAt(s, r, k)| <= |r.layers[k]|
    {
      assert |DrawingAt(st, ref, k)| <= |ref.layers[k]|;
    }
    assert |DrawingAt(s, r, s.current)| < |r.layers[s.current]|;
  }

  lemma LiveStep(st: State, ref: Ref, op: Op)
    requires Sim(st, ref) && Enabled(ref, op) && Live(op) && Ready(st, op)
    ensures Sim(Step(st, op), RefStep(ref, op))
    ensures Faithful(st, ref) && AllExact(st) && !Drops(st, op)
            ==> Faithful(Step(st, op), RefStep(ref, op)) && AllExact(Step(st, op))
    ensures Faithful(st, ref) && Drops(st, op) ==> Lagging(Step(st, op), RefStep(ref, op))
    ensures Lagging(st, ref) ==> Lagging(Step(st, op), RefStep(ref, op))
  {
    hide Step, Open, Render, Total, Emitted;
    LiveLayerStep(st, ref, op);
    LiveRefStep(ref, op);
    LiveSim(st, ref, op);
    var s, r, c := Step(st, op), RefStep(ref, op), st.current;
    LayersDrawable(st, ref, c);
    assert DrawingAt(st, ref, c) == Drawing(st.live);
    if Faithful(st, ref) && AllExact(st) && !Drops(st, op) {
      assert Exact(st.LayerAt(c));
      FaithfulFrame(st, ref, s, r);
    }
    if Faithful(st, ref) && Drops(st, op) {
      DropFrame(st, ref, s, r);
    }
    if Lagging(st, ref) {
      LaggingFrame(st, ref, s, r);
    }
  }

  lemma LiveFrame(st: State, ref: Ref, op: Op)
    requires WellFormed(ref) && Enabled(ref, op) && Live(op) && Ready(st, op)
    requires st.clips == ref.clips && st.textures == ref.textures
    ensures var s := Step(st, op); var r := RefStep(ref, op);
            && s.channels == st.channels && s.count == st.count && s.current == st.current
            && s.clips == r.clips && s.textures == r.textures
            && r.current == ref.current && r.tags == ref.tags && |r.layers| == |ref.layers|
            && (forall k | 0 <= k < |r.layers| && k != r.current :: r.layers[k] == ref.layers[k])
    ensures (op.Draw? ==> ref.started) ==> RefStep(ref, op).started
  {
    hide UpdateClipRect, UpdateTextureID, AddCallback, PushedRect, Submit;
  }

  lemma LiveClipsOrdered(st: State, op: Op)
    requires Live(op) && Ready(st, op) && forall r <- st.clips :: r.Ordered()
    ensures forall r <- Step(st, op).clips :: r.Ordered()
  {
    hide UpdateClipRect, UpdateTextureID, AddCallback, PushedRect, Submit;
    if op.PushClip? {
      PushedRectOrdered(st.clips, op.min, op.max, op.intersect);
    }
  }

  lemma LiveSim(st: State, ref: Ref, op: Op)
    requires Sim(st, ref) && Enabled(ref, op) && Live(op) && Ready(st, op)
    requires Open(Step(st, op).live, RefStep(ref, op).Tops().0, RefStep(ref, op).Tops().1)
    ensures Sim(Step(st, op), RefStep(ref, op))
    ensures SameElsewhere(st, ref, Step(st, op), RefStep(ref, op))
  {
    hide Step, RefStep, Open, Ready;
    LiveFrame(st, ref, op);
    LiveClipsOrdered(st, op);
    var s, r := Step(st, op), RefStep(ref, op);
    forall k | 0 <= k < s.count && k != s.current
      ensures Open(s.LayerAt(k), r.tags[k].0, r.tags[k].1)
    {
      assert s.LayerAt(k) == st.LayerAt(k);
    }
  }

  /** Channels keep their drawings when only the slots they live in change. */
  lemma SameDrawings(st: State, ref: Ref, s: State, r: Ref)
    requires Sim(st, ref) && Sim(s, r) && s.count == st.count
    requires forall j | 0 <= j < st.count :: s.LayerAt(j) == st.LayerAt(j)
    requires forall j | 0 <= j < st.count :: r.layers[j] == ref.layers[j]
    ensures Faithful(st, ref) && AllExact(st) ==> Faithful(s, r) && AllExact(s)
    ensures Lagging(st, ref) ==> Lagging(s, r)
  {
    hide Open, Render, Total;
    assert forall j | 0 <= j < st.count :: DrawingAt(s, r, j) == DrawingAt(st, ref, j);
    if Lagging(st, ref) {
      var j :| 0 <= j < st.count && |DrawingAt(st, ref, j)| < |ref.layers[j]|;
      assert |DrawingAt(s, r, j)| < |r.layers[j]|;
    }
  }

  lemma SplitSim(st: State, ref: Ref, n: nat)
    requires Sim(st, ref) && Enabled(ref, Split(n))
    ensures Ready(st, Split(n)) && Sim(Step(st, Split(n)), RefStep(ref, Split(n)))
    ensures var s := Step(st, Split(n));
            && s.live == st.live && s.current == st.current == 0 && s.count == n
            && (forall k | 0 < k < n :: Exact(s.LayerAt(k)) && Drawing(s.LayerAt(k)) == [])
  {
    hide Render;
    RenderSnocEmpty([], FreshCmd(ref.Tops().0, ref.Tops().1), []);
    EmptyLayerDrawsNothing();
    assert [] + [FreshCmd(ref.Tops().0, ref.Tops().1)] == [FreshCmd(ref.Tops().0, ref.Tops().1)];
  }

  lemma SplitStep(st: State, ref: Ref, n: nat)
    requires Sim(st, ref) && Enabled(ref, Split(n))
    ensures var op := Split(n);
            && Ready(st, op) && Sim(Step(st, op), RefStep(ref, op))
            && (Faithful(st, ref) && AllExact(st) ==>
                  Faithful(Step(st, op), RefStep(ref, op)) && AllExact(Step(st, op)))
            && (Lagging(st, ref) ==> Lagging(Step(st, op), RefStep(ref, op)))
  {
    hide Render, Total, Step, SplitSlots, Open;
    SplitSim(st, ref, n);
    var s, r := Step(st, Split(n)), RefStep(ref, Split(n));
    assert DrawingAt(s, r, 0) == DrawingAt(st, ref, 0);
    assert s.LayerAt(0) == st.LayerAt(0);
    assert forall k | 0 < k < n :: DrawingAt(s, r, k) == [] == r.layers[k];
  }

  lemma SwitchStep(st: State, ref: Ref, k: nat)
    requires Sim(st, ref) && Enabled(ref, Switch(k))
    ensures var op := Switch(k);
            && Ready(st, op) && Sim(Step(st, op), RefStep(ref, op))
            && (Faithful(st, ref) && AllExact(st) ==>
                  Faithful(Step(st, op), RefStep(ref, op)) && AllExact(Step(st, op)))
            && (Lagging(st, ref) ==> Lagging(Step(st, op), RefStep(ref, op)))
  {
    hide Open, Faithful, Lagging, AllExact;
    var s, r := Step(st, Switch(k)), RefStep(ref, Switch(k));
    assert forall j | 0 <= j < st.count :: s.LayerAt(j) == st.LayerAt(j);
    assert Sim(s, r);
    SameDrawings(st, ref, s, r);
  }

  // ----- Merging

  ghost predicate Drawable(layer: Layer) {
    Total(layer.cmds) <= |layer.idxs| && CallbacksEmpty(layer.cmds)
  }

  ghost predicate OpenSomehow(layer: Layer) {
    exists tag: Tag :: Open(layer, tag.0, tag.1)
  }

  ghost predicate Mergeable(layers: seq<Layer>) {
    forall k :: 0 <= k < |layers| ==> OpenSomehow(layers[k])
  }

  ghost function Drawings(layers: seq<Layer>): (d: seq<seq<Item>>)
    requires Mergeable(layers)
    ensures |d| == |layers|
  {
    seq(|layers|, k requires 0 <= k < |layers| => Drawing(layers[k]))
  }

  lemma DrawingsSnoc(layers: seq<Layer>)
    requires layers != [] && Mergeable(layers)
    ensures Mergeable(Front(layers)) && OpenSomehow(Last(layers)) && Total(Last(layers).cmds) <= |Last(layers).idxs|
    ensures Concat(Drawings(layers)) == Concat(Drawings(Front(layers))) + Drawing(Last(layers))
  {
    hide Render, Open;
    OpenIsDrawable(Last(layers));
    assert Drawings(layers) == Drawings(Front(layers)) + [Drawing(Last(layers))];
    assert Front(Drawings(layers)) == Drawings(Front(layers));
  }

  lemma OpenIsDrawable(layer: Layer)
    requires OpenSomehow(layer)
    ensures Drawable(layer)
  {}

  lemma {:induction false} MergedDrawable(layers: seq<Layer>)
    requires Mergeable(layers)
    ensures Drawable(Layer(MergedCmds(layers), MergedIdxs(layers)))
    ensures Weight(MergedCmds(layers)) == |Concat(Drawings(layers))|
    decreases |layers|
  {
    if layers != [] {
      DrawingsSnoc(layers);
      MergedDrawable(Front(layers));
      AppendedDrawable(Layer(MergedCmds(Front(layers)), MergedIdxs(Front(layers))), Last(layers));
    }
  }

  lemma AppendedDrawable(merged: Layer, last: Layer)
    requires Drawable(merged) && OpenSomehow(last)
    ensures Drawable(last) && Drawable(Layer(merged.cmds + Trimmed(last.cmds), merged.idxs + last.idxs))
    ensures Weight(merged.cmds + Trimmed(last.cmds)) == Weight(merged.cmds) + |Drawing(last)|
  {
    hide Render, Total, Weight;
    var tag: Tag :| Open(last, tag.0, tag.1);
    TrimmedEffect(last, tag.0, tag.1);
    TotalConcat(merged.cmds, Trimmed(last.cmds));
    WeightConcat(merged.cmds, Trimmed(last.cmds));
    RenderLength(Trimmed(last.cmds), last.idxs);
  }

  /** Merging complete channels draws one after the other. */
  lemma {:induction false} MergedDrawing(layers: seq<Layer>)
    requires Mergeable(layers) && forall k :: 0 <= k < |layers| ==> Exact(layers[k])
    ensures var m := Layer(MergedCmds(layers), MergedIdxs(layers));
            Exact(m) && Drawing(m) == Concat(Drawings(layers))
    decreases |layers|
  {
    if layers != [] {
      hide Render, Total, Drawings;
      DrawingsSnoc(layers);
      MergedDrawing(Front(layers));
      AppendedDrawing(Layer(MergedCmds(Front(layers)), MergedIdxs(Front(layers))), Last(layers));
    }
  }

  lemma AppendedDrawing(merged: Layer, last: Layer)
    requires Exact(merged) && OpenSomehow(last) && Exact(last)
    ensures var m := Layer(merged.cmds + Trimmed(last.cmds), merged.idxs + last.idxs);
            Exact(m) && Drawing(m) == Drawing(merged) + Drawing(last)
  {
    hide Render, Total;
    var tag: Tag :| Open(last, tag.0, tag.1);
    TrimmedEffect(last, tag.0, tag.1);
    TotalConcat(merged.cmds, Trimmed(last.cmds));
    RenderConcat(merged.cmds, merged.idxs, Trimmed(last.cmds), last.idxs);
  }

  lemma {:induction false} ConcatLengths(a: seq<seq<Item>>, b: seq<seq<Item>>)
    requires |a| == |b| && forall k :: 0 <= k < |a| ==> |a[k]| <= |b[k]|
    ensures |Concat(a)| <= |Concat(b)|
    ensures (exists k :: 0 <= k < |a| && |a[k]| < |b[k]|) ==> |Concat(a)| < |Concat(b)|
    decreases |a|
  {
    if a != [] {
      ConcatLengths(Front(a), Front(b));
      if k :| 0 <= k < |a| && |a[k]| < |b[k]| {
        assert k < |a| - 1 ==> |Front(a)[k]| < |Front(b)[k]|;
      }
    }
  }

  /** The channels in drawing order. */
  ghost function LayersOf(st: State): (layers: seq<Layer>)
    requires st.current < st.count && (st.count > 1 ==> st.count <= |st.channels|)
  {
    seq(st.count, k requires 0 <= k < st.count => st.LayerAt(k))
  }

  lemma LayersOfSim(st: State, ref: Ref)
    requires Sim(st, ref) && ref.started
    ensures Mergeable(LayersOf(st))
    ensures forall k | 0 <= k < st.count :: Drawings(LayersOf(st))[k] == DrawingAt(st, ref, k)
  {
    forall k | 0 <= k < st.count
      ensures OpenSomehow(st.LayerAt(k))
    {
      var tag := if k == st.current then ref.Tops() else ref.tags[k];
      assert Open(st.LayerAt(k), tag.0, tag.1);
    }
  }

  lemma MergedLayers(st: State)
    requires st.current < st.count && 1 < st.count <= |st.channels|
    ensures [SetCurrent(st, 0).live] + SetCurrent(st, 0).channels[1..st.count] == LayersOf(st)
  {
    var s0 := SetCurrent(st, 0);
    assert s0.live == st.LayerAt(0);
    assert forall k | 1 <= k < st.count :: s0.channels[k] == st.LayerAt(k);
  }

  lemma MergeShape(st: State, ref: Ref)
    requires Sim(st, ref) && st.count > 1
    ensures Ready(st, MergeAll)
    ensures var m := Step(st, MergeAll); var layers := LayersOf(st);
            && m.live == Layer(AddDrawCmd(MergedCmds(layers), ref.Tops().0, ref.Tops().1), MergedIdxs(layers))
            && m.clips == st.clips && m.textures == st.textures && m.current == 0 && m.count == 1
  {
    hide MergedCmds, MergedIdxs, TrimSlots, AddDrawCmd, Open;
    MergedLayers(st);
  }

  lemma MergeStep(st: State, ref: Ref)
    requires Sim(st, ref)
    ensures var op := MergeAll;
            && Ready(st, op) && Sim(Step(st, op), RefStep(ref, op))
            && (Faithful(st, ref) && AllExact(st) ==>
                  Faithful(Step(st, op), RefStep(ref, op)) && AllExact(Step(st, op)))
            && (Lagging(st, ref) ==> Lagging(Step(st, op), RefStep(ref, op)))
  {
    if st.count > 1 {
      MergeSim(st, ref);
      if Faithful(st, ref) && AllExact(st) {
        MergeFaithful(st, ref);
      }
      if Lagging(st, ref) {
        MergeLagging(st, ref);
      }
    }
  }

  lemma MergeFaithful(st: State, ref: Ref)
    requires Sim(st, ref) && st.count > 1 && Faithful(st, ref) && AllExact(st)
    requires Ready(st, MergeAll) && Sim(Step(st, MergeAll), RefStep(ref, MergeAll))
    ensures Faithful(Step(st, MergeAll), RefStep(ref, MergeAll)) && AllExact(Step(st, MergeAll))
  {
    hide Step, Open, Render, Total, MergedCmds, MergedIdxs, Concat;
    var layers, s, r := LayersOf(st), Step(st, MergeAll), RefStep(ref, MergeAll);
    LayersOfSim(st, ref);
    MergedDrawing(layers);
    assert Drawings(layers) == ref.layers;
    MergeSim(st, ref);
    assert DrawingAt(s, r, 0) == r.layers[0];
  }

  lemma MergeLagging(st: State, ref: Ref)
    requires Sim(st, ref) && st.count > 1 && Lagging(st, ref)
    requires Ready(st, MergeAll) && Sim(Step(st, MergeAll), RefStep(ref, MergeAll))
    ensures Lagging(Step(st, MergeAll), RefStep(ref, MergeAll))
  {
    hide Step, Open, Render, Total, MergedCmds, MergedIdxs, Concat;
    var layers, s, r := LayersOf(st), Step(st, MergeAll), RefStep(ref, MergeAll);
    LayersOfSim(st, ref);
    MergedDrawable(layers);
    var lag :| 0 <= lag < st.count && |DrawingAt(st, ref, lag)| < |ref.layers[lag]|;
    assert |Drawings(layers)[lag]| < |ref.layers[lag]|;
    ConcatLengths(Drawings(layers), ref.layers);
    MergeSim(st, ref);
    assert |DrawingAt(s, r, 0)| < |r.layers[0]|;
  }

  lemma MergeSim(st: State, ref: Ref)
    requires Sim(st, ref) && st.count > 1
    ensures Ready(st, MergeAll) && Sim(Step(st, MergeAll), RefStep(ref, MergeAll))
    ensures var merged := Layer(MergedCmds(LayersOf(st)), MergedIdxs(LayersOf(st)));
            && Drawable(merged)
            && DrawingAt(Step(st, MergeAll), RefStep(ref, MergeAll), 0) == Drawing(merged)
            && |Drawing(merged)| == Weight(merged.cmds)
            && (Exact(merged) <==> Exact(Step(st, MergeAll).live))
  {
    MergeShape(st, ref);
    LayersOfSim(st, ref);
    var merged := Layer(MergedCmds(LayersOf(st)), MergedIdxs(LayersOf(st)));
    MergedDrawable(LayersOf(st));
    AddDrawCmdEffect(merged, ref.Tops().0, ref.Tops().1);
    RenderLength(merged.cmds, merged.idxs);
  }

  // ----- Runs

  lemma ClearStep(st: State, ref: Ref)
    requires Sim(st, ref) && Ready(st, Clear)
    ensures Sim(Step(st, Clear), RefStep(ref, Clear))
    ensures Faithful(Step(st, Clear), RefStep(ref, Clear)) && AllExact(Step(st, Clear)) && !Drops(st, Clear)
  {}

  lemma StepSim(st: State, ref: Ref, op: Op)
    requires Sim(st, ref) && Enabled(ref, op)
    ensures Ready(st, op) && Sim(Step(st, op), RefStep(ref, op))
    ensures (op.Clear? || (Faithful(st, ref) && AllExact(st) && !Drops(st, op)))
            ==> Faithful(Step(st, op), RefStep(ref, op)) && AllExact(Step(st, op))
    ensures Faithful(st, ref) && Drops(st, op) ==> Lagging(Step(st, op), RefStep(ref, op))
    ensures Lagging(st, ref) && !op.Clear? ==> Lagging(Step(st, op), RefStep(ref, op))
  {
    hide Step, RefStep, Sim, Faithful, Lagging, AllExact, Ready;
    ReadyStep(st, ref, op);
    match op
    case Clear => ClearStep(st, ref);
    case Split(n) => SplitStep(st, ref, n);
    case Switch(k) => SwitchStep(st, ref, k);
    case MergeAll => MergeStep(st, ref);
    case _ => LiveStep(st, ref, op);
  }

  ghost function Run(ops: seq<Op>): (st: State)
    requires Legal(ops)
    ensures Sim(st, RefRun(ops))
  {
    if ops == [] then EMPTY_LIST
    else
      StepSim(Run(Front(ops)), RefRun(Front(ops)), Last(ops));
      Step(Run(Front(ops)), Last(ops))
  }

  /** No texture push or pop since the last Clear came upon a last command that holds indices, shows the
      new texture already, and has a neighbour before it with the same state. */
  ghost predicate LossFree(ops: seq<Op>)
    requires Legal(ops)
  {
    ops == [] ||
    (ReadyStep(Run(Front(ops)), RefRun(Front(ops)), Last(ops));
     Last(ops).Clear? || (LossFree(Front(ops)) && !Drops(Run(Front(ops)), Last(ops))))
  }

  lemma {:induction false} RunOutcome(ops: seq<Op>)
    requires Legal(ops)
    ensures if LossFree(ops) then Faithful(Run(ops), RefRun(ops)) && AllExact(Run(ops))
            else Lagging(Run(ops), RefRun(ops))
    decreases |ops|
  {
    if ops != [] {
      RunOutcome(Front(ops));
      StepSim(Run(Front(ops)), RefRun(Front(ops)), Last(ops));
    }
  }

  /** On buffers that are values, a legal run draws, channel by channel, the items submitted, each under the clip
      rectangle and texture on top of the stacks at its submission, if and only if no texture update took
      the dropping branch.  `ListRuns.dfy` says when the code's buffers behave as values. */
  lemma {:induction false} BatchingKeepsValues(ops: seq<Op>)
    requires Legal(ops)
    ensures Faithful(Run(ops), RefRun(ops)) <==> LossFree(ops)
  {
    RunOutcome(ops);
  }

  // ----- When nothing is lost

  /** Calls that never put two commands with the same state side by side. */
  predicate Careful(op: Op) {
    !op.NewCmd? && !op.MergeAll? && (op.Callback? ==> op.callback != NULL)
  }

  ghost predicate NoTwinsAnywhere(st: State)
    requires st.current < st.count && (st.count > 1 ==> st.count <= |st.channels|)
  {
    forall k | 0 <= k < st.count :: NoTwins(st.LayerAt(k).cmds)
  }

  lemma CarefulUpdateStep(st: State, ref: Ref, op: Op)
    requires Sim(st, ref) && Enabled(ref, op) && Live(op) && !op.NewCmd? && !op.Callback? && !op.Draw?
             && NoTwins(st.live.cmds)
    ensures Ready(st, op) && !Drops(st, op) && NoTwins(Step(st, op).live.cmds)
  {
    hide NoTwins, UpdateClipRect, UpdateTextureID, DropsIndices, PushedRect, Total;
    var tops, tops' := ref.Tops(), RefStep(ref, op).Tops();
    UpdatesKeepNoTwins(st.live.cmds, tops.0, tops.1, tops'.0, tops'.1);
  }

  lemma CarefulLiveStep(st: State, ref: Ref, op: Op)
    requires Sim(st, ref) && Enabled(ref, op) && Live(op) && Careful(op) && NoTwins(st.live.cmds)
    ensures Ready(st, op) && !Drops(st, op) && NoTwins(Step(st, op).live.cmds)
  {
    hide NoTwins, AddCallback, Submit, Total;
    match op
    case Callback(callback, data) => CallbackKeepsNoTwins(st.live.cmds, ref.Tops().0, ref.Tops().1, callback, data);
    case Draw(idxs) => SubmitKeepsNoTwins(st.live, idxs);
    case _ => CarefulUpdateStep(st, ref, op);
  }

  lemma SimStep(st: State, ref: Ref, op: Op)
    requires Sim(st, ref) && Enabled(ref, op)
    ensures Ready(st, op) && Sim(Step(st, op), RefStep(ref, op))
  {
    StepSim(st, ref, op);
  }

  lemma CarefulStep(st: State, ref: Ref, op: Op)
    requires Sim(st, ref) && Enabled(ref, op) && Careful(op) && NoTwinsAnywhere(st)
    ensures Ready(st, op) && !Drops(st, op)
    ensures Sim(Step(st, op), RefStep(ref, op)) && NoTwinsAnywhere(Step(st, op))
  {
    SimStep(st, ref, op);
    assert NoTwins(st.LayerAt(st.current).cmds);
    if Live(op) {
      CarefulLiveStep(st, ref, op);
      LiveElsewhere(st, op);
      NoTwinsFrame(st, Step(st, op));
    } else if op.Switch? {
      SwitchKeepsLayers(st, op.k);
      forall k | 0 <= k < st.count
        ensures NoTwins(SetCurrent(st, op.k).LayerAt(k).cmds)
      {
        assert NoTwins(st.LayerAt(k).cmds);
      }
    }
  }

  lemma NoTwinsFrame(st: State, s: State)
    requires st.current < st.count && (st.count > 1 ==> st.count <= |st.channels|) && NoTwinsAnywhere(st)
    requires s.channels == st.channels && s.count == st.count && s.current == st.current && NoTwins(s.live.cmds)
    ensures NoTwinsAnywhere(s)
  {
    forall k | 0 <= k < s.count
      ensures NoTwins(s.LayerAt(k).cmds)
    {
      assert NoTwins(st.LayerAt(k).cmds);
    }
  }

  lemma SwitchKeepsLayers(st: State, k: nat)
    requires k < st.count && st.current < st.count && (st.count > 1 ==> st.count <= |st.channels|)
    ensures forall j | 0 <= j < st.count :: SetCurrent(st, k).LayerAt(j) == st.LayerAt(j)
  {}

  lemma LiveElsewhere(st: State, op: Op)
    requires Ready(st, op) && Live(op)
    ensures Step(st, op).channels == st.channels && Step(st, op).count == st.count && Step(st, op).current == st.current
  {}

  /** Since the last Clear all calls were careful. */
  predicate CarefulSince(ops: seq<Op>) {
    ops == [] || Last(ops).Clear? || (CarefulSince(Front(ops)) && Careful(Last(ops)))
  }

  /** The texture on top is another one after the call. */
  predicate ChangesTexture(ref: Ref, op: Op)
    requires WellFormed(ref) && Enabled(ref, op)
  {
    RefStep(ref, op).Tops().1 != ref.Tops().1
  }

  /** Since the last Clear every texture push and pop changed the texture on top. */
  ghost predicate TexturesChange(ops: seq<Op>)
    requires Legal(ops)
  {
    ops == [] || Last(ops).Clear?
    || (TexturesChange(Front(ops))
        && (Last(ops).PushTexture? || Last(ops).PopTexture? ==> ChangesTexture(RefRun(Front(ops)), Last(ops))))
  }

  /** Since the last Clear every texture push and pop changed the texture on top, or came after careful calls only. */
  ghost predicate Tidy(ops: seq<Op>)
    requires Legal(ops)
  {
    ops == [] || Last(ops).Clear?
    || (Tidy(Front(ops))
        && (Last(ops).PushTexture? || Last(ops).PopTexture? ==>
              ChangesTexture(RefRun(Front(ops)), Last(ops)) || CarefulSince(Front(ops))))
  }

  lemma {:induction false} CarefulIsTidy(ops: seq<Op>)
    requires Legal(ops) && CarefulSince(ops)
    ensures Tidy(ops)
    decreases |ops|
  {
    if ops != [] && !Last(ops).Clear? {
      CarefulIsTidy(Front(ops));
    }
  }

  lemma {:induction false} ChangingIsTidy(ops: seq<Op>)
    requires Legal(ops) && TexturesChange(ops)
    ensures Tidy(ops)
    decreases |ops|
  {
    if ops != [] && !Last(ops).Clear? {
      ChangingIsTidy(Front(ops));
    }
  }

  lemma {:induction false} CarefulRun(ops: seq<Op>)
    requires Legal(ops) && CarefulSince(ops)
    ensures NoTwinsAnywhere(Run(ops))
    decreases |ops|
  {
    hide Step, RefStep, Sim, Enabled, Careful;
    if ops != [] {
      var front, op := Front(ops), Last(ops);
      if op.Clear? {
        ClearHasNoTwins(Run(front));
      } else {
        CarefulRun(front);
        CarefulStep(Run(front), RefRun(front), op);
      }
    }
  }

  lemma ClearHasNoTwins(st: State)
    ensures Step(st, Clear).current < Step(st, Clear).count && Step(st, Clear).count == 1
    ensures NoTwinsAnywhere(Step(st, Clear))
  {}

  /** Whatever the commands are, an update to another texture drops nothing: the last command has the old one. */
  lemma ChangeDropsNothing(st: State, ref: Ref, op: Op)
    requires Sim(st, ref) && Enabled(ref, op) && Ready(st, op) && (op.PushTexture? || op.PopTexture?)
    requires ChangesTexture(ref, op)
    ensures !Drops(st, op)
  {}

  lemma {:induction false} TidyRun(ops: seq<Op>)
    requires Legal(ops) && Tidy(ops)
    ensures LossFree(ops)
    decreases |ops|
  {
    hide Step, RefStep, Sim, Enabled, Drops, Careful, ChangesTexture;
    if ops != [] && !Last(ops).Clear? {
      var front, op := Front(ops), Last(ops);
      TidyRun(front);
      ReadyStep(Run(front), RefRun(front), op);
      if !op.PushTexture? && !op.PopTexture? {
        OnlyTexturesDrop(Run(front), op);
      } else if ChangesTexture(RefRun(front), op) {
        ChangeDropsNothing(Run(front), RefRun(front), op);
      } else {
        CarefulRun(front);
        TextureCallIsCareful(op);
        CarefulStep(Run(front), RefRun(front), op);
      }
    }
  }

  lemma OnlyTexturesDrop(st: State, op: Op)
    requires Ready(st, op) && !op.PushTexture? && !op.PopTexture?
    ensures !Drops(st, op)
  {}

  lemma TextureCallIsCareful(op: Op)
    requires op.PushTexture? || op.PopTexture?
    ensures Careful(op)
  {}

  // ----- Entering a channel, clip rectangles, images

  /** A primitive submitted right after entering channel k gets the state on top of the stacks exactly
      when channel k was left under that state. */
  lemma SwitchedDrawIsTaggedIff(st: State, ref: Ref, k: nat, idxs: seq<Index>)
    requires Sim(st, ref) && AllExact(st) && k < st.count && k != st.current && idxs != []
    ensures Ready(st, Switch(k)) && SetCurrent(st, k).live == st.LayerAt(k)
    ensures Drawing(Submit(st.LayerAt(k), idxs)) == Drawing(st.LayerAt(k)) + Elems(idxs, st.TopClip(), st.TopTexture())
            <==> ref.tags[k] == ref.Tops()
  {
    SubmitEffect(st.LayerAt(k), ref.tags[k].0, ref.tags[k].1, idxs);
    var mine, wanted := Elems(idxs, ref.tags[k].0, ref.tags[k].1), Elems(idxs, st.TopClip(), st.TopTexture());
    var before := Drawing(st.LayerAt(k));
    assert (before + mine)[|before|] == mine[0] && (before + wanted)[|before|] == wanted[0];
  }

  /** The rectangle pushed shows a pixel when the requested one does and, with intersection on, the
      rectangle below it does too; inverted requests show nothing. */
  lemma PushedRectClips(clips: seq<Rect>, min: Vec2, max: Vec2, intersect: bool, p: Vec2)
    ensures var r := PushedRect(clips, min, max, intersect);
            && r.Ordered()
            && (r.Contains(p) <==> Rect(min.x, min.y, max.x, max.y).Contains(p)
                                   && (intersect && clips != [] ==> Last(clips).Contains(p)))
  {}

  /** AddImage pushes the image's texture, unless it is on top of a stack that is not empty, draws, and pops.  That
      loses nothing if the texture differs from the current one, whatever the commands look like beforehand;
      or else (NULL on an empty stack) if no two commands could have been one. */
  lemma ImageLosesNothing(st: State, ref: Ref, texture: Pointer, idxs: seq<Index>)
    requires Sim(st, ref) && ref.started && idxs != []
    requires ref.textures == [] || texture != Last(ref.textures)
    ensures var s1 := Step(st, PushTexture(texture));
            && Ready(s1, Draw(idxs))
            && var s2 := Step(s1, Draw(idxs));
            && Ready(s2, PopTexture)
            && (texture != ref.Tops().1 || NoTwins(st.live.cmds) ==>
                  !Drops(st, PushTexture(texture)) && !Drops(s2, PopTexture))
  {
    hide UpdateTextureID, Total, NoTwins, DropsIndices;
    var clip := ref.Tops().0;
    var pushed := st.(textures := st.textures + [texture]);
    assert pushed.TopClip() == clip && pushed.TopTexture() == texture;
    var s1 := Step(st, PushTexture(texture));
    assert s1.live.cmds == UpdateTextureID(st.live.cmds, clip, texture) && s1.textures == pushed.textures;
    RetexturedCmds(st.live.cmds, clip, ref.Tops().1, texture);
    var s2 := Step(s1, Draw(idxs));
    assert s2.live == Submit(s1.live, idxs) && s2.textures == pushed.textures;
    assert Front(s2.textures) == st.textures;
    if texture != ref.Tops().1 {
      OtherTextureStays(s2.live.cmds, clip, texture, ref.Tops().1);
    } else if NoTwins(st.live.cmds) {
      UpdatesKeepNoTwins(st.live.cmds, clip, ref.Tops().1, clip, texture);
      SubmitKeepsNoTwins(s1.live, idxs);
      UpdatesKeepNoTwins(s2.live.cmds, clip, texture, clip, ref.Tops().1);
    }
  }

  lemma OtherTextureStays(cmds: seq<DrawCmd>, clip: Rect, texture: Pointer, newTexture: Pointer)
    requires cmds != [] && Last(cmds).texture == texture != newTexture
    ensures !DropsIndices(cmds, clip, newTexture)
  {}

  lemma RetexturedCmds(cmds: seq<DrawCmd>, clip: Rect, oldTexture: Pointer, texture: Pointer)
    requires cmds != [] && Matches(Last(cmds), clip, oldTexture)
    ensures oldTexture != texture ==> !DropsIndices(cmds, clip, texture)
    ensures var c := UpdateTextureID(cmds, clip, texture);
            c != [] && Matches(Last(c), clip, texture)
  {}
}
