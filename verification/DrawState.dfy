/** The values an `ImDrawList` holds, what the renderer makes of them, and each list operation as a
    function from the list before the call to the list after it.  `DrawList.dfy` holds the class whose
    methods are proved to compute these functions; `Batching.dfy` proves what they mean. */
module DrawState {

  datatype Vec2 = Vec2(x: real, y: real)

  /** ImVec4 used as a rectangle: (x, y) is the upper-left corner and (z, w) the lower-right one. */
  datatype Rect = Rect(x: real, y: real, z: real, w: real) {
    predicate Ordered() {
      x <= z && y <= w
    }

    /** A pixel position lies in the half-open rectangle. */
    predicate Contains(p: Vec2) {
      x <= p.x < z && y <= p.y < w
    }
  }

  /** ImTextureID, UserCallback and UserCallbackData are pointers: a number each, 0 for NULL. */
  type Pointer = nat
  const NULL: Pointer := 0

  const NULL_CLIP_RECT := Rect(-8192.0, -8192.0, 8192.0, 8192.0)

  /** ImDrawIdx is an unsigned short. */
  type Index = n: nat | n < 0x10000

  datatype DrawCmd = DrawCmd(elemCount: nat, clip: Rect, texture: Pointer, callback: Pointer, callbackData: Pointer)

  /** ImDrawChannel: the command and index buffers that the list swaps in and out. */
  datatype Layer = Layer(cmds: seq<DrawCmd>, idxs: seq<Index>)

  const EMPTY_LAYER := Layer([], [])

  /** The part of an ImDrawList that decides what is drawn in which order.  `channels` is the whole of
      _Channels: the slot of the current channel is stale, and slots from `count` on are spare. */
  datatype State = State(live: Layer, clips: seq<Rect>, textures: seq<Pointer>,
                         current: nat, count: nat, channels: seq<Layer>)
  {
    function TopClip(): Rect {
      if clips == [] then NULL_CLIP_RECT else clips[|clips| - 1]
    }

    function TopTexture(): Pointer {
      if textures == [] then NULL else textures[|textures| - 1]
    }

    predicate HasLayer(k: nat) {
      k < count && (k == current || k < |channels|)
    }

    function LayerAt(k: nat): Layer
      requires HasLayer(k)
    {
      if k == current then live else channels[k]
    }
  }

  // ----- What a command buffer draws

  /** One thing the renderer does: send one index to the GPU, or call back the user, under a clip
      rectangle and a texture. */
  datatype Item =
    | Elem(index: Index, clip: Rect, texture: Pointer)
    | Call(callback: Pointer, data: Pointer, clip: Rect, texture: Pointer)

  function Last<T>(s: seq<T>): T
    requires s != []
  {
    s[|s| - 1]
  }

  function Front<T>(s: seq<T>): seq<T>
    requires s != []
  {
    s[..|s| - 1]
  }

  /** The number of indices the commands consume. */
  function Total(cmds: seq<DrawCmd>): nat {
    if cmds == [] then 0 else Total(Front(cmds)) + Last(cmds).elemCount
  }

  function Elems(idxs: seq<Index>, clip: Rect, texture: Pointer): (items: seq<Item>)
    ensures |items| == |idxs|
  {
    seq(|idxs|, i requires 0 <= i < |idxs| => Elem(idxs[i], clip, texture))
  }

  function CmdItems(cmd: DrawCmd, idxs: seq<Index>): seq<Item> {
    if cmd.callback != NULL then [Call(cmd.callback, cmd.callbackData, cmd.clip, cmd.texture)]
    else Elems(idxs, cmd.clip, cmd.texture)
  }

  /** What drawing a layer does: each command consumes the next elemCount indices. */
  function Render(cmds: seq<DrawCmd>, idxs: seq<Index>): seq<Item>
    requires Total(cmds) <= |idxs|
  {
    if cmds == [] then []
    else
      Render(Front(cmds), idxs) + CmdItems(Last(cmds), idxs[Total(Front(cmds))..Total(cmds)])
  }

  // ----- The operations on a command buffer, under the stack tops `clip` and `texture`

  function FreshCmd(clip: Rect, texture: Pointer): DrawCmd {
    DrawCmd(0, clip, texture, NULL, NULL)
  }

  function AddDrawCmd(cmds: seq<DrawCmd>, clip: Rect, texture: Pointer): seq<DrawCmd> {
    cmds + [FreshCmd(clip, texture)]
  }

  predicate CanHoldCallback(cmds: seq<DrawCmd>) {
    cmds != [] && Last(cmds).elemCount == 0 && Last(cmds).callback == NULL
  }

  function AddCallback(cmds: seq<DrawCmd>, clip: Rect, texture: Pointer, callback: Pointer,
                       data: Pointer): seq<DrawCmd> {
    var cs := if CanHoldCallback(cmds) then cmds else AddDrawCmd(cmds, clip, texture);
    AddDrawCmd(Front(cs) + [Last(cs).(callback := callback, callbackData := data)], clip, texture)
  }

  /** Command k could be continued under the given state. */
  predicate Matches(cmd: DrawCmd, clip: Rect, texture: Pointer) {
    cmd.clip == clip && cmd.texture == texture && cmd.callback == NULL
  }

  predicate PreviousMatches(cmds: seq<DrawCmd>, clip: Rect, texture: Pointer) {
    |cmds| > 1 && Matches(cmds[|cmds| - 2], clip, texture)
  }

  function UpdateClipRect(cmds: seq<DrawCmd>, clip: Rect, texture: Pointer): seq<DrawCmd> {
    if cmds == [] || (Last(cmds).elemCount != 0 && Last(cmds).clip != clip) || Last(cmds).callback != NULL then
      AddDrawCmd(cmds, clip, texture)
    else if Last(cmds).elemCount == 0 && PreviousMatches(cmds, clip, texture) then
      Front(cmds)
    else
      Front(cmds) + [Last(cmds).(clip := clip)]
  }

  function UpdateTextureID(cmds: seq<DrawCmd>, clip: Rect, texture: Pointer): seq<DrawCmd> {
    if cmds == [] || (Last(cmds).elemCount != 0 && Last(cmds).texture != texture) || Last(cmds).callback != NULL then
      AddDrawCmd(cmds, clip, texture)
    else if PreviousMatches(cmds, clip, texture) then
      Front(cmds)
    else
      Front(cmds) + [Last(cmds).(texture := texture)]
  }

  /** Reserving and writing a primitive's indices. */
  function Submit(layer: Layer, idxs: seq<Index>): Layer
    requires layer.cmds != []
  {
    Layer(Front(layer.cmds) + [Last(layer.cmds).(elemCount := Last(layer.cmds).elemCount + |idxs|)], layer.idxs + idxs)
  }

  function Max(a: real, b: real): real {
    if a >= b then a else b
  }

  /** The rectangle PushClipRect pushes. */
  function PushedRect(clips: seq<Rect>, min: Vec2, max: Vec2, intersect: bool): Rect {
    var cr := Rect(min.x, min.y, max.x, max.y);
    var cut :=
      if intersect && clips != [] then
        var top := Last(clips);
        Rect(if cr.x < top.x then top.x else cr.x, if cr.y < top.y then top.y else cr.y,
             if cr.z > top.z then top.z else cr.z, if cr.w > top.w then top.w else cr.w)
      else cr;
    Rect(cut.x, cut.y, Max(cut.x, cut.z), Max(cut.y, cut.w))
  }

  // ----- Channels

  /** The slots that ChannelsSplit leaves behind: slot 0 wiped, slots 1..n emptied and opened. */
  function SplitSlots(channels: seq<Layer>, n: nat, clip: Rect, texture: Pointer): (slots: seq<Layer>)
    requires n >= 1
    ensures |slots| == if |channels| < n then n else |channels|
    ensures slots[0] == EMPTY_LAYER
    ensures forall k :: 1 <= k < n ==> slots[k] == Layer([FreshCmd(clip, texture)], [])
  {
    var size := if |channels| < n then n else |channels|;
    seq(size, k requires 0 <= k < size =>
      if k == 0 then EMPTY_LAYER
      else if k < n then Layer([FreshCmd(clip, texture)], [])
      else channels[k])
  }

  /** ChannelsSetCurrent: park the live buffers in their slot and bring in those of channel k. */
  function SetCurrent(st: State, k: nat): State
    requires k == st.current || (k < |st.channels| && st.current < |st.channels|)
  {
    if k == st.current then st
    else
      var parked := st.channels[st.current := st.live];
      st.(channels := parked, current := k, live := parked[k])
  }

  /** A trailing command without indices is dropped before merging. */
  function Trimmed(cmds: seq<DrawCmd>): seq<DrawCmd> {
    if cmds != [] && Last(cmds).elemCount == 0 then Front(cmds) else cmds
  }

  function MergedCmds(layers: seq<Layer>): seq<DrawCmd> {
    if layers == [] then [] else MergedCmds(Front(layers)) + Trimmed(Last(layers).cmds)
  }

  function MergedIdxs(layers: seq<Layer>): seq<Index> {
    if layers == [] then [] else MergedIdxs(Front(layers)) + Last(layers).idxs
  }

  /** The trimming also happens in the slots, which stay behind as spare storage. */
  function TrimSlots(channels: seq<Layer>, n: nat): (slots: seq<Layer>)
    requires 1 <= n <= |channels|
    ensures |slots| == |channels|
  {
    seq(|channels|, k requires 0 <= k < |channels| =>
      if 1 <= k < n then Layer(Trimmed(channels[k].cmds), channels[k].idxs) else channels[k])
  }

  function Merge(st: State): State
    requires st.count <= 1 || (st.current < |st.channels| && st.count <= |st.channels|)
  {
    if st.count <= 1 then st
    else
      var s0 := SetCurrent(st, 0);
      var layers := [s0.live] + s0.channels[1..st.count];
      s0.(live := Layer(AddDrawCmd(MergedCmds(layers), st.TopClip(), st.TopTexture()), MergedIdxs(layers)),
          channels := TrimSlots(s0.channels, st.count),
          count := 1)
  }

  // ----- Whole operations

  datatype Op =
    | Clear
    | PushClip(min: Vec2, max: Vec2, intersect: bool)
    | PopClip
    | PushTexture(texture: Pointer)
    | PopTexture
    | NewCmd
    | Callback(callback: Pointer, data: Pointer)
    | Draw(idxs: seq<Index>)
    | Split(n: nat)
    | Switch(k: nat)
    | MergeAll

  /** What the code needs in order not to read outside its buffers or trip an IM_ASSERT. */
  predicate Ready(st: State, op: Op) {
    match op
    case PopClip => st.clips != []
    case PopTexture => st.textures != []
    case Draw(_) => st.live.cmds != []
    case Split(n) => n >= 1 && st.current == 0 && st.count == 1 && st.clips != [] && st.textures != []
    case Switch(k) => k < st.count && (k == st.current || (k < |st.channels| && st.current < |st.channels|))
    case MergeAll => st.count <= 1 || (st.current < |st.channels| && st.count <= |st.channels|)
    case _ => true
  }

  function SetCmds(st: State, cmds: seq<DrawCmd>): State {
    st.(live := st.live.(cmds := cmds))
  }

  function ReclipTop(st: State): State {
    SetCmds(st, UpdateClipRect(st.live.cmds, st.TopClip(), st.TopTexture()))
  }

  function RetextureTop(st: State): State {
    SetCmds(st, UpdateTextureID(st.live.cmds, st.TopClip(), st.TopTexture()))
  }

  function Drawn(st: State, idxs: seq<Index>): State
    requires st.live.cmds != []
  {
    st.(live := Submit(st.live, idxs))
  }

  function Step(st: State, op: Op): State
    requires Ready(st, op)
  {
    match op
    case Clear => State(EMPTY_LAYER, [], [], 0, 1, st.channels)
    case PushClip(min, max, intersect) => ReclipTop(st.(clips := st.clips
         + [PushedRect(st.clips, min, max, intersect)]))
    case PopClip => ReclipTop(st.(clips := Front(st.clips)))
    case PushTexture(texture) => RetextureTop(st.(textures := st.textures + [texture]))
    case PopTexture => RetextureTop(st.(textures := Front(st.textures)))
    case NewCmd => SetCmds(st, AddDrawCmd(st.live.cmds, st.TopClip(), st.TopTexture()))
    case Callback(callback, data) => SetCmds(st,
         AddCallback(st.live.cmds, st.TopClip(), st.TopTexture(), callback, data))
    case Draw(idxs) => Drawn(st, idxs)
    case Split(n) => st.(channels := SplitSlots(st.channels, n, Last(st.clips), Last(st.textures)), count := n)
    case Switch(k) => SetCurrent(st, k)
    case MergeAll => Merge(st)
  }
}
