/** The storage behind a draw list's command and index buffers.  A buffer is an ImVector: a header that points
    at a block of memory.  Switching channels copies headers, not blocks, so two headers can point at one
    block; this model says what every call of `DrawState` then does to the memory.  Its steps give None where
    the code would touch memory that has been freed. */
module Storage {
  import opened Basics
  import opened DrawState
  import Vector

  // ----- Vectors

  /** The fields of an ImVector.  With a capacity of 0 there is no block. */
  datatype Header = Header(size: nat, capacity: nat, block: nat)

  const NO_BLOCK := Header(0, 0, 0)

  /** The allocated blocks by name; `next` has never been used as one. */
  datatype Memory<T> = Memory(blocks: map<nat, seq<T>>, next: nat)

  /** The header's block is allocated, or there is none. */
  predicate Usable<T>(mem: Memory<T>, h: Header) {
    && h.size <= h.capacity
    && (h.capacity > 0 ==> h.block in mem.blocks && |mem.blocks[h.block]| == h.capacity)
  }

  function Contents<T>(mem: Memory<T>, h: Header): (s: seq<T>)
    requires Usable(mem, h)
    ensures |s| == h.size
  {
    if h.capacity == 0 then [] else mem.blocks[h.block][..h.size]
  }

  function Filler<T>(t: T, n: nat): (s: seq<T>)
    ensures |s| == n
  {
    seq(n, _ => t)
  }

  /** The memory after a vector has moved to a larger block; the old one is freed.  `blank` stands for what
      uninitialised memory holds. */
  function Reallocated<T>(mem: Memory<T>, h: Header, capacity: nat, blank: T): Memory<T>
    requires Usable(mem, h) && h.size <= capacity
  {
    var block := Contents(mem, h) + Filler(blank, capacity - h.size);
    var freed := if h.capacity > 0 then mem.blocks - {h.block} else mem.blocks;
    Memory(freed[mem.next := block], mem.next + 1)
  }

  /** Makes room for `size` elements. */
  function Reserve<T>(mem: Memory<T>, h: Header, size: nat, blank: T): (r: (Memory<T>, Header))
    requires Usable(mem, h)
    ensures Usable(r.0, r.1) && Contents(r.0, r.1) == Contents(mem, h) && size <= r.1.capacity
  {
    if size <= h.capacity then (mem, h)
    else
      var capacity := Vector.Grow(h.capacity, size);
      (Reallocated(mem, h, capacity, blank), Header(h.size, capacity, mem.next))
  }

  /** Changes what a vector holds: overwrites the elements, which stay in their block if they fit. */
  function Store<T>(mem: Memory<T>, h: Header, s: seq<T>, blank: T): (r: (Memory<T>, Header))
    requires Usable(mem, h)
    ensures Usable(r.0, r.1) && Contents(r.0, r.1) == s
  {
    var (m, g) := Reserve(mem, h, |s|, blank);
    if g.capacity == 0 then (m, g)
    else (m.(blocks := m.blocks[g.block := s + m.blocks[g.block][|s|..]]), g.(size := |s|))
  }

  // ----- Draw lists

  /** ImDrawChannel */
  datatype Slot = Slot(cmds: Header, idxs: Header)

  const NO_SLOT := Slot(NO_BLOCK, NO_BLOCK)

  datatype List = List(cmdMem: Memory<DrawCmd>, idxMem: Memory<Index>, live: Slot,
                       clips: seq<Rect>, textures: seq<Pointer>, current: nat, count: nat, channels: seq<Slot>)
  {
    predicate Holds(slot: Slot) {
      Usable(cmdMem, slot.cmds) && Usable(idxMem, slot.idxs)
    }

    function LayerOf(slot: Slot): Layer
      requires Holds(slot)
    {
      Layer(Contents(cmdMem, slot.cmds), Contents(idxMem, slot.idxs))
    }

    /** The buffers of channel k, wherever their headers are. */
    function Buffers(k: nat): Slot
      requires k == current || k < |channels|
    {
      if k == current then live else channels[k]
    }
  }

  const EMPTY_LIST := List(Memory(map[], 0), Memory(map[], 0), NO_SLOT, [], [], 0, 1, [])

  const BLANK := DrawCmd(0, NULL_CLIP_RECT, NULL, NULL, NULL)

  function SetLiveCmds(s: List, cmds: seq<DrawCmd>): Option<List> {
    if Usable(s.cmdMem, s.live.cmds) then
      var (mem, h) := Store(s.cmdMem, s.live.cmds, cmds, BLANK);
      Some(s.(cmdMem := mem, live := s.live.(cmds := h)))
    else None
  }

  function AppendLiveIdxs(s: List, idxs: seq<Index>): Option<List> {
    if Usable(s.idxMem, s.live.idxs) then
      var (mem, h) := Store(s.idxMem, s.live.idxs, Contents(s.idxMem, s.live.idxs) + idxs, 0);
      Some(s.(idxMem := mem, live := s.live.(idxs := h)))
    else None
  }

  /** The calls that work on the live buffers: they do to the live command vector what `DrawState.Step` does to
      a command sequence, and drawing appends to the live index vector. */
  function LiveStep(s: List, op: Op): Option<List> {
    if !Usable(s.cmdMem, s.live.cmds) then None
    else
      var st := State(Layer(Contents(s.cmdMem, s.live.cmds), []), s.clips, s.textures, 0, 1, []);
      if !Ready(st, op) then None
      else
        var t := Step(st, op);
        var r := SetLiveCmds(s.(clips := t.clips, textures := t.textures), t.live.cmds);
        if op.Draw? && r.Some? then AppendLiveIdxs(r.value, op.idxs) else r
  }

  function Emptied(slot: Slot): Slot {
    Slot(slot.cmds.(size := 0), slot.idxs.(size := 0))
  }

  function ClearStep(s: List): List {
    s.(live := Emptied(s.live), clips := [], textures := [], current := 0, count := 1)
  }

  /** The array of channels that ChannelsSplit starts from: slot 0 wiped, new slots constructed. */
  function Widened(channels: seq<Slot>, n: nat): (r: seq<Slot>)
    requires n >= 1
    ensures |r| == if |channels| < n then n else |channels|
    ensures r[0] == NO_SLOT && forall k :: 1 <= k < |r| ==> r[k] == if k < |channels| then channels[k] else NO_SLOT
  {
    var size := if |channels| < n then n else |channels|;
    seq(size, k requires 0 <= k < size => if k == 0 || k >= |channels| then NO_SLOT else channels[k])
  }

  /** A slot is emptied and gets a first command. */
  function OpenSlot(s: List, i: nat): Option<List>
    requires i < |s.channels| && s.clips != [] && s.textures != []
  {
    var slot := Emptied(s.channels[i]);
    if Usable(s.cmdMem, slot.cmds) then
      var (mem, h) := Store(s.cmdMem, slot.cmds, [FreshCmd(Last(s.clips), Last(s.textures))], BLANK);
      Some(s.(cmdMem := mem, channels := s.channels[i := slot.(cmds := h)]))
    else None
  }

  function OpenSlots(s: List, i: nat, n: nat): (r: Option<List>)
    requires n <= |s.channels| && s.clips != [] && s.textures != []
    ensures r.Some? ==> r.value.clips == s.clips && r.value.textures == s.textures && |r.value.channels| == |s.channels|
    decreases n - i
  {
    if i >= n then Some(s)
    else
      var t := OpenSlot(s, i);
      if t.None? then None else OpenSlots(t.value, i + 1, n)
  }

  function SplitStep(s: List, n: nat): Option<List> {
    if n >= 1 && s.current == 0 && s.count == 1 && s.clips != [] && s.textures != [] then
      OpenSlots(s.(channels := Widened(s.channels, n), count := n), 1, n)
    else None
  }

  /** memcpy of the headers. */
  function SwitchStep(s: List, k: nat): Option<List> {
    if k == s.current then Some(s)
    else if k < s.count && k < |s.channels| && s.current < |s.channels| then
      var parked := s.channels[s.current := s.live];
      Some(s.(channels := parked, current := k, live := parked[k]))
    else None
  }

  /** Drops a trailing command without indices. */
  function TrimmedHeader(s: List, h: Header): Option<Header> {
    if h.size == 0 then Some(h)
    else if !Usable(s.cmdMem, h) then None
    else Some(if Last(Contents(s.cmdMem, h)).elemCount == 0 then h.(size := h.size - 1) else h)
  }

  function TrimLive(s: List): Option<List> {
    var h := TrimmedHeader(s, s.live.cmds);
    if h.None? then None else Some(s.(live := s.live.(cmds := h.value)))
  }

  function TrimSlot(s: List, i: nat): Option<List>
    requires i < |s.channels|
  {
    var h := TrimmedHeader(s, s.channels[i].cmds);
    if h.None? then None else Some(s.(channels := s.channels[i := s.channels[i].(cmds := h.value)]))
  }

  function TrimChannels(s: List, i: nat): (r: Option<List>)
    requires s.count <= |s.channels|
    ensures r.Some? ==> |r.value.channels| == |s.channels| && r.value.count == s.count
    decreases s.count - i
  {
    if i >= s.count then Some(s)
    else
      var t := TrimSlot(s, i);
      if t.None? then None else TrimChannels(t.value, i + 1)
  }

  /** The sizes of channels 1..k - 1. */
  function CmdCount(channels: seq<Slot>, k: nat): nat
    requires k <= |channels|
  {
    if k <= 1 then 0 else CmdCount(channels, k - 1) + channels[k - 1].cmds.size
  }

  function IdxCount(channels: seq<Slot>, k: nat): nat
    requires k <= |channels|
  {
    if k <= 1 then 0 else IdxCount(channels, k - 1) + channels[k - 1].idxs.size
  }

  /** The live buffers grow once. */
  function ReserveLive(s: List, cmds: nat, idxs: nat): Option<List> {
    if s.Holds(s.live) then
      var (cmdMem, c) := Reserve(s.cmdMem, s.live.cmds, s.live.cmds.size + cmds, BLANK);
      var (idxMem, i) := Reserve(s.idxMem, s.live.idxs, s.live.idxs.size + idxs, 0);
      Some(s.(cmdMem := cmdMem, idxMem := idxMem, live := Slot(c, i)))
    else None
  }

  /** memcpy of a channel's elements behind what the live buffers hold; without elements nothing is touched. */
  function AppendCmds(s: List, h: Header): Option<List> {
    if h.size == 0 then Some(s)
    else if Usable(s.cmdMem, h) && Usable(s.cmdMem, s.live.cmds) then
      SetLiveCmds(s, Contents(s.cmdMem, s.live.cmds) + Contents(s.cmdMem, h))
    else None
  }

  function AppendIdxs(s: List, h: Header): Option<List> {
    if h.size == 0 then Some(s)
    else if Usable(s.idxMem, h) then AppendLiveIdxs(s, Contents(s.idxMem, h))
    else None
  }

  function AppendSlot(s: List, i: nat): Option<List>
    requires i < |s.channels|
  {
    var t := AppendCmds(s, s.channels[i].cmds);
    if t.None? then None else AppendIdxs(t.value, s.channels[i].idxs)
  }

  function AppendSlots(s: List, i: nat): (r: Option<List>)
    requires s.count <= |s.channels|
    ensures r.Some? ==> r.value.clips == s.clips && r.value.textures == s.textures && r.value.current == s.current
                        && r.value.count == s.count && r.value.channels == s.channels
    decreases s.count - i
  {
    if i >= s.count then Some(s)
    else
      var t := AppendSlot(s, i);
      if t.None? then None else AppendSlots(t.value, i + 1)
  }

  /** ChannelsMerge behind the switch to channel 0. */
  function MergeParked(s: List): Option<List>
    requires s.count <= |s.channels|
  {
    var a := TrimLive(s);
    if a.None? then None
    else
      var b := TrimChannels(a.value, 1);
      if b.None? then None
      else
        var c := ReserveLive(b.value, CmdCount(b.value.channels, s.count), IdxCount(b.value.channels, s.count));
        if c.None? then None
        else
          var d := AppendSlots(c.value, 1);
          if d.None? then None
          else
            var e := LiveStep(d.value, NewCmd);
            if e.None? then None else Some(e.value.(count := 1))
  }

  function MergeStep(s: List): Option<List> {
    if s.count <= 1 then Some(s)
    else
      var s0 := SwitchStep(s, 0);
      if s0.None? || s0.value.count > |s0.value.channels| then None else MergeParked(s0.value)
  }

  function ListStep(s: List, op: Op): Option<List> {
    match op
    case Clear => Some(ClearStep(s))
    case Split(n) => SplitStep(s, n)
    case Switch(k) => SwitchStep(s, k)
    case MergeAll => MergeStep(s)
    case _ => LiveStep(s, op)
  }
}
