/** The channel calls of ImDrawList on headers and blocks: each method is proved to make the step of `Storage`
    wherever the code stays within allocated memory. */
module ChannelBuffers {
  import opened Basics
  import opened DrawState
  import opened Storage
  import Vector

  // ----- Vectors

  /** ImVector::reserve */
  method ReserveBlock<T>(mem: Memory<T>, h: Header, newCapacity: nat, blank: T) returns (m: Memory<T>, g: Header)
    requires Usable(mem, h)
    ensures newCapacity <= h.capacity ==> (m, g) == (mem, h)
    ensures newCapacity > h.capacity ==>
              (m, g) == (Reallocated(mem, h, newCapacity, blank), Header(h.size, newCapacity, mem.next))
  {
    m, g := mem, h;
    if newCapacity > h.capacity {
      var block := Contents(mem, h) + Filler(blank, newCapacity - h.size);
      var blocks := mem.blocks;
      if h.capacity > 0 {
        blocks := blocks - {h.block};
      }
      m := Memory(blocks[mem.next := block], mem.next + 1);
      g := Header(h.size, newCapacity, mem.next);
    }
  }

  /** The growth in ImVector::resize and push_back. */
  method Grown<T>(mem: Memory<T>, h: Header, size: nat, blank: T) returns (m: Memory<T>, g: Header)
    requires Usable(mem, h)
    ensures (m, g) == Reserve(mem, h, size, blank)
  {
    m, g := mem, h;
    if size > h.capacity {
      m, g := ReserveBlock(mem, h, Vector.Grow(h.capacity, size), blank);
    }
  }

  /** ImVector::push_back */
  method PushBack<T>(mem: Memory<T>, h: Header, x: T, blank: T) returns (m: Memory<T>, g: Header)
    requires Usable(mem, h)
    ensures (m, g) == Store(mem, h, Contents(mem, h) + [x], blank)
  {
    hide Reserve;
    m, g := Grown(mem, h, h.size + 1, blank);
    var block := m.blocks[g.block];
    assert block[g.size := x] == (block[..g.size] + [x]) + block[g.size + 1..];
    m := m.(blocks := m.blocks[g.block := block[g.size := x]]);
    g := g.(size := g.size + 1);
  }

  // ----- The class

  class ChannelList {
    var cmdMem: Memory<DrawCmd>
    var idxMem: Memory<Index>
    var cmdBuffer: Header
    var idxBuffer: Header
    var clipRectStack: seq<Rect>
    var textureIdStack: seq<Pointer>
    var channelsCurrent: nat
    var channelsCount: nat
    var channels: seq<Slot>

    ghost function View(): List
      reads this
    {
      List(cmdMem, idxMem, Slot(cmdBuffer, idxBuffer), clipRectStack, textureIdStack, channelsCurrent, channelsCount,
        channels)
    }

    constructor ()
      ensures View() == EMPTY_LIST
    {
      cmdMem, idxMem := Memory(map[], 0), Memory(map[], 0);
      cmdBuffer, idxBuffer := NO_BLOCK, NO_BLOCK;
      clipRectStack, textureIdStack := [], [];
      channelsCurrent, channelsCount, channels := 0, 1, [];
    }

    method Clear()
      modifies `cmdBuffer, `idxBuffer, `clipRectStack, `textureIdStack, `channelsCurrent, `channelsCount
      ensures View() == ClearStep(old(View()))
    {
      cmdBuffer := cmdBuffer.(size := 0);
      idxBuffer := idxBuffer.(size := 0);
      clipRectStack, textureIdStack := [], [];
      channelsCurrent, channelsCount := 0, 1;
    }

    method AddDrawCmd()
      requires Usable(cmdMem, cmdBuffer)
      modifies `cmdMem, `cmdBuffer
      ensures LiveStep(old(View()), NewCmd) == Some(View())
    {
      hide Store, Contents;
      var clip := if |clipRectStack| > 0 then clipRectStack[|clipRectStack| - 1] else NULL_CLIP_RECT;
      var texture := if |textureIdStack| > 0 then textureIdStack[|textureIdStack| - 1] else NULL;
      cmdMem, cmdBuffer := PushBack(cmdMem, cmdBuffer, DrawCmd(0, clip, texture, NULL, NULL), BLANK);
    }

    method ChannelsSplit(n: nat)
      requires SplitStep(View(), n).Some?
      modifies `cmdMem, `channels, `channelsCount
      ensures SplitStep(old(View()), n) == Some(View())
    {
      hide Store, Contents, OpenSlots, Constructed, Usable;
      var oldCount := |channels|;
      if oldCount < n {
        var garbage: Slot := *;
        channels := channels + seq(n - oldCount, _ => garbage);
      }
      channelsCount := n;
      channels := channels[0 := NO_SLOT];
      ConstructedFirst(old(View()), View(), n);
      ghost var start := old(View()).(channels := Widened(old(channels), n), count := n);
      var i := 1;
      while i < n
        invariant 1 <= i <= n <= |channels| == |start.channels|
        invariant OpenSlots(start, 1, n).Some?
        invariant OpenSlots(Constructed(View(), i, oldCount), i, n) == OpenSlots(start, 1, n)
        invariant View() == old(View()).(cmdMem := cmdMem, channels := channels, count := n)
      {
        ConstructedNext(View(), i, oldCount, n);
        OpenChannel(i, oldCount);
        i := i + 1;
      }
      ConstructedAll(View(), n, oldCount);
    }

    /** One round of the loop. */
    method OpenChannel(i: nat, oldCount: nat)
      requires i < |channels| && clipRectStack != [] && textureIdStack != []
      requires var slot := if i >= oldCount then NO_SLOT else Emptied(channels[i]);
               Usable(cmdMem, slot.cmds) && Contents(cmdMem, slot.cmds) == []
      modifies `cmdMem, `channels
      ensures var slot := if i >= oldCount then NO_SLOT else Emptied(old(channels)[i]);
              var (mem, h) := Store(old(cmdMem), slot.cmds, [FreshCmd(Last(clipRectStack), Last(textureIdStack))],
                BLANK);
              cmdMem == mem && channels == old(channels)[i := slot.(cmds := h)]
    {
      hide Store, Contents, Usable;
      if i >= oldCount {
        channels := channels[i := NO_SLOT];
      } else {
        channels := channels[i := Emptied(channels[i])];
      }
      if channels[i].cmds.size == 0 {
        var cmd := DrawCmd(0, clipRectStack[|clipRectStack| - 1], textureIdStack[|textureIdStack| - 1], NULL, NULL);
        var h;
        assert [] + [cmd] == [cmd];
        cmdMem, h := PushBack(cmdMem, channels[i].cmds, cmd, BLANK);
        channels := channels[i := channels[i].(cmds := h)];
      }
    }

    /** Copies headers, never blocks. */
    method ChannelsSetCurrent(k: nat)
      requires SwitchStep(View(), k).Some?
      modifies `cmdBuffer, `idxBuffer, `channelsCurrent, `channels
      ensures SwitchStep(old(View()), k) == Some(View())
    {
      if channelsCurrent == k {
        return;
      }
      channels := channels[channelsCurrent := Slot(cmdBuffer, idxBuffer)];
      channelsCurrent := k;
      cmdBuffer := channels[channelsCurrent].cmds;
      idxBuffer := channels[channelsCurrent].idxs;
    }

    method ChannelsMerge()
      requires MergeStep(View()).Some?
      modifies this
      ensures MergeStep(old(View())) == Some(View())
    {
      hide MergeParked;
      if channelsCount <= 1 {
        return;
      }
      ChannelsSetCurrent(0);
      MergeParkedChannels();
    }

    /** The rest of ChannelsMerge, with channel 0 live. */
    method MergeParkedChannels()
      requires 1 < channelsCount <= |channels| && MergeParked(View()).Some?
      modifies this
      ensures MergeParked(old(View())) == Some(View())
    {
      hide LiveStep, TrimmedHeader, TrimChannels, AppendSlots, Reserve, CmdCount, IdxCount, Usable;
      cmdBuffer := TrimVector(cmdBuffer);
      var newCmdCount, newIdxCount := TrimAll();
      ghost var grown := ReserveLive(View(), newCmdCount, newIdxCount).value;
      cmdMem, cmdBuffer := Grown(cmdMem, cmdBuffer, cmdBuffer.size + newCmdCount, BLANK);
      idxMem, idxBuffer := Grown(idxMem, idxBuffer, idxBuffer.size + newIdxCount, 0);
      assert View() == grown;
      AppendAll(newCmdCount, newIdxCount);
      AddDrawCmd();
      channelsCount := 1;
    }

    /** Drops a trailing command without indices. */
    method TrimVector(h: Header) returns (g: Header)
      requires TrimmedHeader(View(), h).Some?
      ensures TrimmedHeader(View(), h) == Some(g)
    {
      g := h;
      if h.size > 0 && cmdMem.blocks[h.block][h.size - 1].elemCount == 0 {
        g := h.(size := h.size - 1);
      }
    }

    /** The first loop. */
    method TrimAll() returns (newCmdCount: nat, newIdxCount: nat)
      requires 1 < channelsCount <= |channels| && TrimChannels(View(), 1).Some?
      modifies `channels
      ensures TrimChannels(old(View()), 1) == Some(View())
      ensures newCmdCount == CmdCount(channels, channelsCount) && newIdxCount == IdxCount(channels, channelsCount)
    {
      hide TrimmedHeader, CmdCount, IdxCount;
      NoCounts(channels);
      newCmdCount, newIdxCount := 0, 0;
      var i := 1;
      while i < channelsCount
        invariant 1 <= i <= channelsCount <= |channels|
        invariant View() == old(View()).(channels := channels)
        invariant TrimChannels(View(), i) == TrimChannels(old(View()), 1)
        invariant newCmdCount == CmdCount(channels, i) && newIdxCount == IdxCount(channels, i)
      {
        var h := TrimVector(channels[i].cmds);
        CountsNext(channels, i, channels[i].(cmds := h));
        channels := channels[i := channels[i].(cmds := h)];
        newCmdCount := newCmdCount + channels[i].cmds.size;
        newIdxCount := newIdxCount + channels[i].idxs.size;
        i := i + 1;
      }
    }

    /** The second loop: resize has set the sizes, memcpy fills them channel by channel. */
    method AppendAll(newCmdCount: nat, newIdxCount: nat)
      requires 1 < channelsCount <= |channels| && AppendSlots(View(), 1).Some?
      requires newCmdCount == CmdCount(channels, channelsCount) && newIdxCount == IdxCount(channels, channelsCount)
      requires Usable(cmdMem, cmdBuffer) && Usable(idxMem, idxBuffer)
      requires cmdBuffer.size + newCmdCount <= cmdBuffer.capacity && idxBuffer.size + newIdxCount <= idxBuffer.capacity
      modifies `cmdMem, `idxMem, `cmdBuffer, `idxBuffer
      ensures AppendSlots(old(View()), 1) == Some(View())
      ensures Usable(cmdMem, cmdBuffer)
    {
      hide CmdCount, IdxCount, AppendSlot, Usable, AppendSlots;
      NoCounts(channels);
      var cmdWrite, idxWrite := cmdBuffer.size, idxBuffer.size;
      cmdBuffer := cmdBuffer.(size := cmdBuffer.size + newCmdCount);
      idxBuffer := idxBuffer.(size := idxBuffer.size + newIdxCount);
      var i := 1;
      while i < channelsCount
        invariant 1 <= i <= channelsCount
        invariant cmdWrite == old(cmdBuffer.size) + CmdCount(channels, i)
                  && idxWrite == old(idxBuffer.size) + IdxCount(channels, i)
        invariant cmdBuffer == old(cmdBuffer).(size := old(cmdBuffer).size + newCmdCount)
        invariant idxBuffer == old(idxBuffer).(size := old(idxBuffer).size + newIdxCount)
        invariant Usable(cmdMem, cmdBuffer.(size := cmdWrite)) && Usable(idxMem, idxBuffer.(size := idxWrite))
        invariant AppendSlots(View().(live := WrittenTo(View().live, cmdWrite, idxWrite)), i)
                  == AppendSlots(old(View()), 1)
      {
        CountsFit(channels, i, channelsCount);
        CopyChannel(i, cmdWrite, idxWrite);
        cmdWrite, idxWrite := cmdWrite + channels[i].cmds.size, idxWrite + channels[i].idxs.size;
        i := i + 1;
      }
      AppendEnds(View(), i);
    }

    method CopyChannel(i: nat, cmdWrite: nat, idxWrite: nat)
      requires 1 <= i < channelsCount <= |channels|
      requires Usable(cmdMem, cmdBuffer.(size := cmdWrite)) && Usable(idxMem, idxBuffer.(size := idxWrite))
      requires cmdWrite + channels[i].cmds.size <= cmdBuffer.capacity
               && idxWrite + channels[i].idxs.size <= idxBuffer.capacity
      requires AppendSlots(View().(live := WrittenTo(View().live, cmdWrite, idxWrite)), i).Some?
      modifies `cmdMem, `idxMem
      ensures var (c, x) := (cmdWrite + channels[i].cmds.size, idxWrite + channels[i].idxs.size);
              && Usable(cmdMem, cmdBuffer.(size := c)) && Usable(idxMem, idxBuffer.(size := x))
              && AppendSlots(View().(live := WrittenTo(View().live, c, x)), i + 1)
                 == old(AppendSlots(View().(live := WrittenTo(View().live, cmdWrite, idxWrite)), i))
    {
      hide AppendSlots, Contents;
      AppendNext(View().(live := WrittenTo(View().live, cmdWrite, idxWrite)), i);
      cmdMem := CopyBehind(cmdMem, cmdBuffer, cmdWrite, channels[i].cmds);
      idxMem := CopyBehind(idxMem, idxBuffer, idxWrite, channels[i].idxs);
    }
  }

  /** The list as if the new slots from i on had been constructed already. */
  ghost function Constructed(s: List, i: nat, oldCount: nat): (t: List)
    ensures |t.channels| == |s.channels| && t == s.(channels := t.channels)
  {
    s.(channels := seq(|s.channels|, k requires 0 <= k < |s.channels| =>
      if k >= i && k >= oldCount then NO_SLOT else s.channels[k]))
  }

  lemma ConstructedFirst(s: List, t: List, n: nat)
    requires n >= 1 && |t.channels| == (if |s.channels| < n then n else |s.channels|)
             && t == s.(channels := t.channels, count := n)
    requires t.channels[0] == NO_SLOT && forall k :: 1 <= k < |s.channels| ==> t.channels[k] == s.channels[k]
    ensures Constructed(t, 1, |s.channels|) == s.(channels := Widened(s.channels, n), count := n)
  {
    assert Constructed(t, 1, |s.channels|).channels == Widened(s.channels, n);
  }

  lemma ConstructedAll(s: List, n: nat, oldCount: nat)
    requires |s.channels| == (if oldCount < n then n else oldCount) && s.clips != [] && s.textures != []
    ensures OpenSlots(Constructed(s, n, oldCount), n, n) == Some(s)
  {
    assert Constructed(s, n, oldCount).channels == s.channels;
  }

  lemma ConstructedNext(s: List, i: nat, oldCount: nat, n: nat)
    requires i < n <= |s.channels| == |Constructed(s, i, oldCount).channels| && s.clips != [] && s.textures != []
    requires OpenSlots(Constructed(s, i, oldCount), i, n).Some?
    ensures var slot := if i >= oldCount then NO_SLOT else Emptied(s.channels[i]);
            && Usable(s.cmdMem, slot.cmds) && Contents(s.cmdMem, slot.cmds) == []
            && var (mem, h) := Store(s.cmdMem, slot.cmds, [FreshCmd(Last(s.clips), Last(s.textures))], BLANK);
            OpenSlots(Constructed(s, i, oldCount), i, n)
            == OpenSlots(
                 Constructed(s.(cmdMem := mem, channels := s.channels[i := slot.(cmds := h)]), i + 1, oldCount),
                 i + 1, n)
  {
    hide Store;
    var slot := if i >= oldCount then NO_SLOT else Emptied(s.channels[i]);
    var c := Constructed(s, i, oldCount);
    assert Emptied(c.channels[i]) == slot;
    var (mem, h) := Store(s.cmdMem, slot.cmds, [FreshCmd(Last(s.clips), Last(s.textures))], BLANK);
    assert OpenSlot(c, i).value
           == Constructed(s.(cmdMem := mem, channels := s.channels[i := slot.(cmds := h)]), i + 1, oldCount);
  }

  // ----- Merging

  function WrittenTo(slot: Slot, cmds: nat, idxs: nat): Slot {
    Slot(slot.cmds.(size := cmds), slot.idxs.(size := idxs))
  }

  /** memcpy into the block of h, from position `at` on; there is room. */
  method CopyBehind<T>(mem: Memory<T>, h: Header, at: nat, src: Header) returns (m: Memory<T>)
    requires Usable(mem, h.(size := at)) && at + src.size <= h.capacity
    requires src.size > 0 ==> Usable(mem, src)
    ensures m == if src.size == 0 then mem else Overwritten(mem, h, at, Contents(mem, src))
    ensures Usable(m, h.(size := at + src.size))
  {
    m := mem;
    if src.size > 0 {
      var block, more := mem.blocks[h.block], mem.blocks[src.block][..src.size];
      m := mem.(blocks := mem.blocks[h.block := block[..at] + more + block[at + |more|..]]);
    }
  }

  function Overwritten<T>(mem: Memory<T>, h: Header, at: nat, more: seq<T>): Memory<T>
    requires Usable(mem, h.(size := at)) && at + |more| <= h.capacity && more != []
  {
    var block := mem.blocks[h.block];
    mem.(blocks := mem.blocks[h.block := block[..at] + more + block[at + |more|..]])
  }

  lemma NoCounts(channels: seq<Slot>)
    requires |channels| >= 1
    ensures CmdCount(channels, 1) == 0 && IdxCount(channels, 1) == 0
  {}

  lemma {:induction false} CountsAgree(a: seq<Slot>, b: seq<Slot>, k: nat)
    requires k <= |a| && k <= |b| && a[..k] == b[..k]
    ensures CmdCount(a, k) == CmdCount(b, k) && IdxCount(a, k) == IdxCount(b, k)
    decreases k
  {
    if k > 1 {
      assert a[..k - 1] == a[..k][..k - 1] && b[..k - 1] == b[..k][..k - 1] && a[..k][k - 1] == b[..k][k - 1];
      CountsAgree(a, b, k - 1);
    }
  }

  lemma CountsNext(channels: seq<Slot>, i: nat, slot: Slot)
    requires 1 <= i < |channels|
    ensures var r := channels[i := slot];
            CmdCount(r, i + 1) == CmdCount(channels, i) + slot.cmds.size
              && IdxCount(r, i + 1) == IdxCount(channels, i) + slot.idxs.size
  {
    var r := channels[i := slot];
    assert r[..i] == channels[..i];
    CountsAgree(r, channels, i);
  }

  /** Channel i fits behind the channels before it. */
  lemma {:induction false} CountsFit(channels: seq<Slot>, i: nat, n: nat)
    requires 1 <= i < n <= |channels|
    ensures CmdCount(channels, i) + channels[i].cmds.size == CmdCount(channels, i + 1) <= CmdCount(channels, n)
    ensures IdxCount(channels, i) + channels[i].idxs.size == IdxCount(channels, i + 1) <= IdxCount(channels, n)
    decreases n - i
  {
    if i + 1 < n {
      CountsFit(channels, i + 1, n);
    }
  }

  lemma AppendEnds(s: List, i: nat)
    requires s.count <= |s.channels| && i >= s.count
    ensures AppendSlots(s, i) == Some(s)
  {}

  /** One round of the loop that copies channels, where the copied elements fit. */
  lemma AppendNext(s: List, i: nat)
    requires 1 <= i < s.count <= |s.channels| && AppendSlots(s, i).Some? && s.Holds(s.live)
    requires s.live.cmds.size + s.channels[i].cmds.size <= s.live.cmds.capacity
    requires s.live.idxs.size + s.channels[i].idxs.size <= s.live.idxs.capacity
    ensures var (c, x) := (s.channels[i].cmds, s.channels[i].idxs);
            && (c.size > 0 ==> Usable(s.cmdMem, c)) && (x.size > 0 ==> Usable(s.idxMem, x))
            && AppendSlots(s, i) ==
               AppendSlots(s.(cmdMem := if c.size == 0 then s.cmdMem
                 else Overwritten(s.cmdMem, s.live.cmds, s.live.cmds.size, Contents(s.cmdMem, c)),
                              idxMem := if x.size == 0 then s.idxMem
                                else Overwritten(s.idxMem, s.live.idxs, s.live.idxs.size, Contents(s.idxMem, x)),
                              live := WrittenTo(s.live, s.live.cmds.size + c.size, s.live.idxs.size + x.size)), i + 1)
  {
    hide Contents;
    var (c, x) := (s.channels[i].cmds, s.channels[i].idxs);
    if c.size > 0 {
      StoreFits(s.cmdMem, s.live.cmds, Contents(s.cmdMem, c), BLANK);
    }
    if x.size > 0 {
      StoreFits(s.idxMem, s.live.idxs, Contents(s.idxMem, x), 0);
    }
  }

  lemma StoreFits<T>(mem: Memory<T>, h: Header, more: seq<T>, blank: T)
    requires Usable(mem, h) && h.size + |more| <= h.capacity && more != []
    ensures Store(mem, h, Contents(mem, h) + more, blank)
            == (Overwritten(mem, h, h.size, more), h.(size := h.size + |more|))
  {}
}
