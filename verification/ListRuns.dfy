/** What whole runs of an ImDrawList draw, down to the memory its buffers live in.  Here a channel can lose its
    storage: a Clear outside channel 0 leaves the live buffers where a slot still points, and the next
    ChannelsSplit that opens this slot writes into them. */
module ListRuns {
  import opened Basics
  import opened DrawState
  import opened CommandBuffer
  import opened Storage
  import opened Ownership
  import Batching

  type Ref = Batching.Ref

  // ----- Runs

  ghost predicate Legal(ops: seq<Op>) {
    Batching.Legal(ops)
  }

  ghost predicate LossFree(ops: seq<Op>)
    requires Legal(ops)
  {
    Batching.LossFree(ops)
  }

  ghost function RefRun(ops: seq<Op>): (r: Ref)
    requires Legal(ops)
    ensures Batching.WellFormed(r)
  {
    Batching.RefRun(ops)
  }

  /** The list after the run, or None where the code has touched freed memory. */
  ghost function ListRun(ops: seq<Op>): Option<List> {
    if ops == [] then Some(Storage.EMPTY_LIST)
    else
      var s := ListRun(Front(ops));
      if s.None? then None else ListStep(s.value, Last(ops))
  }

  /** The channel that was current at the last Clear outside channel 0. */
  ghost function Orphan(ops: seq<Op>): Option<nat>
    requires Legal(ops)
  {
    if ops == [] then None
    else
      var c := RefRun(Front(ops)).current;
      if Last(ops).Clear? && c != 0 then Some(c) else Orphan(Front(ops))
  }

  /** The call opens the orphan's slot. */
  ghost predicate Reuses(ops: seq<Op>, op: Op)
    requires Legal(ops)
  {
    op.Split? && Orphan(ops).Some? && Orphan(ops).value < op.n
  }

  /** No ChannelsSplit in the run opens the slot of an orphan. */
  ghost predicate NoReuse(ops: seq<Op>)
    requires Legal(ops)
  {
    ops == [] || (NoReuse(Front(ops)) && !Reuses(Front(ops), Last(ops)))
  }

  // ----- What is to be shown

  /** Channel by channel, the list draws what was submitted. */
  ghost predicate Draws(o: Option<List>, ref: Ref) {
    && o.Some? && Shaped(o.value) && o.value.count == |ref.layers|
    && forall k: nat :: k < o.value.count ==> DrawsChannel(o.value, k, ref.layers[k])
  }

  ghost predicate DrawsChannel(s: List, k: nat, items: seq<Item>)
    requires Shaped(s) && k < s.count
  {
    && s.Holds(s.Buffers(k))
    && var layer := s.LayerOf(s.Buffers(k));
    && Total(layer.cmds) <= |layer.idxs| && Drawing(layer) == items
  }

  /** Every channel has its buffers in allocated memory that no other channel uses. */
  ghost predicate Owned(o: Option<List>) {
    && o.Some? && Shaped(o.value)
    && (forall k: nat :: k < o.value.count ==> o.value.Holds(o.value.Buffers(k)))
    && (forall j: nat, k: nat :: j < k < o.value.count ==> Apart(o.value.Buffers(j), o.value.Buffers(k)))
  }

  ghost predicate OwnedThroughout(ops: seq<Op>)
  {
    Owned(ListRun(ops)) && (ops == [] || OwnedThroughout(Front(ops)))
  }

  // ----- Runs without reuse

  lemma StepKeeps(s: List, st: State, ref: Ref, orphan: Option<nat>, op: Op)
    requires Inv(s, orphan) && Refines(s, st) && Batching.Sim(st, ref) && Batching.Enabled(ref, op)
    requires op.Split? && orphan.Some? ==> op.n <= orphan.value
    ensures Ready(st, op) && ListStep(s, op).Some? && Refines(ListStep(s, op).value, Step(st, op))
    ensures Inv(ListStep(s, op).value, if op.Clear? then OrphanAfter(s, orphan) else orphan)
  {
    hide Inv, Refines, LiveStep, Storage.SplitStep, Storage.MergeStep, Storage.SwitchStep, Storage.ClearStep,
      UpdateClipRect, UpdateTextureID, AddCallback, PushedRect, SetCurrent, Merge, SplitSlots;
    Batching.ReadyStep(st, ref, op);
    RefinesShape(s, st);
    match op
    case Clear => ClearKeeps(s, st, orphan);
    case Split(n) => SplitKeeps(s, st, orphan, n);
    case Switch(k) =>
      OthersOpen(st, ref, k);
      SwitchKeeps(s, st, orphan, k);
    case MergeAll => MergeKeeps(s, st, orphan);
    case _ => LiveKeeps(s, st, orphan, op);
  }

  lemma OthersOpen(st: State, ref: Ref, k: nat)
    requires Batching.Sim(st, ref) && Batching.Enabled(ref, Switch(k))
    ensures k < st.count && (k != 0 ==> st.LayerAt(k).cmds != [])
  {}

  lemma {:induction false} OwnedRun(ops: seq<Op>)
    requires Legal(ops) && NoReuse(ops)
    ensures ListRun(ops).Some?
    ensures Inv(ListRun(ops).value, Orphan(ops)) && Refines(ListRun(ops).value, Batching.Run(ops))
    decreases |ops|
  {
    hide Inv, Refines, Step, ListStep, Batching.Sim, Batching.Enabled, Batching.RefStep;
    if ops == [] {
      EmptyOwned();
    } else {
      var front, op := Front(ops), Last(ops);
      OwnedRun(front);
      var s, st, ref := ListRun(front).value, Batching.Run(front), RefRun(front);
      StepKeeps(s, st, ref, Orphan(front), op);
      SameCurrent(s, st, ref);
    }
  }

  lemma EmptyOwned()
    ensures Inv(Storage.EMPTY_LIST, None) && Refines(Storage.EMPTY_LIST, Batching.EMPTY_LIST)
  {}

  lemma SameCurrent(s: List, st: State, ref: Ref)
    requires Refines(s, st) && Batching.Sim(st, ref)
    ensures s.current == ref.current && s.count == |ref.layers|
  {}

  lemma RefinedDraws(s: List, st: State, ref: Ref)
    requires Refines(s, st) && Batching.Sim(st, ref)
    ensures Draws(Some(s), ref) <==> Batching.Faithful(st, ref)
  {
    hide Render, Total, Contents, Usable;
    forall k: nat | k < s.count
      ensures DrawsChannel(s, k, ref.layers[k]) <==> Batching.DrawingAt(st, ref, k) == ref.layers[k]
    {
      Batching.LayersDrawable(st, ref, k);
    }
  }

  lemma InvOwned(s: List, orphan: Option<nat>)
    requires Inv(s, orphan)
    ensures Owned(Some(s))
  {
    hide Gone, Sound;
    InvInUse(s, orphan);
  }

  // ----- Opening an orphan's slot

  /** Opening a slot frees nothing, and where it writes, it writes a first command. */
  ghost predicate OnlyFirst(s: List, t: List, fresh0: DrawCmd, b: nat) {
    && b in s.cmdMem.blocks && b in t.cmdMem.blocks && |t.cmdMem.blocks[b]| == |s.cmdMem.blocks[b]| > 0
    && t.cmdMem.blocks[b][1..] == s.cmdMem.blocks[b][1..]
    && (t.cmdMem.blocks[b][0] == s.cmdMem.blocks[b][0] || t.cmdMem.blocks[b][0] == fresh0)
  }

  lemma OpenSlotWrites(s: List, i: nat, b: nat)
    requires i < |s.channels| && s.clips != [] && s.textures != [] && OpenSlot(s, i).Some?
    requires Sound(s.cmdMem) && b in s.cmdMem.blocks && |s.cmdMem.blocks[b]| > 0
    ensures var t, fresh0 := OpenSlot(s, i).value, FreshCmd(Last(s.clips), Last(s.textures));
            && Sound(t.cmdMem) && t == s.(cmdMem := t.cmdMem, channels := s.channels[i := t.channels[i]])
            && |t.channels| == |s.channels| && OnlyFirst(s, t, fresh0, b)
            && (s.channels[i].cmds.capacity > 0 && s.channels[i].cmds.block == b ==>
                  && t.cmdMem.blocks[b][0] == fresh0 && t.channels[i].cmds == s.channels[i].cmds.(size := 1)
                  && |s.cmdMem.blocks[b]| == s.channels[i].cmds.capacity)
  {
    hide Vector.Grow;
    var slot := Emptied(s.channels[i]);
    ShrinkSound(s, slot);
  }

  lemma ShrinkSound(s: List, slot: Slot)
    requires Sound(s.cmdMem)
    ensures s.cmdMem.next !in s.cmdMem.blocks
  {}

  lemma OpenSlotStaysFreed(s: List, i: nat, b: nat)
    requires i < |s.channels| && s.clips != [] && s.textures != [] && Sound(s.cmdMem) && Freed(s.cmdMem, b)
    ensures s.channels[i].cmds.capacity > 0 && s.channels[i].cmds.block == b ==> OpenSlot(s, i).None?
    ensures OpenSlot(s, i).Some? ==>
              var t := OpenSlot(s, i).value;
              && Freed(t.cmdMem, b) && Sound(t.cmdMem)
                 && t == s.(cmdMem := t.cmdMem, channels := s.channels[i := t.channels[i]])
  {
    hide Vector.Grow;
  }

  /** The code touches freed memory if the slot's block is freed. */
  lemma {:induction false} OpenFreed(s: List, i: nat, n: nat, m: nat)
    requires i <= m < n <= |s.channels| && s.clips != [] && s.textures != [] && Sound(s.cmdMem)
    requires s.channels[m].cmds.capacity > 0 && Freed(s.cmdMem, s.channels[m].cmds.block)
    ensures OpenSlots(s, i, n).None?
    decreases n - i
  {
    hide OpenSlot, Freed;
    OpenSlotStaysFreed(s, i, s.channels[m].cmds.block);
    if i < m && OpenSlot(s, i).Some? {
      OpenFreed(OpenSlot(s, i).value, i + 1, n, m);
    }
  }

  /** Otherwise the first command of the block is overwritten, and the slot holds it from now on. */
  lemma {:induction false} OpenShared(s: List, i: nat, n: nat, m: nat, b: nat)
    requires i <= n <= |s.channels| && m < n && s.clips != [] && s.textures != [] && Sound(s.cmdMem)
    requires b in s.cmdMem.blocks && |s.cmdMem.blocks[b]| > 0 && OpenSlots(s, i, n).Some?
    requires s.channels[m].cmds.capacity > 0 && s.channels[m].cmds.block == b
    requires i > m ==>
               && s.cmdMem.blocks[b][0] == FreshCmd(Last(s.clips), Last(s.textures))
               && s.channels[m].cmds.size == 1 && |s.cmdMem.blocks[b]| == s.channels[m].cmds.capacity
    ensures var t := OpenSlots(s, i, n).value;
            && t == s.(cmdMem := t.cmdMem, channels := t.channels)
            && |t.channels| == |s.channels| && t.channels[m].cmds == s.channels[m].cmds.(size := 1)
            && b in t.cmdMem.blocks && |t.cmdMem.blocks[b]| == |s.cmdMem.blocks[b]| == s.channels[m].cmds.capacity
            && t.cmdMem.blocks[b] == [FreshCmd(Last(s.clips), Last(s.textures))] + s.cmdMem.blocks[b][1..]
    decreases n - i
  {
    hide OpenSlot;
    var fresh0 := FreshCmd(Last(s.clips), Last(s.textures));
    if i < n {
      OpenSlotWrites(s, i, b);
      OpenShared(OpenSlot(s, i).value, i + 1, n, m, b);
    } else {
      assert s.cmdMem.blocks[b] == [s.cmdMem.blocks[b][0]] + s.cmdMem.blocks[b][1..];
    }
  }

  /** The state behind a reusing ChannelsSplit, if the code gets that far: the orphan's slot holds the block of
      channel 0, whose first command is blank now. */
  ghost predicate Spoiled(s: List, t: List, m: nat) {
    && s.Holds(s.live) && t.current == 0 && t.count > m >= 1 && t.count <= |t.channels| && t.live == s.live
    && t.channels[m].cmds == s.live.cmds.(size := 1)
    && t.clips == s.clips != [] && t.textures == s.textures != []
    && Usable(t.cmdMem, t.live.cmds) && t.live.cmds.size > 0
    && Contents(t.cmdMem, t.live.cmds) == [FreshCmd(Last(s.clips), Last(s.textures))] + s.LayerOf(s.live).cmds[1..]
  }

  lemma ReuseSpoils(s: List, orphan: Option<nat>, n: nat)
    requires Inv(s, orphan) && s.current == 0 && s.count == 1 && s.clips != [] && s.textures != []
    requires orphan.Some? && orphan.value < n && s.Holds(s.live) && s.LayerOf(s.live).cmds != []
    ensures ListStep(s, Split(n)).Some? ==> Spoiled(s, ListStep(s, Split(n)).value, orphan.value)
  {
    hide Owns, Widened, OpenSlots;
    var m := orphan.value;
    SoundCmds(s, orphan);
    var wide := s.(channels := Widened(s.channels, n), count := n);
    WidenedAt(s, n, m);
    var slot, b := s.channels[m], s.channels[m].cmds.block;
    if Freed(s.cmdMem, b) {
      OpenFreed(wide, 1, n, m);
    } else if OpenSlots(wide, 1, n).Some? {
      OpenShared(wide, 1, n, m, b);
      SpoiledBlock(s, wide, n, m, b);
    }
  }

  lemma SoundCmds(s: List, orphan: Option<nat>)
    requires Inv(s, orphan) && orphan.Some?
    ensures var m := orphan.value;
            && 1 <= m < |s.channels| && Sound(s.cmdMem) && s.channels[m].cmds.capacity > 0
            && (Freed(s.cmdMem, s.channels[m].cmds.block)
                || (s.Buffers(0).cmds.capacity > 0 && s.channels[m].cmds.block == s.Buffers(0).cmds.block))
  {}

  lemma WidenedAt(s: List, n: nat, m: nat)
    requires 1 <= m < n && m < |s.channels|
    ensures n <= |Widened(s.channels, n)| && Widened(s.channels, n)[m] == s.channels[m]
  {}

  lemma SpoiledBlock(s: List, wide: List, n: nat, m: nat, b: nat)
    requires 1 <= m < n <= |wide.channels| && wide == s.(channels := wide.channels, count := n) && s.current == 0
    requires s.Holds(s.live) && s.LayerOf(s.live).cmds != [] && s.clips != [] && s.textures != []
    requires wide.channels[m].cmds.capacity > 0 && wide.channels[m].cmds.block == b == s.live.cmds.block
    requires OpenSlots(wide, 1, n).Some?
    requires var t, fresh0 := OpenSlots(wide, 1, n).value, FreshCmd(Last(s.clips), Last(s.textures));
             && t == wide.(cmdMem := t.cmdMem, channels := t.channels)
             && |t.channels| == |wide.channels| && t.channels[m].cmds == wide.channels[m].cmds.(size := 1)
             && b in t.cmdMem.blocks && b in s.cmdMem.blocks
             && |t.cmdMem.blocks[b]| == |s.cmdMem.blocks[b]| == wide.channels[m].cmds.capacity
             && t.cmdMem.blocks[b] == [fresh0] + s.cmdMem.blocks[b][1..]
    ensures Spoiled(s, OpenSlots(wide, 1, n).value, m)
  {
    hide OpenSlots;
    var t, block := OpenSlots(wide, 1, n).value, s.cmdMem.blocks[b];
    assert block[..s.live.cmds.size][1..] == block[1..s.live.cmds.size];
  }

  // ----- What is drawn then

  function CmdWeight(cmd: DrawCmd): nat {
    if cmd.callback != NULL then 1 else cmd.elemCount
  }

  /** Changing the first command changes the number of items drawn by the difference. */
  lemma WeightOfFirst(cmds: seq<DrawCmd>, cmd: DrawCmd)
    requires cmds != []
    ensures Weight([cmd] + cmds[1..]) - CmdWeight(cmd) == Weight(cmds) - CmdWeight(cmds[0])
  {
    assert cmds == [cmds[0]] + cmds[1..];
    WeightConcat([cmd], cmds[1..]);
    WeightConcat([cmds[0]], cmds[1..]);
    WeightOfOne(cmd);
    WeightOfOne(cmds[0]);
  }

  lemma WeightOfOne(cmd: DrawCmd)
    ensures Weight([cmd]) == CmdWeight(cmd)
  {
    assert Front([cmd]) == [];
  }

  /** A channel whose commands have another weight than what was submitted does not draw it. */
  lemma WrongWeight(s: List, k: nat, items: seq<Item>)
    requires Shaped(s) && k < s.count && s.Holds(s.Buffers(k)) && CallbacksEmpty(s.LayerOf(s.Buffers(k)).cmds)
    requires Weight(s.LayerOf(s.Buffers(k)).cmds) != |items|
    ensures !DrawsChannel(s, k, items)
  {
    var layer := s.LayerOf(s.Buffers(k));
    if Total(layer.cmds) <= |layer.idxs| {
      RenderLength(layer.cmds, layer.idxs);
    }
  }

  lemma FirstReplaced(cmds: seq<DrawCmd>, cmd: DrawCmd)
    requires cmds != [] && CallbacksEmpty(cmds) && (cmd.callback != NULL ==> cmd.elemCount == 0)
    ensures CallbacksEmpty([cmd] + cmds[1..])
  {}

  /** If the first command drew something, that is lost. */
  lemma SpoiledLoses(s: List, t: List, m: nat, items: seq<Item>)
    requires Spoiled(s, t, m) && CallbacksEmpty(s.LayerOf(s.live).cmds) && Weight(s.LayerOf(s.live).cmds) == |items|
    requires CmdWeight(s.LayerOf(s.live).cmds[0]) > 0
    ensures !DrawsChannel(t, 0, items)
  {
    hide Weight, CallbacksEmpty, Contents;
    var cmds, fresh0 := s.LayerOf(s.live).cmds, FreshCmd(Last(s.clips), Last(s.textures));
    WeightOfFirst(cmds, fresh0);
    FirstReplaced(cmds, fresh0);
    if t.Holds(t.Buffers(0)) {
      WrongWeight(t, 0, items);
    }
  }

  /** If it drew nothing, drawing into the orphan's channel makes channel 0 draw too much. */
  lemma SpoiledDrawsTooMuch(s: List, t: List, m: nat, items: seq<Item>)
    requires Spoiled(s, t, m) && CallbacksEmpty(s.LayerOf(s.live).cmds) && Weight(s.LayerOf(s.live).cmds) == |items|
    requires CmdWeight(s.LayerOf(s.live).cmds[0]) == 0
    ensures SwitchStep(t, m).Some?
    ensures var o := LiveStep(SwitchStep(t, m).value, Draw([0]));
            o.Some? ==> Shaped(o.value) && o.value.count == t.count && !DrawsChannel(o.value, 0, items)
  {
    hide Weight, CallbacksEmpty, Contents;
    var cmds, fresh0 := s.LayerOf(s.live).cmds, FreshCmd(Last(s.clips), Last(s.textures));
    var drawn := fresh0.(elemCount := 1);
    WeightOfFirst(cmds, drawn);
    FirstReplaced(cmds, drawn);
    var t1 := SwitchStep(t, m).value;
    SpoiledSwitch(s, t, m);
    SpoiledDraw(t1, fresh0, cmds[1..]);
    var o := LiveStep(t1, Draw([0]));
    if o.Some? && o.value.Holds(o.value.Buffers(0)) {
      WrongWeight(o.value, 0, items);
    }
  }

  /** Two headers of one block: channel 0's and the live one, which holds the first command only. */
  ghost predicate TwoOwners(t: List, first: DrawCmd, rest: seq<DrawCmd>) {
    && Shaped(t) && t.current != 0 && Usable(t.cmdMem, t.live.cmds) && t.live.cmds.size == 1
    && t.channels[0].cmds == t.live.cmds.(size := t.channels[0].cmds.size) && Usable(t.cmdMem, t.channels[0].cmds)
    && Contents(t.cmdMem, t.channels[0].cmds) == [first] + rest
  }

  lemma SpoiledSwitch(s: List, t: List, m: nat)
    requires Spoiled(s, t, m)
    ensures SwitchStep(t, m).Some?
    ensures var t1 := SwitchStep(t, m).value;
            && TwoOwners(t1, FreshCmd(Last(s.clips), Last(s.textures)), s.LayerOf(s.live).cmds[1..])
            && t1.count == t.count && t1.clips == s.clips && t1.textures == s.textures
  {}

  lemma SpoiledDraw(t: List, first: DrawCmd, rest: seq<DrawCmd>)
    requires TwoOwners(t, first, rest)
    ensures var o := LiveStep(t, Draw([0]));
            o.Some? ==>
              && Shaped(o.value) && o.value.count == t.count && o.value.current == t.current
                 && o.value.channels == t.channels
              && Usable(o.value.cmdMem, t.channels[0].cmds)
              && Contents(o.value.cmdMem, t.channels[0].cmds) == [first.(elemCount := first.elemCount + 1)] + rest
  {
    hide Store, Contents, Step, Ready;
    FirstOfBlock(t, first, rest);
    OneCmdDrawn(t, first);
    StoreFirst(t.cmdMem, t.live.cmds, t.channels[0].cmds, first.(elemCount := first.elemCount + 1), BLANK);
    assert ([first] + rest)[1..] == rest;
  }

  /** Storing one element through a header shows through a longer header of the same block. */
  lemma StoreFirst<T>(mem: Memory<T>, h: Header, g: Header, x: T, blank: T)
    requires Usable(mem, h) && Usable(mem, g) && h.size == 1 && g == h.(size := g.size) && g.size >= 1
    ensures var r := Store(mem, h, [x], blank);
            r.1 == h && Usable(r.0, g) && Contents(r.0, g) == [x] + Contents(mem, g)[1..]
  {
    var b := mem.blocks[h.block];
    assert ([x] + b[1..])[..g.size] == [x] + b[..g.size][1..];
  }

  lemma FirstOfBlock(t: List, first: DrawCmd, rest: seq<DrawCmd>)
    requires TwoOwners(t, first, rest)
    ensures Contents(t.cmdMem, t.live.cmds) == [first]
  {
    var b := t.cmdMem.blocks[t.live.cmds.block];
    assert b[..t.channels[0].cmds.size][0] == first;
  }

  lemma OneCmdDrawn(t: List, first: DrawCmd)
    requires Usable(t.cmdMem, t.live.cmds) && Contents(t.cmdMem, t.live.cmds) == [first]
    ensures var st := State(Layer([first], []), t.clips, t.textures, 0, 1, []);
            && Ready(st, Draw([0]))
            && var u := Step(st, Draw([0]));
            && u.live.cmds == [first.(elemCount := first.elemCount + 1)] && u.clips == t.clips
               && u.textures == t.textures
  {
    assert Front([first]) == [] && Last([first]) == first;
    var st := State(Layer([first], []), t.clips, t.textures, 0, 1, []);
    assert Step(st, Draw([0])).live.cmds == [] + [first.(elemCount := first.elemCount + 1)];
  }

  // ----- Main results

  lemma RunUnfolds(ops: seq<Op>, op: Op)
    requires Legal(ops) && Batching.Enabled(RefRun(ops), op)
    ensures Legal(ops + [op]) && RefRun(ops + [op]) == Batching.RefStep(RefRun(ops), op)
    ensures ListRun(ops + [op]) == if ListRun(ops).None? then None else ListStep(ListRun(ops).value, op)
    ensures NoReuse(ops + [op]) <==> NoReuse(ops) && !Reuses(ops, op)
    ensures Ready(Batching.Run(ops), op) && Batching.Run(ops + [op]) == Step(Batching.Run(ops), op)
    ensures LossFree(ops + [op]) <==> op.Clear? || (LossFree(ops) && !Batching.Drops(Batching.Run(ops), op))
    ensures Orphan(ops + [op])
            == if op.Clear? && RefRun(ops).current != 0 then Some(RefRun(ops).current) else Orphan(ops)
  {
    hide ListStep, Step, Batching.Drops, Batching.RefStep, Batching.Enabled, Batching.Sim;
    var longer := ops + [op];
    assert Front(longer) == ops && Last(longer) == op;
    Batching.ReadyStep(Batching.Run(ops), RefRun(ops), op);
  }

  /** A run without reuse draws what was submitted if and only if no texture update dropped indices. */
  lemma RunDrawsIff(ops: seq<Op>)
    requires Legal(ops) && NoReuse(ops)
    ensures Draws(ListRun(ops), RefRun(ops)) <==> LossFree(ops)
    ensures Owned(ListRun(ops))
  {
    hide Inv, Refines, Draws, Batching.Faithful, Batching.Sim;
    OwnedRun(ops);
    RefinedDraws(ListRun(ops).value, Batching.Run(ops), RefRun(ops));
    Batching.BatchingKeepsValues(ops);
    InvOwned(ListRun(ops).value, Orphan(ops));
  }

  /** Two channels share a block after a reusing ChannelsSplit, or freed memory has been written. */
  lemma ReuseEndsOwnership(ops: seq<Op>, op: Op)
    requires Legal(ops) && NoReuse(ops) && Batching.Enabled(RefRun(ops), op) && Reuses(ops, op)
    ensures !Owned(ListRun(ops + [op]))
  {
    hide ListStep;
    RunUnfolds(ops, op);
    ReusingSplit(ops, op.n);
    var s, m := ListRun(ops).value, Orphan(ops).value;
    if ListStep(s, op).Some? {
      SharedNotOwned(s, ListStep(s, op).value, m);
    }
  }

  lemma SharedNotOwned(s: List, t: List, m: nat)
    requires Spoiled(s, t, m)
    ensures !Owned(Some(t))
  {
    assert !Apart(t.Buffers(0), t.Buffers(m));
  }

  lemma ReusingSplit(ops: seq<Op>, n: nat)
    requires Legal(ops) && NoReuse(ops) && Batching.Enabled(RefRun(ops), Split(n)) && Reuses(ops, Split(n))
    ensures ListRun(ops).Some? && ListRun(ops).value.Holds(ListRun(ops).value.live)
    ensures var s := ListRun(ops).value;
            && s.LayerOf(s.live) == Batching.Run(ops).live && s.LayerOf(s.live).cmds != []
            && (ListStep(s, Split(n)).Some? ==> Spoiled(s, ListStep(s, Split(n)).value, Orphan(ops).value))
  {
    hide Inv, Spoiled;
    OwnedRun(ops);
    var s, st, ref := ListRun(ops).value, Batching.Run(ops), RefRun(ops);
    LiveHolds(s, st);
    SplitFinds(s, st, ref, n);
    ReuseSpoils(s, Orphan(ops), n);
  }

  lemma SplitFinds(s: List, st: State, ref: Ref, n: nat)
    requires Refines(s, st) && Batching.Sim(st, ref) && Batching.Enabled(ref, Split(n))
    ensures s.current == 0 && s.count == 1 && s.clips != [] && s.textures != [] && st.live.cmds != []
  {}

  /** The whole run: the channels own their buffers throughout if and only if no ChannelsSplit opened the slot of
      a channel that was current at a Clear; and as long as that is so, the run draws what was submitted, each
      item under the stack tops of its submission, if and only if no texture update dropped indices. */
  lemma {:induction false} BatchingPreservesMeaning(ops: seq<Op>)
    requires Legal(ops)
    ensures OwnedThroughout(ops) <==> NoReuse(ops)
    ensures NoReuse(ops) ==> (Draws(ListRun(ops), RefRun(ops)) <==> LossFree(ops))
    decreases |ops|
  {
    hide Owned, Draws, Batching.Enabled, Batching.RefStep, ListStep;
    if NoReuse(ops) {
      RunDrawsIff(ops);
    }
    if ops != [] {
      BatchingPreservesMeaning(Front(ops));
      if NoReuse(Front(ops)) && !NoReuse(ops) {
        assert Front(ops) + [Last(ops)] == ops;
        ReuseEndsOwnership(Front(ops), Last(ops));
      }
    } else {
      RunDrawsIff([]);
    }
  }

  // ----- Which ChannelsSplit is safe

  /** Calls that neither clear the list nor split it again. */
  ghost predicate Continues(ops: seq<Op>, more: seq<Op>) {
    Legal(ops + more) && forall op <- more :: !op.Clear? && !op.Split?
  }

  lemma {:induction false} ContinuedNoReuse(ops: seq<Op>, more: seq<Op>)
    requires Legal(ops) && NoReuse(ops) && Continues(ops, more)
    ensures NoReuse(ops + more)
    decreases |more|
  {
    hide Batching.Enabled;
    if more == [] {
      assert ops + more == ops;
    } else {
      var front := Front(more);
      assert Front(ops + more) == ops + front && Last(ops + more) == Last(more);
      assert forall op <- front :: op in more;
      ContinuedNoReuse(ops, front);
    }
  }

  ghost predicate FaithfulAfterwards(ops: seq<Op>) {
    forall more: seq<Op> :: Continues(ops, more) ==>
      (Draws(ListRun(ops + more), RefRun(ops + more)) <==> LossFree(ops + more))
  }

  /** In a run that has lost nothing so far, the frame that a ChannelsSplit begins draws what is submitted, whatever
      calls follow, if and only if it leaves the orphan's slot alone. */
  lemma SplitIsSafeIff(ops: seq<Op>, n: nat)
    requires Legal(ops) && NoReuse(ops) && LossFree(ops) && Batching.Enabled(RefRun(ops), Split(n))
    ensures Legal(ops + [Split(n)])
    ensures FaithfulAfterwards(ops + [Split(n)]) <==> !Reuses(ops, Split(n))
  {
    hide Draws, Batching.Enabled, Batching.RefStep, ListStep, Step;
    RunUnfolds(ops, Split(n));
    var split := ops + [Split(n)];
    if Reuses(ops, Split(n)) {
      var more := ReuseMisdraws(ops, n);
      assert Continues(split, more);
    } else {
      forall more: seq<Op> | Continues(split, more)
        ensures Draws(ListRun(split + more), RefRun(split + more)) <==> LossFree(split + more)
      {
        ContinuedNoReuse(split, more);
        RunDrawsIff(split + more);
      }
    }
  }

  /** A continuation that loses no command and still draws something else: none at all, or one primitive in the
      orphan's channel. */
  lemma ReuseMisdraws(ops: seq<Op>, n: nat) returns (more: seq<Op>)
    requires Legal(ops) && NoReuse(ops) && LossFree(ops) && Batching.Enabled(RefRun(ops), Split(n))
             && Reuses(ops, Split(n))
    ensures var all := (ops + [Split(n)]) + more;
            && Continues(ops + [Split(n)], more) && LossFree(all) && !Draws(ListRun(all), RefRun(all))
  {
    hide Batching.Enabled, Batching.RefStep, ListStep, Step, Spoiled, Batching.Drops, Batching.Sim, DrawsChannel;
    var m, split := Orphan(ops).value, ops + [Split(n)];
    RunUnfolds(ops, Split(n));
    Batching.OnlyTexturesDrop(Batching.Run(ops), Split(n));
    ReusingSplit(ops, n);
    SubmittedWeight(ops);
    var s := ListRun(ops).value;
    SplitKeepsItems(RefRun(ops), n);
    if ListRun(split).None? || CmdWeight(s.LayerOf(s.live).cmds[0]) > 0 {
      more := [];
      assert split + more == split;
      if ListRun(split).Some? {
        SpoiledLoses(s, ListRun(split).value, m, RefRun(ops).layers[0]);
      }
    } else {
      more := [Switch(m), Draw([0])];
      DrawAfterSplit(ops, n);
      SpoiledDrawsTooMuch(s, ListRun(split).value, m, RefRun(ops).layers[0]);
      assert split + more == (split + [Switch(m)]) + [Draw([0])];
    }
  }

  lemma SubmittedWeight(ops: seq<Op>)
    requires Legal(ops) && LossFree(ops)
    ensures var st, ref := Batching.Run(ops), RefRun(ops);
            |ref.layers| > 0 && (st.current == 0 ==>
                                   CallbacksEmpty(st.live.cmds) && Weight(st.live.cmds) == |ref.layers[0]|)
  {
    hide Weight;
    Batching.RunOutcome(ops);
    var st, ref := Batching.Run(ops), RefRun(ops);
    Batching.LayersDrawable(st, ref, 0);
    assert Batching.DrawingAt(st, ref, 0) == ref.layers[0];
  }

  lemma SplitKeepsItems(ref: Ref, n: nat)
    requires Batching.WellFormed(ref) && Batching.Enabled(ref, Split(n))
    ensures var r := Batching.RefStep(ref, Split(n));
            |r.layers| == n && r.layers[0] == ref.layers[0]
  {}

  /** Right after a split every channel can be entered, and drawn into. */
  lemma DrawAfterSplit(ops: seq<Op>, n: nat)
    requires Legal(ops) && NoReuse(ops) && LossFree(ops) && Batching.Enabled(RefRun(ops), Split(n))
             && Reuses(ops, Split(n))
    ensures var m, split := Orphan(ops).value, ops + [Split(n)];
            && Legal(split) && Legal(split + [Switch(m)]) && Legal((split + [Switch(m)]) + [Draw([0])])
            && LossFree((split + [Switch(m)]) + [Draw([0])])
            && |RefRun((split + [Switch(m)]) + [Draw([0])]).layers| == n
            && RefRun((split + [Switch(m)]) + [Draw([0])]).layers[0] == RefRun(ops).layers[0]
            && ListRun((split + [Switch(m)]) + [Draw([0])])
               == (if ListRun(split).None? then None
                   else
                     var t := SwitchStep(ListRun(split).value, m);
                     if t.None? then None else LiveStep(t.value, Draw([0])))
  {
    hide Step, LiveStep, SwitchStep, Storage.SplitStep, Batching.Drops;
    var m, split := Orphan(ops).value, ops + [Split(n)];
    OwnedRun(ops);
    OrphanIsPositive(ListRun(ops).value, Orphan(ops));
    RunUnfolds(ops, Split(n));
    RunUnfolds(split, Switch(m));
    RunUnfolds(split + [Switch(m)], Draw([0]));
    Batching.OnlyTexturesDrop(Batching.Run(ops), Split(n));
    Batching.OnlyTexturesDrop(Batching.Run(split), Switch(m));
    Batching.OnlyTexturesDrop(Batching.Run(split + [Switch(m)]), Draw([0]));
  }

  lemma OrphanIsPositive(s: List, orphan: Option<nat>)
    requires Inv(s, orphan)
    ensures orphan.Some? ==> orphan.value >= 1
  {}

  // ----- Inputs

  const OPEN: seq<Op> := [PushClip(Vec2(0.0, 0.0), Vec2(9.0, 9.0), false), PushTexture(1)]

  /** A frame that is cleared while channel 1 is current, and the next frame drawing one primitive. */
  const CLEARED: seq<Op> := [OPEN[0], OPEN[1], Split(2), Switch(1), Clear]
  const REDRAWN: seq<Op> := CLEARED + [OPEN[0], OPEN[1], Draw([0, 1, 2])]

  /** The next ChannelsSplit then loses the primitive, though no texture update dropped anything. */
  lemma ClearInsideSplitLosesAPrimitive()
    ensures Legal(REDRAWN + [Split(2)]) && LossFree(REDRAWN + [Split(2)]) && !NoReuse(REDRAWN + [Split(2)])
    ensures !Draws(ListRun(REDRAWN + [Split(2)]), RefRun(REDRAWN + [Split(2)]))
  {
    hide Batching.Enabled, Batching.RefStep, ListStep, Step, Spoiled, Batching.Drops, Batching.Sim, DrawsChannel;
    RedrawnRun();
    RunUnfolds(REDRAWN, Split(2));
    Batching.OnlyTexturesDrop(Batching.Run(REDRAWN), Split(2));
    ReusingSplit(REDRAWN, 2);
    var s := ListRun(REDRAWN).value;
    SubmittedWeight(REDRAWN);
    SplitKeepsItems(RefRun(REDRAWN), 2);
    var split := REDRAWN + [Split(2)];
    if ListRun(split).Some? {
      SpoiledLoses(s, ListRun(split).value, 1, RefRun(REDRAWN).layers[0]);
    }
  }

  lemma SameStacks(st: State, ref: Ref)
    requires Batching.Sim(st, ref)
    ensures st.clips == ref.clips && st.textures == ref.textures && st.current == ref.current
            && st.count == |ref.layers|
  {}

  const FRAME := Rect(0.0, 0.0, 9.0, 9.0)

  /** The first two calls of a frame on an empty list. */
  lemma OpenedState(st: State)
    requires st.live == EMPTY_LAYER && st.clips == [] && st.textures == []
    ensures !Batching.Drops(st, OPEN[0])
    ensures var t := Step(st, OPEN[0]);
            && t.live == Layer([FreshCmd(FRAME, NULL)], []) && t.clips == [FRAME] && t.textures == []
            && !Batching.Drops(t, OPEN[1])
            && var u := Step(t, OPEN[1]);
            && u.live == Layer([FreshCmd(FRAME, 1)], []) && u.clips == [FRAME] && u.textures == [1]
  {
    assert Step(st, OPEN[0]).live.cmds == [] + [FreshCmd(FRAME, NULL)];
    var t := Step(st, OPEN[0]);
    assert Front(t.live.cmds) == [] && Last(t.live.cmds) == FreshCmd(FRAME, NULL);
  }

  /** What they do to a run. */
  lemma OpenedRun(ops: seq<Op>)
    requires Legal(ops) && RefRun(ops) == Batching.START && Batching.Run(ops).live == EMPTY_LAYER
    ensures var r := (ops + [OPEN[0]]) + [OPEN[1]];
            && Legal(ops + [OPEN[0]]) && Legal(r) && (LossFree(ops) ==> LossFree(r)) && (NoReuse(ops) ==> NoReuse(r))
            && Orphan(r) == Orphan(ops)
            && RefRun(r) == Batching.START.(clips := [FRAME], textures := [1], started := true)
            && Batching.Run(r).live == Layer([FreshCmd(FRAME, 1)], []) && Batching.Run(r).textures == [1]
            && Batching.Run(r).clips == [FRAME] && Batching.Run(r).current == 0
  {
    hide ListStep, Batching.Sim, Step, Batching.Drops, LossFree, NoReuse;
    SameStacks(Batching.Run(ops), RefRun(ops));
    OpenedState(Batching.Run(ops));
    RunUnfolds(ops, OPEN[0]);
    var r := ops + [OPEN[0]];
    RunUnfolds(r, OPEN[1]);
    SameStacks(Batching.Run(r + [OPEN[1]]), RefRun(r + [OPEN[1]]));
  }

  lemma ClearedRun()
    ensures Legal(CLEARED) && LossFree(CLEARED) && NoReuse(CLEARED) && Orphan(CLEARED) == Some(1)
    ensures RefRun(CLEARED) == Batching.START && Batching.Run(CLEARED).live == EMPTY_LAYER
  {
    hide ListStep, Step, Batching.Sim, Batching.Drops;
    OpenedRun([]);
    var a := ([] + [OPEN[0]]) + [OPEN[1]];
    RunUnfolds(a, Split(2));
    var b := a + [Split(2)];
    RunUnfolds(b, Switch(1));
    var c := b + [Switch(1)];
    RunUnfolds(c, Clear);
    assert c + [Clear] == CLEARED;
    ClearedLive(Batching.Run(c));
  }

  lemma ClearedLive(st: State)
    ensures Step(st, Clear).live == EMPTY_LAYER
  {}

  lemma RedrawnRun()
    ensures Legal(REDRAWN) && LossFree(REDRAWN) && NoReuse(REDRAWN) && Orphan(REDRAWN) == Some(1)
    ensures Batching.Enabled(RefRun(REDRAWN), Split(2)) && Batching.Run(REDRAWN).current == 0
    ensures Batching.Run(REDRAWN).live.cmds != [] && CmdWeight(Batching.Run(REDRAWN).live.cmds[0]) == 3
  {
    hide ListStep, Batching.Sim, Step, Batching.Drops;
    ClearedRun();
    OpenedRun(CLEARED);
    var a := (CLEARED + [OPEN[0]]) + [OPEN[1]];
    RunUnfolds(a, Draw([0, 1, 2]));
    Batching.OnlyTexturesDrop(Batching.Run(a), Draw([0, 1, 2]));
    assert a + [Draw([0, 1, 2])] == REDRAWN;
    DrawnFirst(Batching.Run(a), FreshCmd(FRAME, 1));
  }

  lemma DrawnFirst(st: State, cmd: DrawCmd)
    requires st.live == Layer([cmd], []) && cmd.callback == NULL && cmd.elemCount == 0
    ensures Ready(st, Draw([0, 1, 2])) && Step(st, Draw([0, 1, 2])).current == st.current
    ensures var cmds := Step(st, Draw([0, 1, 2])).live.cmds;
            cmds != [] && CmdWeight(cmds[0]) == 3
  {
    assert Front([cmd]) == [] && Last([cmd]) == cmd;
  }

  // ----- When nothing is lost

  /** Runs that are tidy since the last Clear, and reuse no orphan's slot, draw exactly what was submitted; and merging
      their channels draws channel 0, then channel 1, and so on.  Earlier frames may have merged, asked for
      commands of their own, and lost indices. */
  lemma {:induction false} TidyRunsDrawWhatWasSubmitted(ops: seq<Op>)
    requires Legal(ops) && NoReuse(ops) && Batching.Tidy(ops)
    ensures Draws(ListRun(ops), RefRun(ops))
    ensures var merged := ops + [MergeAll];
            Legal(merged) && Draws(ListRun(merged), RefRun(merged))
              && RefRun(merged).layers == [Batching.Concat(RefRun(ops).layers)]
  {
    hide Draws, ListStep, Step, Batching.Sim, Batching.Drops;
    Batching.TidyRun(ops);
    RunDrawsIff(ops);
    MergeEnabled(RefRun(ops));
    RunUnfolds(ops, MergeAll);
    Batching.OnlyTexturesDrop(Batching.Run(ops), MergeAll);
    RunDrawsIff(ops + [MergeAll]);
  }

  /** So do runs that since the last Clear have asked for no command of their own, set no NULL callback and not
      merged. */
  lemma CarefulRunsDrawWhatWasSubmitted(ops: seq<Op>)
    requires Legal(ops) && NoReuse(ops) && Batching.CarefulSince(ops)
    ensures Draws(ListRun(ops), RefRun(ops))
    ensures var merged := ops + [MergeAll];
            Legal(merged) && Draws(ListRun(merged), RefRun(merged))
              && RefRun(merged).layers == [Batching.Concat(RefRun(ops).layers)]
  {
    hide Draws, ListRun, RefRun;
    Batching.CarefulIsTidy(ops);
    TidyRunsDrawWhatWasSubmitted(ops);
  }

  /** And so do runs, with whatever other calls, in which since the last Clear every texture push and pop has changed
      the texture on top. */
  lemma TextureChangesLoseNothing(ops: seq<Op>)
    requires Legal(ops) && NoReuse(ops) && Batching.TexturesChange(ops)
    ensures Draws(ListRun(ops), RefRun(ops))
    ensures var merged := ops + [MergeAll];
            Legal(merged) && Draws(ListRun(merged), RefRun(merged))
              && RefRun(merged).layers == [Batching.Concat(RefRun(ops).layers)]
  {
    hide Draws, ListRun, RefRun;
    Batching.ChangingIsTidy(ops);
    TidyRunsDrawWhatWasSubmitted(ops);
  }

  lemma MergeEnabled(ref: Ref)
    requires Batching.WellFormed(ref)
    ensures Batching.Enabled(ref, MergeAll)
    ensures Batching.RefStep(ref, MergeAll).layers == [Batching.Concat(ref.layers)]
  {
    if |ref.layers| == 1 {
      assert Front(ref.layers) == [];
      assert Batching.Concat(ref.layers) == [] + ref.layers[0] == ref.layers[0];
    }
  }

  /** A short way to lose a primitive: draw, ask for a new command, draw, and push the texture that is on top
      already.  The push throws the second command away, with its three indices. */
  lemma RepeatedTextureLosesAPrimitive(texture: Pointer)
    ensures var ops := [PushTexture(texture), Draw([0, 1, 2]), NewCmd, Draw([3, 4, 5]), PushTexture(texture)];
            && Legal(ops) && NoReuse(ops) && !LossFree(ops) && !Draws(ListRun(ops), RefRun(ops))
            && RefRun(ops).layers == [Elems([0, 1, 2, 3, 4, 5], NULL_CLIP_RECT, texture)]
            && ListRun(ops).Some? && Shaped(ListRun(ops).value) && ListRun(ops).value.count == 1
            && DrawsChannel(ListRun(ops).value, 0, Elems([0, 1, 2], NULL_CLIP_RECT, texture))
  {
    hide ListStep, Batching.Sim, Step, Batching.Drops, LossFree, NoReuse, Draws, DrawsChannel, Inv, Elems;
    var a := [PushTexture(texture)];
    var b := a + [Draw([0, 1, 2])];
    var c := b + [NewCmd];
    var d := c + [Draw([3, 4, 5])];
    var e := d + [PushTexture(texture)];
    assert a == [] + [PushTexture(texture)];
    assert e == [PushTexture(texture), Draw([0, 1, 2]), NewCmd, Draw([3, 4, 5]), PushTexture(texture)];
    RunUnfolds([], PushTexture(texture));
    RunUnfolds(a, Draw([0, 1, 2]));
    RunUnfolds(b, NewCmd);
    RunUnfolds(c, Draw([3, 4, 5]));
    RunUnfolds(d, PushTexture(texture));
    NoReuseYet();
    RepeatedStates(texture);
    RepeatedRef(texture);
    RunDrawsIff(e);
    OwnedRun(e);
    DrawsLive(ListRun(e).value, Batching.Run(e), RefRun(e));
  }

  lemma NoReuseYet()
    ensures NoReuse([])
  {}

  lemma DrawsLive(s: List, st: State, ref: Ref)
    requires Refines(s, st) && Batching.Sim(st, ref) && |ref.layers| == 1
    ensures Shaped(s) && s.count == 1 && Total(st.live.cmds) <= |st.live.idxs| && DrawsChannel(s, 0, Drawing(st.live))
  {
    hide Render, Total, Contents, Usable;
    LiveHolds(s, st);
    SameStacks(st, ref);
    assert s.current == 0;
    Batching.LayersDrawable(st, ref, 0);
  }

  /** A list without channels or clip rectangles. */
  function Plainly(cmds: seq<DrawCmd>, idxs: seq<Index>, textures: seq<Pointer>): State {
    State(Layer(cmds, idxs), [], textures, 0, 1, [])
  }

  lemma PushOpens(texture: Pointer)
    ensures var s0 := Plainly([], [], []);
            Step(s0, PushTexture(texture)) == Plainly([FreshCmd(NULL_CLIP_RECT, texture)], [], [texture])
            && !Batching.Drops(s0, PushTexture(texture))
  {}

  lemma DrawExtends(before: seq<DrawCmd>, cmd: DrawCmd, idxs: seq<Index>, texture: Pointer, more: seq<Index>)
    ensures var st := Plainly(before + [cmd], idxs, [texture]);
            Ready(st, Draw(more))
            && Step(st, Draw(more))
               == Plainly(before + [cmd.(elemCount := cmd.elemCount + |more|)], idxs + more, [texture])
  {
    assert Front(before + [cmd]) == before;
  }

  lemma NewCmdOpens(cmd: DrawCmd, idxs: seq<Index>, texture: Pointer)
    ensures Step(Plainly([cmd], idxs, [texture]), NewCmd)
            == Plainly([cmd, FreshCmd(NULL_CLIP_RECT, texture)], idxs, [texture])
  {
    assert [cmd] + [FreshCmd(NULL_CLIP_RECT, texture)] == [cmd, FreshCmd(NULL_CLIP_RECT, texture)];
  }

  lemma PushDrops(idxs: seq<Index>, texture: Pointer)
    ensures var full := FreshCmd(NULL_CLIP_RECT, texture).(elemCount := 3);
            var st := Plainly([full, full], idxs, [texture]);
            Batching.Drops(st, PushTexture(texture))
            && Step(st, PushTexture(texture)) == Plainly([full], idxs, [texture, texture])
  {
    var full := FreshCmd(NULL_CLIP_RECT, texture).(elemCount := 3);
    assert Front([full, full]) == [full] && [texture] + [texture] == [texture, texture];
  }

  lemma RepeatedStates(texture: Pointer)
    ensures var s0 := Batching.EMPTY_LIST;
            && !Batching.Drops(s0, PushTexture(texture))
            && var s1 := Step(s0, PushTexture(texture));
            && Ready(s1, Draw([0, 1, 2]))
            && var s3 := Step(Step(s1, Draw([0, 1, 2])), NewCmd);
            && Ready(s3, Draw([3, 4, 5]))
            && var s4 := Step(s3, Draw([3, 4, 5]));
            && Batching.Drops(s4, PushTexture(texture)) && |s4.live.cmds| == 2
            && var s5 := Step(s4, PushTexture(texture));
            && |s5.live.cmds| == 1 && Total(s5.live.cmds) <= |s5.live.idxs|
            && Drawing(s5.live) == Elems([0, 1, 2], NULL_CLIP_RECT, texture)
  {
    hide Elems, Render, Total, Step, Ready, Batching.Drops, FreshCmd;
    var blank := FreshCmd(NULL_CLIP_RECT, texture);
    var full := blank.(elemCount := 3);
    var idxs: seq<Index> := [0, 1, 2, 3, 4, 5];
    BlankIsFresh(texture);
    Glued<DrawCmd>(blank, full);
    GluedIndices();
    PushOpens(texture);
    DrawExtends([], blank, [], texture, [0, 1, 2]);
    NewCmdOpens(full, [0, 1, 2], texture);
    DrawExtends([full], blank, [0, 1, 2], texture, [3, 4, 5]);
    PushDrops(idxs, texture);
    RenderOne(full, idxs);
  }

  lemma BlankIsFresh(texture: Pointer)
    ensures FreshCmd(NULL_CLIP_RECT, texture) == DrawCmd(0, NULL_CLIP_RECT, texture, NULL, NULL)
  {}

  lemma Glued<T>(a: T, b: T)
    ensures [] + [a] == [a] && [] + [b] == [b] && [b] + [a] == [b, a] && [b] + [b] == [b, b]
  {}

  lemma GluedIndices()
    ensures var idxs: seq<Index> := [0, 1, 2, 3, 4, 5];
            [] + [0, 1, 2] == [0, 1, 2] && [0, 1, 2] + [3, 4, 5] == idxs && idxs[0..3] == [0, 1, 2]
  {}

  lemma RenderOne(cmd: DrawCmd, idxs: seq<Index>)
    requires cmd.elemCount <= |idxs| && cmd.callback == NULL
    ensures Total([cmd]) == cmd.elemCount && Render([cmd], idxs) == Elems(idxs[0..cmd.elemCount], cmd.clip, cmd.texture)
  {
    assert Front([cmd]) == [] && Last([cmd]) == cmd;
  }

  lemma RepeatedRef(texture: Pointer)
    ensures var r0 := Batching.START;
            && Batching.Enabled(r0, PushTexture(texture))
            && var r1 := Batching.RefStep(r0, PushTexture(texture));
            && Batching.Enabled(r1, Draw([0, 1, 2]))
            && var r3 := Batching.RefStep(Batching.RefStep(r1, Draw([0, 1, 2])), NewCmd);
            && Batching.Enabled(r3, Draw([3, 4, 5]))
            && var r5 := Batching.RefStep(Batching.RefStep(r3, Draw([3, 4, 5])), PushTexture(texture));
            r5.layers == [Elems([0, 1, 2, 3, 4, 5], NULL_CLIP_RECT, texture)]
  {
    hide Elems;
    var one, two := Elems([0, 1, 2], NULL_CLIP_RECT, texture), Elems([3, 4, 5], NULL_CLIP_RECT, texture);
    ElemsConcat([0, 1, 2], [3, 4, 5], NULL_CLIP_RECT, texture);
    assert [0, 1, 2] + [3, 4, 5] == [0, 1, 2, 3, 4, 5];
    var r1 := Batching.RefStep(Batching.START, PushTexture(texture));
    var r2 := Batching.RefStep(r1, Draw([0, 1, 2]));
    assert r2.layers[0] == [] + one == one;
    assert Batching.RefStep(Batching.RefStep(r2, NewCmd), Draw([3, 4, 5])).layers[0] == one + two;
  }
}
