/** Which headers own their blocks, and what that means for drawing.  As long as no two channels share a
    block, the list of `Storage` behaves as the list of values in `DrawState`. */
module Ownership {
  import opened Basics
  import opened DrawState
  import opened CommandBuffer
  import opened Storage
  import Batching

  // ----- One vector among others

  ghost predicate Sound<T>(mem: Memory<T>) {
    forall b <- mem.blocks.Keys :: b < mem.next
  }

  predicate Distinct(g: Header, h: Header) {
    g.capacity == 0 || h.capacity == 0 || g.block != h.block
  }

  /** The block has been freed. */
  predicate Freed<T>(mem: Memory<T>, b: nat) {
    b < mem.next && b !in mem.blocks
  }

  /** The block has been freed, or it is the one that h points at. */
  predicate FreedOrOf<T>(mem: Memory<T>, b: nat, h: Header) {
    Freed(mem, b) || (h.capacity > 0 && b == h.block)
  }

  /** The vector went from (mem, h) to (m, g), and no other vector noticed. */
  ghost predicate Moved<T>(mem: Memory<T>, h: Header, m: Memory<T>, g: Header) {
    && Sound(m) && Usable(m, g)
    && (forall o: Header :: Usable(mem, o) && Distinct(h, o) ==>
          Usable(m, o) && Distinct(g, o) && Contents(m, o) == Contents(mem, o))
    && (forall b: nat :: FreedOrOf(mem, b, h) ==> FreedOrOf(m, b, g))
    && (forall b: nat :: Freed(mem, b) ==> Freed(m, b))
  }

  lemma ReserveMoves<T>(mem: Memory<T>, h: Header, size: nat, blank: T)
    requires Sound(mem) && Usable(mem, h)
    ensures var r := Reserve(mem, h, size, blank); Moved(mem, h, r.0, r.1)
  {
    hide Vector.Grow;
  }

  lemma OverwriteMoves<T>(mem: Memory<T>, h: Header, s: seq<T>)
    requires Sound(mem) && Usable(mem, h) && h.capacity > 0 && |s| <= h.capacity
    ensures Moved(mem, h, mem.(blocks := mem.blocks[h.block := s + mem.blocks[h.block][|s|..]]), h.(size := |s|))
  {}

  lemma MovesCompose<T>(mem: Memory<T>, h: Header, m: Memory<T>, g: Header, m': Memory<T>, g': Header)
    requires Moved(mem, h, m, g) && Moved(m, g, m', g')
    ensures Moved(mem, h, m', g')
  {
    hide Freed, FreedOrOf, Contents, Usable, Distinct;
  }

  lemma StoreMoves<T>(mem: Memory<T>, h: Header, s: seq<T>, blank: T)
    requires Sound(mem) && Usable(mem, h)
    ensures var r := Store(mem, h, s, blank); Moved(mem, h, r.0, r.1)
  {
    hide Moved, Reserve;
    var (m, g) := Reserve(mem, h, |s|, blank);
    ReserveMoves(mem, h, |s|, blank);
    MovedSound(mem, h, m, g);
    if g.capacity > 0 {
      OverwriteMoves(m, g, s);
      var r := Store(mem, h, s, blank);
      MovesCompose(mem, h, m, g, r.0, r.1);
    }
  }

  lemma MovedSound<T>(mem: Memory<T>, h: Header, m: Memory<T>, g: Header)
    requires Moved(mem, h, m, g)
    ensures Sound(m) && Usable(m, g)
  {}

  lemma ShrinkMoves<T>(mem: Memory<T>, h: Header, size: nat)
    requires Sound(mem) && Usable(mem, h) && size <= h.size
    ensures Moved(mem, h, mem, h.(size := size))
  {}

  // ----- One channel among others

  predicate Apart(a: Slot, b: Slot) {
    Distinct(a.cmds, b.cmds) && Distinct(a.idxs, b.idxs)
  }

  /** The channels below the bound, and the current one, are those whose buffers are still owned. */
  predicate InUse(s: List, k: nat, bound: nat) {
    k == s.current || (k < |s.channels| && k < bound)
  }

  ghost predicate Owns(s: List, bound: nat) {
    && Sound(s.cmdMem) && Sound(s.idxMem)
    && (forall k: nat :: InUse(s, k, bound) ==> s.Holds(s.Buffers(k)))
    && (forall j: nat, k: nat :: j != k && InUse(s, j, bound) && InUse(s, k, bound) ==>
          Apart(s.Buffers(j), s.Buffers(k)))
  }

  /** Nothing but the buffers of channel j has changed. */
  ghost predicate MovedOnly(s: List, t: List, j: nat, bound: nat)
    requires InUse(s, j, bound)
  {
    && t.current == s.current && |t.channels| == |s.channels|
    && (forall k: nat :: k != j && InUse(s, k, bound) ==> t.Buffers(k) == s.Buffers(k))
    && Moved(s.cmdMem, s.Buffers(j).cmds, t.cmdMem, t.Buffers(j).cmds)
    && Moved(s.idxMem, s.Buffers(j).idxs, t.idxMem, t.Buffers(j).idxs)
  }

  /** The memory that the slot's commands point at is freed, or the owner's. */
  predicate Gone(s: List, slot: Slot, owner: Slot) {
    slot.cmds.capacity > 0 && FreedOrOf(s.cmdMem, slot.cmds.block, owner.cmds)
  }

  lemma MovedKeepsOwnership(s: List, t: List, j: nat, bound: nat)
    requires Owns(s, bound) && InUse(s, j, bound) && MovedOnly(s, t, j, bound)
    ensures Owns(t, bound)
    ensures forall k: nat :: k != j && InUse(s, k, bound) ==>
              s.Holds(s.Buffers(k)) && t.Holds(t.Buffers(k)) && t.LayerOf(t.Buffers(k)) == s.LayerOf(s.Buffers(k))
  {
    hide Freed, FreedOrOf, Contents, Usable, Distinct;
    forall k: nat | k != j && InUse(s, k, bound)
      ensures t.Holds(t.Buffers(k)) && t.LayerOf(t.Buffers(k)) == s.LayerOf(s.Buffers(k))
              && Apart(t.Buffers(j), t.Buffers(k))
    {
      assert Apart(s.Buffers(j), s.Buffers(k)) && s.Holds(s.Buffers(k));
    }
    DistinctSymmetric();
    forall i: nat, k: nat | i != k && InUse(t, i, bound) && InUse(t, k, bound)
      ensures Apart(t.Buffers(i), t.Buffers(k))
    {
      assert InUse(s, i, bound) && InUse(s, k, bound);
    }
  }

  lemma DistinctSymmetric()
    ensures forall g: Header, h: Header :: Distinct(g, h) == Distinct(h, g)
  {}

  lemma MovedKeepsGone(s: List, t: List, j: nat, bound: nat, slot: Slot, k: nat)
    requires InUse(s, j, bound) && MovedOnly(s, t, j, bound) && InUse(s, k, bound) && Gone(s, slot, s.Buffers(k))
    ensures Gone(t, slot, t.Buffers(k))
  {
    hide Contents, Usable, Distinct, Freed;
  }

  lemma StayMoves<T>(mem: Memory<T>, h: Header)
    requires Sound(mem) && Usable(mem, h)
    ensures Moved(mem, h, mem, h)
  {}

  // ----- The invariant

  /** Channels from `orphan` on may have lost their storage: its slot was current at a Clear. */
  function Bound(s: List, orphan: Option<nat>): nat {
    if orphan.Some? then orphan.value else |s.channels|
  }

  ghost predicate Shaped(s: List) {
    s.current < s.count && (s.count > 1 ==> s.count <= |s.channels|)
  }

  /** The channels in use own their buffers.  The slot of the current channel, and that of the orphan, point at
      memory that is freed or belongs to the live buffers, and to channel 0. */
  ghost predicate Inv(s: List, orphan: Option<nat>) {
    && Shaped(s) && (s.count > 1 ==> s.count <= Bound(s, orphan))
    && Owns(s, Bound(s, orphan))
    && (s.current != 0 ==> Gone(s, s.channels[s.current], s.live))
    && (orphan.Some? ==> 1 <= orphan.value < |s.channels| && Gone(s, s.channels[orphan.value], s.Buffers(0)))
  }

  /** The list holds the values of st. */
  ghost predicate Refines(s: List, st: State) {
    && Shaped(s) && s.clips == st.clips && s.textures == st.textures && s.current == st.current && s.count == st.count
    && |s.channels| == |st.channels|
    && forall k: nat :: k < s.count ==> s.Holds(s.Buffers(k)) && s.LayerOf(s.Buffers(k)) == st.LayerAt(k)
  }

  lemma InvInUse(s: List, orphan: Option<nat>)
    requires Inv(s, orphan)
    ensures forall k: nat :: k < s.count ==> InUse(s, k, Bound(s, orphan))
    ensures InUse(s, 0, Bound(s, orphan))
  {}

  /** A change to the buffers of one channel in use keeps the invariant, and the values of the others. */
  lemma MovedKeepsInv(s: List, t: List, j: nat, orphan: Option<nat>)
    requires Inv(s, orphan) && InUse(s, j, Bound(s, orphan)) && MovedOnly(s, t, j, Bound(s, orphan))
             && t.count == s.count
    requires s.current != 0 ==> t.channels[s.current] == s.channels[s.current]
    requires orphan.Some? ==> t.channels[orphan.value] == s.channels[orphan.value]
    ensures Inv(t, orphan)
    ensures forall k: nat :: k != j && k < s.count ==>
              s.Holds(s.Buffers(k)) && t.Holds(t.Buffers(k)) && t.LayerOf(t.Buffers(k)) == s.LayerOf(s.Buffers(k))
  {
    hide Moved, Gone, MovedOnly, Owns, List.Holds, List.LayerOf;
    var bound := Bound(s, orphan);
    InvInUse(s, orphan);
    MovedKeepsOwnership(s, t, j, bound);
    SameBound(s, t, j, bound);
    if s.current != 0 {
      MovedKeepsGone(s, t, j, bound, s.channels[s.current], s.current);
    }
    if orphan.Some? {
      MovedKeepsGone(s, t, j, bound, s.channels[orphan.value], 0);
    }
  }

  lemma SameBound(s: List, t: List, j: nat, bound: nat)
    requires InUse(s, j, bound) && MovedOnly(s, t, j, bound)
    ensures t.current == s.current && |t.channels| == |s.channels|
  {}

  // ----- Calls on the live buffers

  /** What a live call does does not depend on the indices. */
  lemma LiveOnCmds(st: State, op: Op)
    requires Batching.Live(op) && Ready(st, op)
    ensures var st0 := State(Layer(st.live.cmds, []), st.clips, st.textures, 0, 1, []);
            && Ready(st0, op)
            && var (t, u) := (Step(st0, op), Step(st, op));
            && u.live == Layer(t.live.cmds, st.live.idxs + (if op.Draw? then op.idxs else []))
            && u.clips == t.clips && u.textures == t.textures
            && u.current == st.current && u.count == st.count && u.channels == st.channels
  {
    hide UpdateClipRect, UpdateTextureID, AddCallback, PushedRect;
  }

  /** Setting the contents of the live vectors. */
  lemma LiveSet(s: List, orphan: Option<nat>, cmds: seq<DrawCmd>)
    requires Inv(s, orphan)
    ensures SetLiveCmds(s, cmds).Some?
    ensures var t := SetLiveCmds(s, cmds).value;
            && Inv(t, orphan) && s.Holds(s.live) && t.Holds(t.live)
            && t.LayerOf(t.live) == Layer(cmds, s.LayerOf(s.live).idxs)
            && t == s.(cmdMem := t.cmdMem, live := t.live)
            && forall k: nat :: k < s.count && k != s.current ==>
                 s.Holds(s.Buffers(k)) && t.Holds(t.Buffers(k)) && t.LayerOf(t.Buffers(k)) == s.LayerOf(s.Buffers(k))
  {
    hide Moved, Store, Gone;
    assert InUse(s, s.current, Bound(s, orphan)) && s.Holds(s.live);
    var t := SetLiveCmds(s, cmds).value;
    StoreMoves(s.cmdMem, s.live.cmds, cmds, BLANK);
    StayMoves(s.idxMem, s.live.idxs);
    MovedKeepsInv(s, t, s.current, orphan);
  }

  lemma LiveAppend(s: List, orphan: Option<nat>, idxs: seq<Index>)
    requires Inv(s, orphan)
    ensures AppendLiveIdxs(s, idxs).Some?
    ensures var t := AppendLiveIdxs(s, idxs).value;
            && Inv(t, orphan) && s.Holds(s.live) && t.Holds(t.live)
            && t.LayerOf(t.live) == Layer(s.LayerOf(s.live).cmds, s.LayerOf(s.live).idxs + idxs)
            && t == s.(idxMem := t.idxMem, live := t.live)
            && forall k: nat :: k < s.count && k != s.current ==>
                 s.Holds(s.Buffers(k)) && t.Holds(t.Buffers(k)) && t.LayerOf(t.Buffers(k)) == s.LayerOf(s.Buffers(k))
  {
    hide Moved, Store, Gone;
    assert InUse(s, s.current, Bound(s, orphan)) && s.Holds(s.live);
    var t := AppendLiveIdxs(s, idxs).value;
    StoreMoves(s.idxMem, s.live.idxs, Contents(s.idxMem, s.live.idxs) + idxs, 0);
    StayMoves(s.cmdMem, s.live.cmds);
    MovedKeepsInv(s, t, s.current, orphan);
  }

  lemma LiveKeeps(s: List, st: State, orphan: Option<nat>, op: Op)
    requires Inv(s, orphan) && Refines(s, st) && Batching.Live(op) && Ready(st, op)
    ensures ListStep(s, op).Some? && Inv(ListStep(s, op).value, orphan) && Refines(ListStep(s, op).value, Step(st, op))
  {
    hide Inv, Step, Ready, SetLiveCmds, AppendLiveIdxs;
    LiveOnCmds(st, op);
    LiveHolds(s, st);
    var st0 := State(Layer(st.live.cmds, []), st.clips, st.textures, 0, 1, []);
    var t, u := Step(st0, op), Step(st, op);
    var s0 := s.(clips := t.clips, textures := t.textures);
    StacksAside(s, orphan, t.clips, t.textures);
    LiveSet(s0, orphan, t.live.cmds);
    var s1 := SetLiveCmds(s0, t.live.cmds).value;
    assert s0.LayerOf(s0.live) == st.live && s1.LayerOf(s1.live) == Layer(t.live.cmds, st.live.idxs);
    if op.Draw? {
      LiveAppend(s1, orphan, op.idxs);
      LiveRefines(s1, AppendLiveIdxs(s1, op.idxs).value, st, u);
    } else {
      LiveRefines(s0, s1, st, u);
    }
  }

  lemma LiveRefines(s: List, t: List, st: State, u: State)
    requires Shaped(t) && t.current == s.current && t.count == s.count && t.channels == s.channels
    requires t.clips == u.clips && t.textures == u.textures
    requires u.current == st.current == s.current && u.count == st.count == s.count && u.channels == st.channels
    requires |s.channels| == |st.channels| && t.Holds(t.live) && t.LayerOf(t.live) == u.live
    requires forall k: nat :: k < s.count && k != s.current ==>
               t.Holds(t.Buffers(k)) && t.LayerOf(t.Buffers(k)) == st.LayerAt(k)
    ensures Refines(t, u)
  {
    hide List.Holds, List.LayerOf;
  }

  lemma LiveHolds(s: List, st: State)
    requires Refines(s, st)
    ensures s.Holds(s.live) && s.LayerOf(s.live) == st.live
    ensures forall k: nat :: k < s.count && k != s.current ==>
              s.Holds(s.Buffers(k)) && s.LayerOf(s.Buffers(k)) == st.LayerAt(k)
  {
    assert s.Holds(s.Buffers(s.current)) && s.LayerOf(s.Buffers(s.current)) == st.LayerAt(s.current);
  }

  lemma StacksAside(s: List, orphan: Option<nat>, clips: seq<Rect>, textures: seq<Pointer>)
    requires Inv(s, orphan)
    ensures Inv(s.(clips := clips, textures := textures), orphan)
  {
    hide Sound, Freed, FreedOrOf, Contents, Usable, Distinct;
    var t := s.(clips := clips, textures := textures);
    assert forall k: nat :: InUse(t, k, Bound(t, orphan)) ==>
        InUse(s, k, Bound(s, orphan)) && t.Buffers(k) == s.Buffers(k);
  }

  // ----- Clear and the channel calls

  /** A Clear outside channel 0 leaves an orphan: the slot of the channel that was current. */
  function OrphanAfter(s: List, orphan: Option<nat>): Option<nat> {
    if s.current != 0 then Some(s.current) else orphan
  }

  /** Headers of the same blocks, and no more channels in use than before. */
  lemma SameOwners(s: List, bound: nat, t: List, now: nat)
    requires Owns(s, bound) && t.cmdMem == s.cmdMem && t.idxMem == s.idxMem
    requires forall k: nat :: InUse(t, k, now) ==> InUse(s, k, bound) && t.Buffers(k) == s.Buffers(k)
    ensures Owns(t, now)
  {}

  /** The live buffers become those of another channel. */
  lemma LiveMovesTo(s: List, bound: nat, t: List, now: nat)
    requires Owns(s, bound) && t.cmdMem == s.cmdMem && t.idxMem == s.idxMem && t.live == s.live
             && t.channels == s.channels
    requires forall k: nat :: k != t.current && InUse(t, k, now) ==> k != s.current && InUse(s, k, bound)
    ensures Owns(t, now)
  {
    hide Sound;
    assert InUse(s, s.current, bound) && t.Buffers(t.current) == s.Buffers(s.current);
    assert forall k: nat :: k != t.current && InUse(t, k, now) ==> t.Buffers(k) == s.Buffers(k);
  }

  lemma ClearKeeps(s: List, st: State, orphan: Option<nat>)
    requires Inv(s, orphan) && Refines(s, st)
    ensures Inv(ClearStep(s), OrphanAfter(s, orphan)) && Refines(ClearStep(s), Step(st, Clear))
  {
    hide Owns, Refines, Gone;
    RefinesShape(s, st);
    InvInUse(s, orphan);
    LiveInUse(s, orphan);
    var emptied := s.(live := Emptied(s.live));
    ShrinkMoves(s.cmdMem, s.live.cmds, 0);
    ShrinkMoves(s.idxMem, s.live.idxs, 0);
    EmptiedMoves(s, orphan);
    MovedKeepsInv(s, emptied, s.current, orphan);
    var t := ClearStep(s);
    LiveMovesTo(emptied, Bound(s, orphan), t, Bound(t, OrphanAfter(s, orphan)));
    if s.current != 0 {
      SameGone(emptied, t, s.channels[s.current], emptied.live);
    } else if orphan.Some? {
      SameGone(emptied, t, s.channels[orphan.value], emptied.live);
    }
    ClearRefines(s, st);
  }

  lemma LiveInUse(s: List, orphan: Option<nat>)
    requires Inv(s, orphan)
    ensures InUse(s, s.current, Bound(s, orphan)) && s.Holds(s.live) && Sound(s.cmdMem) && Sound(s.idxMem)
  {
    assert InUse(s, s.current, Bound(s, orphan)) && s.Holds(s.Buffers(s.current));
  }

  lemma EmptiedMoves(s: List, orphan: Option<nat>)
    requires Inv(s, orphan) && InUse(s, s.current, Bound(s, orphan))
    requires Moved(s.cmdMem, s.live.cmds, s.cmdMem, s.live.cmds.(size := 0))
    requires Moved(s.idxMem, s.live.idxs, s.idxMem, s.live.idxs.(size := 0))
    ensures MovedOnly(s, s.(live := Emptied(s.live)), s.current, Bound(s, orphan))
  {
    hide Moved, Gone, Owns;
  }

  lemma ClearRefines(s: List, st: State)
    requires Refines(s, st)
    ensures Refines(ClearStep(s), Step(st, Clear))
  {
    LiveHolds(s, st);
  }

  lemma SwitchKeeps(s: List, st: State, orphan: Option<nat>, k: nat)
    requires Inv(s, orphan) && Refines(s, st) && k < s.count
    requires k != 0 ==> st.LayerAt(k).cmds != []
    ensures SwitchStep(s, k).Some? && Ready(st, Switch(k))
    ensures Inv(SwitchStep(s, k).value, orphan) && Refines(SwitchStep(s, k).value, SetCurrent(st, k))
  {
    hide Owns, Refines, Gone;
    RefinesShape(s, st);
    if k != s.current {
      var t, bound := SwitchStep(s, k).value, Bound(s, orphan);
      SwitchRefines(s, st, k);
      SameBuffers(s, t, orphan, k);
      SameOwners(s, bound, t, bound);
      if k != 0 {
        ParkedIsGone(s, st, k, t);
      }
      if orphan.Some? {
        SameGone(s, t, s.channels[orphan.value], s.Buffers(0));
      }
    }
  }

  lemma RefinesShape(s: List, st: State)
    requires Refines(s, st)
    ensures s.current == st.current && s.count == st.count && |s.channels| == |st.channels|
    ensures s.clips == st.clips && s.textures == st.textures
  {}

  lemma SameBuffers(s: List, t: List, orphan: Option<nat>, k: nat)
    requires Inv(s, orphan) && k < s.count && k != s.current && SwitchStep(s, k) == Some(t)
    ensures forall j: nat :: InUse(t, j, Bound(s, orphan)) ==>
              InUse(s, j, Bound(s, orphan)) && t.Buffers(j) == s.Buffers(j)
    ensures t.Buffers(0) == s.Buffers(0) && (orphan.Some? ==> t.channels[orphan.value] == s.channels[orphan.value])
  {
    hide Owns, Gone;
  }

  lemma SwitchRefines(s: List, st: State, k: nat)
    requires Refines(s, st) && k < s.count && k != s.current
    ensures SwitchStep(s, k).Some? && Refines(SwitchStep(s, k).value, SetCurrent(st, k))
  {
    hide Contents, Usable;
    var t := SwitchStep(s, k).value;
    assert forall j: nat | j < st.count :: SetCurrent(st, k).LayerAt(j) == st.LayerAt(j);
    assert forall j: nat | j < s.count :: t.Buffers(j) == s.Buffers(j);
  }

  lemma SameGone(s: List, t: List, slot: Slot, owner: Slot)
    requires Gone(s, slot, owner) && t.cmdMem == s.cmdMem
    ensures Gone(t, slot, owner)
  {}

  lemma ParkedIsGone(s: List, st: State, k: nat, t: List)
    requires Refines(s, st) && k < s.count && k != s.current && SwitchStep(s, k) == Some(t) && st.LayerAt(k).cmds != []
    ensures t.current == k < |t.channels| && Gone(t, t.channels[k], t.live)
  {
    hide Contents;
    assert s.Holds(s.Buffers(k)) && s.LayerOf(s.Buffers(k)).cmds != [];
  }

  /** A slot in use is opened: a fresh layer for its channel, nothing for the others. */
  lemma OpenSlotKeeps(s: List, orphan: Option<nat>, i: nat)
    requires Inv(s, orphan) && s.current == 0 && 1 <= i < s.count && s.clips != [] && s.textures != []
    ensures OpenSlot(s, i).Some?
    ensures var t := OpenSlot(s, i).value;
            && Inv(t, orphan) && t == s.(cmdMem := t.cmdMem, channels := t.channels)
            && t.Holds(t.Buffers(i)) && t.LayerOf(t.Buffers(i))
               == Layer([FreshCmd(Last(s.clips), Last(s.textures))], [])
            && SameLayersBut(s, t, i)
  {
    hide Moved, Gone, Store, Owns;
    InvInUse(s, orphan);
    OpenSlotMoves(s, orphan, i);
    MovedKeepsInv(s, OpenSlot(s, i).value, i, orphan);
  }

  /** The layers of all channels but i are as before. */
  ghost predicate SameLayersBut(s: List, t: List, i: nat) {
    && Shaped(s) && Shaped(t) && t.count == s.count && t.current == s.current
    && forall k: nat :: k != i && k < s.count ==>
         s.Holds(s.Buffers(k)) && t.Holds(t.Buffers(k)) && t.LayerOf(t.Buffers(k)) == s.LayerOf(s.Buffers(k))
  }

  lemma OpenSlotMoves(s: List, orphan: Option<nat>, i: nat)
    requires Inv(s, orphan) && s.current == 0 && 1 <= i < s.count && s.clips != [] && s.textures != []
    requires InUse(s, i, Bound(s, orphan))
    ensures OpenSlot(s, i).Some?
    ensures var t := OpenSlot(s, i).value;
            && MovedOnly(s, t, i, Bound(s, orphan)) && t == s.(cmdMem := t.cmdMem, channels := t.channels)
            && (orphan.Some? ==> t.channels[orphan.value] == s.channels[orphan.value])
            && t.Holds(t.Buffers(i)) && t.LayerOf(t.Buffers(i))
               == Layer([FreshCmd(Last(s.clips), Last(s.textures))], [])
  {
    hide Moved, Gone, Store;
    assert s.Holds(s.Buffers(i));
    var slot, t, cmds := Emptied(s.channels[i]), OpenSlot(s, i).value, [FreshCmd(Last(s.clips), Last(s.textures))];
    ShrinkMoves(s.cmdMem, s.channels[i].cmds, 0);
    StoreMoves(s.cmdMem, slot.cmds, cmds, BLANK);
    MovesCompose(s.cmdMem, s.channels[i].cmds, s.cmdMem, slot.cmds, t.cmdMem, t.channels[i].cmds);
    ShrinkMoves(s.idxMem, s.channels[i].idxs, 0);
  }

  lemma {:induction false} OpenSlotsKeep(s: List, orphan: Option<nat>, i: nat)
    requires Inv(s, orphan) && s.current == 0 && 1 <= i <= s.count && s.clips != [] && s.textures != []
    requires s.count <= |s.channels|
    ensures OpenSlots(s, i, s.count).Some?
    ensures var t := OpenSlots(s, i, s.count).value;
            && Inv(t, orphan) && t == s.(cmdMem := t.cmdMem, channels := t.channels)
            && |t.channels| == |s.channels|
            && (forall k: nat :: k < i ==>
                  s.Holds(s.Buffers(k)) && t.Holds(t.Buffers(k)) && t.LayerOf(t.Buffers(k)) == s.LayerOf(s.Buffers(k)))
            && (forall k: nat :: i <= k < s.count ==>
                  t.Holds(t.Buffers(k)) && t.LayerOf(t.Buffers(k))
                    == Layer([FreshCmd(Last(s.clips), Last(s.textures))], []))
    decreases s.count - i
  {
    hide Inv, OpenSlot, List.Holds, List.LayerOf;
    if i < s.count {
      OpenSlotKeeps(s, orphan, i);
      OpenSlotsKeep(OpenSlot(s, i).value, orphan, i + 1);
    } else {
      InvHolds(s, orphan);
    }
  }

  lemma InvHolds(s: List, orphan: Option<nat>)
    requires Inv(s, orphan)
    ensures forall k: nat :: k < s.count ==> s.Holds(s.Buffers(k))
  {
    InvInUse(s, orphan);
  }

  /** The array of channels grows, slot 0 is wiped: the channels that are opened next own what they hold. */
  lemma WidenedKeeps(s: List, orphan: Option<nat>, n: nat)
    requires Inv(s, orphan) && s.current == 0 && s.count == 1 && n >= 1 && (orphan.Some? ==> n <= orphan.value)
    ensures var t := s.(channels := Widened(s.channels, n), count := n);
            Inv(t, orphan) && s.Holds(s.live) && n <= |t.channels|
  {
    hide Freed, Gone, Sound;
    InvInUse(s, orphan);
    assert s.Holds(s.Buffers(0));
    var t := s.(channels := Widened(s.channels, n), count := n);
    var bound, now := Bound(s, orphan), Bound(t, orphan);
    assert forall k: nat :: InUse(t, k, now) ==>
      if k == 0 || k < |s.channels| then InUse(s, k, bound) && t.Buffers(k) == s.Buffers(k)
      else t.Buffers(k) == NO_SLOT;
    if orphan.Some? {
      SameGone(s, t, s.channels[orphan.value], s.live);
    }
  }

  lemma SplitKeeps(s: List, st: State, orphan: Option<nat>, n: nat)
    requires Inv(s, orphan) && Refines(s, st) && Ready(st, Split(n)) && (orphan.Some? ==> n <= orphan.value)
    ensures ListStep(s, Split(n)).Some? && Inv(ListStep(s, Split(n)).value, orphan)
    ensures Refines(ListStep(s, Split(n)).value, Step(st, Split(n)))
  {
    hide Inv, List.Holds, List.LayerOf, Widened;
    LiveHolds(s, st);
    WidenedKeeps(s, orphan, n);
    var wide := s.(channels := Widened(s.channels, n), count := n);
    WidenedShape(s, n);
    OpenSlotsKeep(wide, orphan, 1);
    var t, u := OpenSlots(wide, 1, n).value, Step(st, Split(n));
    assert t.LayerOf(t.Buffers(0)) == wide.LayerOf(wide.Buffers(0));
    SameLayer(s, wide);
    forall k: nat | k < t.count
      ensures t.Holds(t.Buffers(k)) && t.LayerOf(t.Buffers(k)) == u.LayerAt(k)
    {}
  }

  lemma WidenedShape(s: List, n: nat)
    requires n >= 1
    ensures |Widened(s.channels, n)| == if |s.channels| < n then n else |s.channels|
  {}

  lemma SameLayer(s: List, t: List)
    requires t.cmdMem == s.cmdMem && t.idxMem == s.idxMem && t.live == s.live && s.Holds(s.live)
    ensures t.Holds(t.live) && t.LayerOf(t.live) == s.LayerOf(s.live)
  {}

  // ----- Merging

  lemma TrimmedHeaderIs(s: List, h: Header)
    requires Sound(s.cmdMem) && Usable(s.cmdMem, h)
    ensures TrimmedHeader(s, h).Some?
    ensures var g := TrimmedHeader(s, h).value;
            && g == h.(size := g.size) && Moved(s.cmdMem, h, s.cmdMem, g)
            && Contents(s.cmdMem, g) == Trimmed(Contents(s.cmdMem, h))
  {
    hide Moved;
    var g := TrimmedHeader(s, h).value;
    ShrinkMoves(s.cmdMem, h, g.size);
  }

  /** A channel after trimming. */
  ghost predicate IsTrimmed(s: List, t: List, i: nat) {
    && SameLayersBut(s, t, i) && i < s.count && s.Holds(s.Buffers(i)) && t.Holds(t.Buffers(i))
    && t.LayerOf(t.Buffers(i)) == Layer(Trimmed(s.LayerOf(s.Buffers(i)).cmds), s.LayerOf(s.Buffers(i)).idxs)
    && t.clips == s.clips && t.textures == s.textures && |t.channels| == |s.channels|
  }

  lemma TrimLiveKeeps(s: List, orphan: Option<nat>)
    requires Inv(s, orphan) && s.current == 0
    ensures TrimLive(s).Some? && Inv(TrimLive(s).value, orphan) && IsTrimmed(s, TrimLive(s).value, 0)
  {
    hide Moved, Gone, TrimmedHeader;
    LiveInUse(s, orphan);
    TrimmedHeaderIs(s, s.live.cmds);
    StayMoves(s.idxMem, s.live.idxs);
    MovedKeepsInv(s, TrimLive(s).value, 0, orphan);
  }

  lemma TrimSlotKeeps(s: List, orphan: Option<nat>, i: nat)
    requires Inv(s, orphan) && s.current == 0 && 1 <= i < s.count
    ensures i < |s.channels| && TrimSlot(s, i).Some? && Inv(TrimSlot(s, i).value, orphan)
    ensures IsTrimmed(s, TrimSlot(s, i).value, i)
  {
    hide Moved, Gone, TrimmedHeader;
    InvInUse(s, orphan);
    assert s.Holds(s.Buffers(i));
    TrimmedHeaderIs(s, s.channels[i].cmds);
    StayMoves(s.idxMem, s.channels[i].idxs);
    MovedKeepsInv(s, TrimSlot(s, i).value, i, orphan);
  }

  /** What the channels hold while a merge goes on: those before i are trimmed, the others are as they were. */
  ghost predicate TrimmedUpTo(s: List, layers: seq<Layer>, i: nat) {
    && Shaped(s) && |layers| == s.count
    && forall k: nat :: k < s.count ==>
         && s.Holds(s.Buffers(k))
         && s.LayerOf(s.Buffers(k)) == if k < i then Layer(Trimmed(layers[k].cmds), layers[k].idxs) else layers[k]
  }

  lemma {:induction false} TrimChannelsKeep(s: List, orphan: Option<nat>, layers: seq<Layer>, i: nat)
    requires Inv(s, orphan) && s.current == 0 && 1 <= i <= s.count <= |s.channels| && TrimmedUpTo(s, layers, i)
    ensures TrimChannels(s, i).Some?
    ensures var t := TrimChannels(s, i).value;
            && Inv(t, orphan) && TrimmedUpTo(t, layers, s.count)
            && t.current == 0 && t.clips == s.clips && t.textures == s.textures
            && |t.channels| == |s.channels| && t.count == s.count
    decreases s.count - i
  {
    hide Inv, TrimSlot, List.Holds, List.LayerOf, Trimmed;
    if i < s.count {
      TrimSlotKeeps(s, orphan, i);
      TrimChannelsKeep(TrimSlot(s, i).value, orphan, layers, i + 1);
    }
  }

  lemma ReserveKeeps(s: List, orphan: Option<nat>, cmds: nat, idxs: nat)
    requires Inv(s, orphan) && s.current == 0
    ensures ReserveLive(s, cmds, idxs).Some?
    ensures var t := ReserveLive(s, cmds, idxs).value;
            && Inv(t, orphan) && t == s.(cmdMem := t.cmdMem, idxMem := t.idxMem, live := t.live)
            && s.Holds(s.live) && t.Holds(t.live) && t.LayerOf(t.live) == s.LayerOf(s.live) && SameLayersBut(s, t, 0)
  {
    hide Moved, Gone, Reserve;
    LiveInUse(s, orphan);
    ReserveMoves(s.cmdMem, s.live.cmds, s.live.cmds.size + cmds, BLANK);
    ReserveMoves(s.idxMem, s.live.idxs, s.live.idxs.size + idxs, 0);
    MovedKeepsInv(s, ReserveLive(s, cmds, idxs).value, 0, orphan);
  }

  lemma AppendSlotKeeps(s: List, orphan: Option<nat>, i: nat)
    requires Inv(s, orphan) && s.current == 0 && 1 <= i < s.count
    ensures i < |s.channels| && AppendSlot(s, i).Some?
    ensures var t := AppendSlot(s, i).value;
            && Inv(t, orphan) && t == s.(cmdMem := t.cmdMem, idxMem := t.idxMem, live := t.live)
            && SameLayersBut(s, t, 0) && s.Holds(s.live) && t.Holds(t.live) && s.Holds(s.channels[i])
            && t.LayerOf(t.live) == Layer(s.LayerOf(s.live).cmds + s.LayerOf(s.channels[i]).cmds,
                                          s.LayerOf(s.live).idxs + s.LayerOf(s.channels[i]).idxs)
  {
    hide Inv, SetLiveCmds, AppendLiveIdxs, Contents;
    InvHolds(s, orphan);
    InvShaped(s, orphan);
    assert s.Holds(s.Buffers(i)) && s.Holds(s.Buffers(0));
    var more, live := s.LayerOf(s.channels[i]), s.LayerOf(s.live);
    LiveSet(s, orphan, live.cmds + more.cmds);
    var t := AppendCmds(s, s.channels[i].cmds).value;
    assert more.cmds == [] ==> live.cmds + more.cmds == live.cmds;
    assert more.idxs == [] ==> live.idxs + more.idxs == live.idxs;
    LiveAppend(t, orphan, more.idxs);
  }

  lemma InvShaped(s: List, orphan: Option<nat>)
    requires Inv(s, orphan)
    ensures Shaped(s)
  {}

  /** The live buffers hold the first i channels, one after the other. */
  ghost predicate MergedUpTo(s: List, layers: seq<Layer>, i: nat) {
    && Shaped(s) && s.current == 0 && i <= |layers| == s.count && s.Holds(s.live)
    && s.LayerOf(s.live) == Layer(MergedCmds(layers[..i]), MergedIdxs(layers[..i]))
    && forall k: nat :: 1 <= k < s.count ==>
         s.Holds(s.Buffers(k)) && s.LayerOf(s.Buffers(k)) == Layer(Trimmed(layers[k].cmds), layers[k].idxs)
  }

  lemma {:induction false} AppendSlotsKeep(s: List, orphan: Option<nat>, layers: seq<Layer>, i: nat)
    requires Inv(s, orphan) && 1 <= i <= s.count <= |s.channels| && MergedUpTo(s, layers, i)
    ensures AppendSlots(s, i).Some?
    ensures Inv(AppendSlots(s, i).value, orphan) && MergedUpTo(AppendSlots(s, i).value, layers, s.count)
    decreases s.count - i
  {
    hide Inv, AppendSlot, List.Holds, List.LayerOf, Trimmed, MergedCmds, MergedIdxs;
    if i < s.count {
      AppendSlotKeeps(s, orphan, i);
      MergedNext(layers, i);
      AppendSlotsKeep(AppendSlot(s, i).value, orphan, layers, i + 1);
    }
  }

  /** The list that the merge has reached before its last command. */
  ghost function MergedState(st: State, layers: seq<Layer>): State
    requires 1 < st.count <= |st.channels|
  {
    State(Layer(MergedCmds(layers), MergedIdxs(layers)), st.clips, st.textures, 0, st.count,
      TrimSlots(st.channels, st.count))
  }

  lemma MergeParkedKeeps(s: List, st: State, orphan: Option<nat>)
    requires Inv(s, orphan) && Refines(s, st) && s.current == 0 && s.count > 1
    ensures MergeParked(s).Some? && Inv(MergeParked(s).value, orphan) && Refines(MergeParked(s).value, Merge(st))
  {
    hide Inv, TrimLive, TrimChannels, ReserveLive, AppendSlots, Trimmed, MergedCmds, MergedIdxs, List.Holds,
         List.LayerOf,
      Batching.Live, LiveStep, Step, Ready, TrimSlots;
    var layers := [st.live] + st.channels[1..st.count];
    TrimLiveKeeps(s, orphan);
    var a := TrimLive(s).value;
    assert TrimmedUpTo(a, layers, 1);
    TrimChannelsKeep(a, orphan, layers, 1);
    var b := TrimChannels(a, 1).value;
    var cmdCount, idxCount := CmdCount(b.channels, s.count), IdxCount(b.channels, s.count);
    ReserveKeeps(b, orphan, cmdCount, idxCount);
    var c := ReserveLive(b, cmdCount, idxCount).value;
    MergedFirst(layers);
    assert MergedUpTo(c, layers, 1);
    AppendSlotsKeep(c, orphan, layers, 1);
    var d, u := AppendSlots(c, 1).value, MergedState(st, layers);
    assert layers[..st.count] == layers;
    AppendedRefines(d, st, layers);
    NewCmdReady(u);
    LiveKeeps(d, u, orphan, NewCmd);
    OneChannel(LiveStep(d, NewCmd).value, orphan, Step(u, NewCmd));
    MergeIs(st, layers);
  }

  lemma AppendedRefines(d: List, st: State, layers: seq<Layer>)
    requires 1 < st.count <= |st.channels| && layers == [st.live] + st.channels[1..st.count]
    requires MergedUpTo(d, layers, d.count) && d.count == st.count && |d.channels| == |st.channels|
    requires d.clips == st.clips && d.textures == st.textures
    ensures Refines(d, MergedState(st, layers))
  {
    hide List.Holds, List.LayerOf, Trimmed, MergedCmds, MergedIdxs;
    assert layers[..st.count] == layers;
  }

  lemma NewCmdReady(st: State)
    ensures Ready(st, NewCmd) && Batching.Live(NewCmd) && Step(st, NewCmd).current == st.current
  {}

  lemma OneChannel(s: List, orphan: Option<nat>, u: State)
    requires Inv(s, orphan) && Refines(s, u) && s.current == 0
    ensures Inv(s.(count := 1), orphan) && Refines(s.(count := 1), u.(count := 1))
  {
    hide Owns, Gone;
    LiveHolds(s, u);
    var t := s.(count := 1);
    SameLayer(s, t);
    SameOwners(s, Bound(s, orphan), t, Bound(t, orphan));
    if orphan.Some? {
      SameGone(s, t, s.channels[orphan.value], s.live);
    }
  }

  lemma MergeIs(st: State, layers: seq<Layer>)
    requires st.current == 0 && 1 < st.count <= |st.channels| && layers == [st.live] + st.channels[1..st.count]
    ensures Merge(st) == Step(MergedState(st, layers), NewCmd).(count := 1)
  {}

  lemma MergeKeeps(s: List, st: State, orphan: Option<nat>)
    requires Inv(s, orphan) && Refines(s, st)
    ensures Ready(st, MergeAll) && ListStep(s, MergeAll).Some?
    ensures Inv(ListStep(s, MergeAll).value, orphan) && Refines(ListStep(s, MergeAll).value, Step(st, MergeAll))
  {
    hide Inv, MergeParked, List.Holds, List.LayerOf, Merge, SwitchStep, SetCurrent;
    RefinesShape(s, st);
    MergeUnfolds(s, st);
    if s.count > 1 {
      SwitchKeeps(s, st, orphan, 0);
      var s0, st0 := SwitchStep(s, 0).value, SetCurrent(st, 0);
      MergeParkedKeeps(s0, st0, orphan);
    }
  }

  lemma MergeUnfolds(s: List, st: State)
    requires Refines(s, st)
    ensures Ready(st, MergeAll)
    ensures s.count <= 1 ==> Step(st, MergeAll) == st && ListStep(s, MergeAll) == Some(s)
    ensures s.count > 1 ==>
              && SwitchStep(s, 0).Some? && SwitchStep(s, 0).value.count <= |SwitchStep(s, 0).value.channels|
              && SwitchStep(s, 0).value.current == 0 && SwitchStep(s, 0).value.count == s.count
              && ListStep(s, MergeAll) == MergeParked(SwitchStep(s, 0).value)
              && Ready(SetCurrent(st, 0), MergeAll) && Step(st, MergeAll) == Merge(SetCurrent(st, 0))
  {
    hide MergeParked, List.Holds, List.LayerOf, MergedCmds, MergedIdxs;
  }
}
