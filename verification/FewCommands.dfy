/** What batching is for: few commands.  A command that draws nothing is never left behind another one's back. */
module FewCommands {
  import opened DrawState
  import opened CommandBuffer
  import opened Batching

  /** The command has something to draw, or a callback. */
  predicate Full(cmd: DrawCmd) {
    cmd.elemCount > 0 || cmd.callback != NULL
  }

  /** Only the last command may be waiting for its first index. */
  ghost predicate Compact(cmds: seq<DrawCmd>) {
    forall k :: 0 <= k < |cmds| - 1 ==> Full(cmds[k])
  }

  ghost predicate CompactAnywhere(st: State)
    requires st.current < st.count && (st.count > 1 ==> st.count <= |st.channels|)
  {
    forall k | 0 <= k < st.count :: Compact(st.LayerAt(k).cmds)
  }

  /** A compact buffer has at most one command more than the items it draws. */
  lemma {:induction false} CompactIsShort(cmds: seq<DrawCmd>)
    requires Compact(cmds)
    ensures |cmds| <= Weight(cmds) + 1
  {
    if |cmds| > 1 {
      FullWeigh(Front(cmds));
    }
  }

  lemma {:induction false} FullWeigh(cmds: seq<DrawCmd>)
    requires forall k :: 0 <= k < |cmds| ==> Full(cmds[k])
    ensures |cmds| <= Weight(cmds)
  {
    if cmds != [] {
      FullWeigh(Front(cmds));
    }
  }

  /** Since the last Clear no command was asked for, and no NULL callback set. */
  predicate NoneAskedSince(ops: seq<Op>) {
    ops == [] || Last(ops).Clear? || (NoneAskedSince(Front(ops)) && NoneAsked(Last(ops)))
  }

  predicate NoneAsked(op: Op) {
    !op.NewCmd? && (op.Callback? ==> op.callback != NULL)
  }

  // ----- One step

  lemma UpdatesKeepCompact(cmds: seq<DrawCmd>, clip: Rect, texture: Pointer)
    requires Compact(cmds)
    ensures Compact(UpdateClipRect(cmds, clip, texture)) && Compact(UpdateTextureID(cmds, clip, texture))
  {}

  lemma CallbackKeepsCompact(cmds: seq<DrawCmd>, clip: Rect, texture: Pointer, callback: Pointer, data: Pointer)
    requires Compact(cmds) && callback != NULL
    ensures Compact(AddCallback(cmds, clip, texture, callback, data))
  {}

  lemma SubmitKeepsCompact(layer: Layer, idxs: seq<Index>)
    requires layer.cmds != [] && Compact(layer.cmds)
    ensures Compact(Submit(layer, idxs).cmds)
  {}

  lemma LiveKeepsCompact(st: State, op: Op)
    requires Ready(st, op) && Live(op) && NoneAsked(op) && Compact(st.live.cmds)
    ensures Compact(Step(st, op).live.cmds)
  {
    hide Compact, UpdateClipRect, UpdateTextureID, AddCallback, Submit, PushedRect;
    var (s, clip, texture) := (Step(st, op), Step(st, op).TopClip(), Step(st, op).TopTexture());
    match op
    case Callback(callback, data) => CallbackKeepsCompact(st.live.cmds, st.TopClip(), st.TopTexture(), callback, data);
    case Draw(idxs) => SubmitKeepsCompact(st.live, idxs);
    case _ => UpdatesKeepCompact(st.live.cmds, clip, texture);
  }

  lemma TrimmedIsFull(cmds: seq<DrawCmd>)
    requires Compact(cmds)
    ensures forall k :: 0 <= k < |Trimmed(cmds)| ==> Full(Trimmed(cmds)[k])
  {}

  lemma {:induction false} MergedAreFull(layers: seq<Layer>)
    requires forall l <- layers :: Compact(l.cmds)
    ensures forall k :: 0 <= k < |MergedCmds(layers)| ==> Full(MergedCmds(layers)[k])
    decreases |layers|
  {
    hide Compact, Trimmed, Full;
    if layers != [] {
      MergedAreFull(Front(layers));
      TrimmedIsFull(Last(layers).cmds);
    }
  }

  lemma MergeKeepsCompact(st: State)
    requires st.current < st.count && 1 < st.count <= |st.channels| && CompactAnywhere(st)
    ensures Merge(st).current < Merge(st).count == 1 && CompactAnywhere(Merge(st))
  {
    hide Compact, MergedCmds, MergedIdxs, TrimSlots;
    var s0 := SetCurrent(st, 0);
    var layers := [s0.live] + s0.channels[1..st.count];
    SwitchKeepsLayers(st, 0);
    forall l | l in layers
      ensures Compact(l.cmds)
    {
      var k :| 0 <= k < |layers| && layers[k] == l;
      assert l == s0.LayerAt(k) == st.LayerAt(k);
    }
    MergedAreFull(layers);
    FullIsCompact(MergedCmds(layers), FreshCmd(st.TopClip(), st.TopTexture()));
  }

  lemma FullIsCompact(cmds: seq<DrawCmd>, cmd: DrawCmd)
    requires forall k :: 0 <= k < |cmds| ==> Full(cmds[k])
    ensures Compact(cmds + [cmd])
  {}

  lemma StepKeepsCompact(st: State, ref: Ref, op: Op)
    requires Sim(st, ref) && Enabled(ref, op) && NoneAsked(op) && CompactAnywhere(st)
    ensures Ready(st, op) && Sim(Step(st, op), RefStep(ref, op)) && CompactAnywhere(Step(st, op))
  {
    hide Compact, MergedCmds, MergedIdxs, TrimSlots, UpdateClipRect, UpdateTextureID, AddCallback, Submit, PushedRect;
    StepSim(st, ref, op);
    assert Compact(st.LayerAt(st.current).cmds);
    if Live(op) {
      LiveKeepsCompact(st, op);
      LiveElsewhere(st, op);
      OthersCompact(st, Step(st, op));
    } else if op.Switch? {
      SwitchKeepsLayers(st, op.k);
      forall k | 0 <= k < st.count
        ensures Compact(SetCurrent(st, op.k).LayerAt(k).cmds)
      {
        assert Compact(st.LayerAt(k).cmds);
      }
    } else if op.MergeAll? {
      if st.count > 1 {
        MergeKeepsCompact(st);
      }
    } else if op.Clear? {
      ClearIsCompact(st);
    } else {
      SplitIsCompact(st, op.n);
    }
  }

  lemma OthersCompact(st: State, s: State)
    requires st.current < st.count && (st.count > 1 ==> st.count <= |st.channels|) && CompactAnywhere(st)
    requires s.channels == st.channels && s.count == st.count && s.current == st.current && Compact(s.live.cmds)
    ensures CompactAnywhere(s)
  {
    hide Compact;
    forall k | 0 <= k < s.count
      ensures Compact(s.LayerAt(k).cmds)
    {
      assert Compact(st.LayerAt(k).cmds);
    }
  }

  lemma ClearIsCompact(st: State)
    ensures Step(st, Clear).current < Step(st, Clear).count == 1 && CompactAnywhere(Step(st, Clear))
  {}

  lemma SplitIsCompact(st: State, n: nat)
    requires Ready(st, Split(n)) && CompactAnywhere(st)
    ensures var s := Step(st, Split(n));
            s.current < s.count && (s.count > 1 ==> s.count <= |s.channels|) && CompactAnywhere(s)
  {
    var s := Step(st, Split(n));
    assert Compact(st.LayerAt(0).cmds);
    forall k | 0 <= k < n
      ensures Compact(s.LayerAt(k).cmds)
    {}
  }

  // ----- Runs

  /** In every legal run that since the last Clear has asked for no command of its own, merges included, each channel
      has at most one command more than the items it draws: no command but its last is empty. */
  lemma {:induction false} FewCommandsRun(ops: seq<Op>)
    requires Legal(ops) && NoneAskedSince(ops)
    ensures CompactAnywhere(Run(ops))
    ensures ShortAnywhere(Run(ops))
    decreases |ops|
  {
    hide Step, RefStep, Sim, Enabled, NoneAsked, Compact;
    if ops == [] {
      NothingIsCompact();
    } else {
      var front, op := Front(ops), Last(ops);
      if op.Clear? {
        ClearIsCompact(Run(front));
      } else {
        FewCommandsRun(front);
        StepKeepsCompact(Run(front), RefRun(front), op);
      }
    }
    ChannelsThere(Run(ops), RefRun(ops));
    CompactIsShortAnywhere(Run(ops));
  }

  lemma ChannelsThere(st: State, ref: Ref)
    requires Sim(st, ref)
    ensures st.current < st.count && (st.count > 1 ==> st.count <= |st.channels|)
  {}

  /** The commands of each channel, and the items they draw. */
  ghost predicate ShortAnywhere(st: State)
    requires st.current < st.count && (st.count > 1 ==> st.count <= |st.channels|)
  {
    forall k | 0 <= k < st.count :: |st.LayerAt(k).cmds| <= Weight(st.LayerAt(k).cmds) + 1
  }

  lemma CompactIsShortAnywhere(st: State)
    requires st.current < st.count && (st.count > 1 ==> st.count <= |st.channels|) && CompactAnywhere(st)
    ensures ShortAnywhere(st)
  {
    forall k | 0 <= k < st.count
      ensures |st.LayerAt(k).cmds| <= Weight(st.LayerAt(k).cmds) + 1
    {
      CompactIsShort(st.LayerAt(k).cmds);
    }
  }

  lemma NothingIsCompact()
    ensures CompactAnywhere(EMPTY_LIST)
  {}
}
