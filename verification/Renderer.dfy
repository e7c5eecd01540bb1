/** The OpenGL back end's loop over one command list. */
module Renderer {
  import opened DrawState
  import opened CommandBuffer

  /** From item `at` on a command has been issued: its own callback once, or its indices from `first` on, one by one
      and whole, each under its own clip rectangle and texture. */
  ghost predicate Issued(items: seq<Item>, at: nat, cmd: DrawCmd, idxs: seq<Index>, first: nat) {
    if cmd.callback != NULL then
      at < |items| && items[at] == Call(cmd.callback, cmd.callbackData, cmd.clip, cmd.texture)
    else
      && at + cmd.elemCount <= |items| && first + cmd.elemCount <= |idxs|
      && forall i :: at <= i < at + cmd.elemCount ==> items[i] == Elem(idxs[first + (i - at)], cmd.clip, cmd.texture)
  }

  /** Every command is issued, in order and behind all items of the commands before it; nothing else is. */
  ghost predicate AllIssued(items: seq<Item>, cmds: seq<DrawCmd>, idxs: seq<Index>) {
    && |items| == Weight(cmds)
    && forall k :: 0 <= k < |cmds| ==> Issued(items, Weight(cmds[..k]), cmds[k], idxs, Total(cmds[..k]))
  }

  /** Walks the commands with a running index offset, as ImGui_ImplGlfwGL3_RenderDrawLists does. */
  method RenderDrawList(cmdBuffer: seq<DrawCmd>, idxBuffer: seq<Index>) returns (items: seq<Item>)
    requires Total(cmdBuffer) <= |idxBuffer|
    ensures items == Render(cmdBuffer, idxBuffer)
    ensures AllIssued(items, cmdBuffer, idxBuffer)
  {
    hide AllIssued;
    items := [];
    var offset := 0;
    assert cmdBuffer[..|cmdBuffer|] == cmdBuffer;
    for i := 0 to |cmdBuffer|
      invariant offset == Total(cmdBuffer[..i]) <= |idxBuffer|
      invariant items == Render(cmdBuffer[..i], idxBuffer)
    {
      var cmd := cmdBuffer[i];
      PrefixTotal(cmdBuffer, i + 1);
      assert cmdBuffer[..i + 1] == cmdBuffer[..i] + [cmd];
      RenderSnoc(cmdBuffer[..i], cmd, idxBuffer);
      if cmd.callback != NULL {
        items := items + [Call(cmd.callback, cmd.callbackData, cmd.clip, cmd.texture)];
      } else {
        items := items + Elems(idxBuffer[offset..offset + cmd.elemCount], cmd.clip, cmd.texture);
      }
      offset := offset + cmd.elemCount;
    }
    RenderIssues(cmdBuffer, idxBuffer);
  }

  /** What a command buffer stands for, item by item. */
  lemma {:induction false} RenderIssues(cmds: seq<DrawCmd>, idxs: seq<Index>)
    requires Total(cmds) <= |idxs|
    ensures AllIssued(Render(cmds, idxs), cmds, idxs)
    decreases |cmds|
  {
    hide Issued, CmdItems;
    if cmds != [] {
      var front, last, items := Front(cmds), Last(cmds), Render(cmds, idxs);
      RenderIssues(front, idxs);
      LastIssued(Render(front, idxs), last, idxs, Total(front));
      forall k | 0 <= k < |cmds|
        ensures Issued(items, Weight(cmds[..k]), cmds[k], idxs, Total(cmds[..k]))
      {
        if k < |front| {
          assert cmds[..k] == front[..k];
          StaysIssued(Render(front, idxs), items, Weight(front[..k]), cmds[k], idxs, Total(front[..k]));
        } else {
          assert cmds[..k] == front;
        }
      }
    }
  }

  lemma LastIssued(items: seq<Item>, cmd: DrawCmd, idxs: seq<Index>, first: nat)
    requires first + cmd.elemCount <= |idxs|
    ensures var more := CmdItems(cmd, idxs[first..first + cmd.elemCount]);
            && Issued(items + more, |items|, cmd, idxs, first)
            && |more| == if cmd.callback != NULL then 1 else cmd.elemCount
  {}

  lemma StaysIssued(before: seq<Item>, items: seq<Item>, at: nat, cmd: DrawCmd, idxs: seq<Index>, first: nat)
    requires Issued(before, at, cmd, idxs, first) && before <= items
    ensures Issued(items, at, cmd, idxs, first)
  {}

  lemma PrefixTotal(cmds: seq<DrawCmd>, i: nat)
    requires i <= |cmds|
    ensures Total(cmds[..i]) <= Total(cmds)
    ensures i > 0 ==> Total(cmds[..i]) == Total(cmds[..i - 1]) + cmds[i - 1].elemCount
  {
    hide Total;
    assert cmds == cmds[..i] + cmds[i..];
    TotalConcat(cmds[..i], cmds[i..]);
    if i > 0 {
      assert cmds[..i] == cmds[..i - 1] + [cmds[i - 1]];
      TotalConcat(cmds[..i - 1], [cmds[i - 1]]);
      TotalOne(cmds[i - 1]);
    }
  }

  lemma TotalOne(cmd: DrawCmd)
    ensures Total([cmd]) == cmd.elemCount
  {
    assert Front([cmd]) == [];
  }
}
