/** A file that changes on the server: what a client holds after receiving parts of two versions of it. */
module ChangedFiles {
  import opened Basics
  import opened Transfer

  function Announcement(nameHash: Word): Packet {
    PacketAt(nameHash, [], 0).packet
  }

  /** A packet of either version, or the announcement of the change. */
  ghost predicate IsPacket(p: Packet, nameHash: Word, before: seq<Byte>, after: seq<Byte>) {
    IsPart(p, nameHash, before) || IsPart(p, nameHash, after) || p == Announcement(nameHash)
  }

  ghost predicate AreFiles(before: seq<Byte>, after: seq<Byte>) {
    0 < |before| < 0x1_0000_0000 && 0 < |after| < 0x1_0000_0000
  }

  predicate Sane(c: Client) {
    c.data == [] || |c.data| == c.totalSize
  }

  predicate WellFormed(p: Packet) {
    p.payloadSize <= |p.data| && p.offset + p.payloadSize < 0x1_0000_0000
  }

  function Received(c: Client, ps: seq<Packet>): (r: Client)
    requires Sane(c) && forall p <- ps :: WellFormed(p)
    ensures Sane(r) && r.nameHash == c.nameHash
    decreases |ps|
  {
    if ps == [] then c
    else
      assert WellFormed(ps[0]) by { assert ps[0] in ps; }
      Received(Receive(c, ps[0]), ps[1..])
  }

  // ----- Which packets are taken

  /** The client copies the packet's bytes: it is downloading, and they fit its buffer. */
  predicate Takes(c: Client, p: Packet) {
    && c.stage.Downloading? && c.nameHash == p.nameHash && p.totalSize != 0
    && p.offset + p.payloadSize <= if c.data == [] then p.totalSize else |c.data|
  }

  function Taken(c: Client, ps: seq<Packet>): (taken: seq<Packet>)
    requires Sane(c) && forall p <- ps :: WellFormed(p)
    ensures forall p <- taken :: p in ps
    decreases |ps|
  {
    if ps == [] then []
    else
      assert WellFormed(ps[0]) by { assert ps[0] in ps; }
      (if Takes(c, ps[0]) then [ps[0]] else []) + Taken(Receive(c, ps[0]), ps[1..])
  }

  predicate Covers(p: Packet, i: nat) {
    p.offset <= i < p.offset + p.payloadSize
  }

  /** The last of the packets that covers position i. */
  function LastCovering(ps: seq<Packet>, i: nat): (p: Option<Packet>)
    ensures p.Some? ==> p.value in ps && Covers(p.value, i)
    ensures p.None? ==> forall q <- ps :: !Covers(q, i)
  {
    var n := |ps|;
    if n == 0 then None else if Covers(ps[n - 1], i) then Some(ps[n - 1]) else LastCovering(ps[..n - 1], i)
  }

  /** What the client held at position i before; a new buffer is blank. */
  function StartByte(c: Client, i: nat): Byte {
    if i < |c.data| then c.data[i] else 0
  }

  function ByteOf(c: Client, taken: seq<Packet>, i: nat): Byte
    requires forall p <- taken :: WellFormed(p)
  {
    var last := LastCovering(taken, i);
    if last.None? then StartByte(c, i)
    else
      assert WellFormed(last.value) by { assert last.value in taken; }
      last.value.data[i - last.value.offset]
  }

  /** The size of the client's buffer: it is allocated by the first packet taken. */
  function BufferSize(c: Client, taken: seq<Packet>): nat {
    if c.data != [] then |c.data| else if taken == [] then 0 else taken[0].totalSize
  }

  lemma {:induction false} LastCoveringCons(p: Packet, ps: seq<Packet>, i: nat)
    ensures LastCovering([p] + ps, i)
            == if LastCovering(ps, i).Some? then LastCovering(ps, i) else if Covers(p, i) then Some(p) else None
    decreases |ps|
  {
    var n := |ps|;
    if n == 0 {
      assert [p] + ps == [p] && [p][..0] == [];
      assert LastCovering([p][..0], i) == None;
    } else {
      assert ([p] + ps)[..n] == [p] + ps[..n - 1];
      LastCoveringCons(p, ps[..n - 1], i);
    }
  }

  /** One packet: which bytes change. */
  lemma ReceivedByte(c: Client, p: Packet, i: nat)
    requires Sane(c) && WellFormed(p)
    ensures var r := Receive(c, p);
            && StartByte(r, i) == (if Takes(c, p) && Covers(p, i) then p.data[i - p.offset] else StartByte(c, i))
            && (c.data != [] ==> |r.data| == |c.data|)
            && (c.data == [] && Takes(c, p) ==> |r.data| == p.totalSize)
  {}

  lemma PacketsWellFormed(nameHash: Word, before: seq<Byte>, after: seq<Byte>, p: Packet)
    requires AreFiles(before, after) && IsPacket(p, nameHash, before, after)
    ensures WellFormed(p) && p.nameHash == nameHash
    ensures p.totalSize != 0 ==> p.offset + p.payloadSize <= p.totalSize
  {}

  function TakenOne(c: Client, p: Packet): seq<Packet> {
    if Takes(c, p) then [p] else []
  }

  lemma Unfolds(c: Client, ps: seq<Packet>)
    requires Sane(c) && ps != [] && forall p <- ps :: WellFormed(p)
    ensures ps[0] in ps && WellFormed(ps[0]) && Sane(Receive(c, ps[0]))
    ensures Received(c, ps) == Received(Receive(c, ps[0]), ps[1..])
    ensures Taken(c, ps) == TakenOne(c, ps[0]) + Taken(Receive(c, ps[0]), ps[1..])
  {
    assert ps[0] in ps;
  }

  lemma ByteStep(c: Client, p: Packet, rest: seq<Packet>, i: nat)
    requires Sane(c) && WellFormed(p) && (forall q <- rest :: WellFormed(q))
             && forall q <- TakenOne(c, p) + rest :: WellFormed(q)
    ensures ByteOf(c, TakenOne(c, p) + rest, i) == ByteOf(Receive(c, p), rest, i)
  {
    hide Receive, Takes, StartByte, LastCovering;
    ReceivedByte(c, p, i);
    LastCoveringCons(p, rest, i);
    assert [] + rest == rest;
  }

  lemma SizeStep(c: Client, p: Packet, rest: seq<Packet>)
    requires Sane(c) && WellFormed(p) && (p.totalSize != 0 ==> p.offset + p.payloadSize <= p.totalSize)
    ensures BufferSize(c, TakenOne(c, p) + rest) == BufferSize(Receive(c, p), rest)
  {
    hide Receive, Takes;
    ReceivedByte(c, p, 0);
    NotTakenKeepsBuffer(c, p);
    TakenHasSize(c, p);
    assert [] + rest == rest;
  }

  lemma TakenHasSize(c: Client, p: Packet)
    ensures Takes(c, p) ==> p.totalSize > 0
  {}

  /** The client's buffer holds, position by position, the byte of the last packet taken that covers it. */
  lemma {:induction false} HoldsLastBytes(c: Client, ps: seq<Packet>, before: seq<Byte>, after: seq<Byte>)
    requires AreFiles(before, after) && Sane(c)
    requires forall p <- ps :: WellFormed(p) && IsPacket(p, c.nameHash, before, after)
    ensures var (r, taken) := (Received(c, ps), Taken(c, ps));
            && |r.data| == BufferSize(c, taken)
            && forall i: nat :: StartByte(r, i) == ByteOf(c, taken, i)
    decreases |ps|
  {
    hide Receive, Received, Taken, TakenOne, ByteOf, BufferSize, StartByte, IsPacket;
    if ps == [] {
      NothingReceived(c);
    } else {
      Unfolds(c, ps);
      var p, next := ps[0], Receive(c, ps[0]);
      PacketsWellFormed(c.nameHash, before, after, p);
      HoldsLastBytes(next, ps[1..], before, after);
      var rest := Taken(next, ps[1..]);
      SizeStep(c, p, rest);
      forall i: nat
        ensures StartByte(Received(c, ps), i) == ByteOf(c, Taken(c, ps), i)
      {
        ByteStep(c, p, rest, i);
      }
    }
  }

  lemma NothingReceived(c: Client)
    requires Sane(c)
    ensures Received(c, []) == c && Taken(c, []) == [] && |c.data| == BufferSize(c, [])
    ensures forall i: nat :: StartByte(c, i) == ByteOf(c, [], i)
  {}

  lemma NotTakenKeepsBuffer(c: Client, p: Packet)
    requires Sane(c) && WellFormed(p) && (p.totalSize != 0 ==> p.offset + p.payloadSize <= p.totalSize)
    ensures !Takes(c, p) ==> Receive(c, p).data == c.data
  {}

  // ----- Which version a finished download is

  /** The byte that the client ends up with at position i is the new version's: because the last packet taken
      there is of the new version, or because what it carries, or what was there before, is the same. */
  ghost predicate NewAt(c: Client, taken: seq<Packet>, before: seq<Byte>, after: seq<Byte>, i: nat)
    requires i < |after|
  {
    var last := LastCovering(taken, i);
    if last.None? then StartByte(c, i) == after[i]
    else IsPart(last.value, c.nameHash, after) || (i < |before| && before[i] == after[i])
  }

  lemma PartByte(p: Packet, nameHash: Word, file: seq<Byte>, i: nat)
    requires IsPart(p, nameHash, file) && Covers(p, i)
    ensures p.data[i - p.offset] == file[i]
  {
    assert p.Payload()[i - p.offset] == file[p.offset..p.offset + p.payloadSize][i - p.offset];
  }

  lemma NewAtIff(c: Client, taken: seq<Packet>, before: seq<Byte>, after: seq<Byte>, i: nat)
    requires AreFiles(before, after) && i < |after|
    requires forall p <- taken :: WellFormed(p) && IsPacket(p, c.nameHash, before, after)
    ensures ByteOf(c, taken, i) == after[i] <==> NewAt(c, taken, before, after, i)
  {
    var last := LastCovering(taken, i);
    if last.Some? {
      var p := last.value;
      if IsPart(p, c.nameHash, after) {
        PartByte(p, c.nameHash, after, i);
      } else {
        PartByte(p, c.nameHash, before, i);
      }
    }
  }

  /** Whatever packets of the two versions arrive, in whatever order, at whatever stage, the client's buffer (that
      of a finished download, for one) is the new version if and only if it has its length and at each
      position the last packet taken brought the new version's byte. */
  lemma BufferIsNewIff(c: Client, ps: seq<Packet>, before: seq<Byte>, after: seq<Byte>)
    requires AreFiles(before, after) && Sane(c)
    requires forall p <- ps :: WellFormed(p) && IsPacket(p, c.nameHash, before, after)
    ensures var taken := Taken(c, ps);
            Received(c, ps).data == after
            <==> BufferSize(c, taken) == |after| && forall i: nat :: i < |after| ==> NewAt(c, taken, before, after, i)
  {
    hide NewAt, ByteOf, IsPacket, Received, Taken;
    HoldsLastBytes(c, ps, before, after);
    var r, taken := Received(c, ps), Taken(c, ps);
    forall i: nat | i < |after|
      ensures StartByte(r, i) == after[i] <==> NewAt(c, taken, before, after, i)
    {
      NewAtIff(c, taken, before, after, i);
    }
    if |r.data| == |after| && forall i: nat :: i < |after| ==> NewAt(c, taken, before, after, i) {
      assert forall i: nat :: i < |after| ==> r.data[i] == StartByte(r, i);
    }
    if r.data == after {
      assert forall i: nat :: i < |after| ==> StartByte(r, i) == after[i];
    }
  }

  // ----- Announcements

  /** The announcement of a changed file restarts a download exactly where the file was already in use. */
  lemma AnnouncementRestartsIff(c: Client)
    requires Sane(c)
    ensures var r := Receive(c, Announcement(c.nameHash));
            if c.stage.GpuLoaded? then r == c.(stage := Downloading, dataSize := 0) else r == c
  {}

  /** A client that holds nothing of the file yet, or only what it has built from this version. */
  ghost predicate StartsAnew(c: Client, after: seq<Byte>) {
    if c.data == [] then c.dataSize == 0 || c.stage.GpuLoaded? else HoldsPrefix(c, after)
  }

  /** If the client holds no data when the change is announced, because the file is in use already or its download
      has not begun, then whatever parts of the new version follow, a finished download is the new version. */
  lemma {:induction false} RestartedDownloadIsNew(c: Client, ps: seq<Packet>, after: seq<Byte>)
    requires AreFiles(after, after) && Sane(c) && StartsAnew(c, after)
    requires c.data == [] ==> !c.stage.Downloaded?
    requires forall p <- ps :: WellFormed(p) && (IsPart(p, c.nameHash, after) || p == Announcement(c.nameHash))
    ensures var r := Received(c, ps);
            r.stage.Downloaded? ==> r.data == after
    decreases |ps|
  {
    if ps == [] {
      if c.stage.Downloaded? {
        assert c.data[..c.dataSize] == c.data && after[..c.dataSize] == after;
      }
    } else {
      Unfolds(c, ps);
      StartsAnewStep(c, ps[0], after);
      RestartedDownloadIsNew(Receive(c, ps[0]), ps[1..], after);
    }
  }

  lemma StartsAnewStep(c: Client, p: Packet, after: seq<Byte>)
    requires AreFiles(after, after) && Sane(c) && StartsAnew(c, after) && (c.data == [] ==> !c.stage.Downloaded?)
    requires WellFormed(p) && (IsPart(p, c.nameHash, after) || p == Announcement(c.nameHash))
    ensures var r := Receive(c, p);
            StartsAnew(r, after) && Sane(r) && (r.data == [] ==> !r.stage.Downloaded?)
  {
    if p == Announcement(c.nameHash) {
      AnnouncementRestartsIff(c);
    } else if c.stage.Downloading? {
      ReceiveKeepsPrefix(c, p, after);
    }
  }

  /** The client's first k bytes are of the old version, those up to its first missing byte of the new one. */
  ghost predicate Patched(c: Client, k: nat, before: seq<Byte>, after: seq<Byte>) {
    && |c.data| == c.totalSize == |after| == |before| && k <= c.dataSize <= |after|
    && c.data[..k] == before[..k]
    && (forall i :: k <= i < c.dataSize ==> c.data[i] == after[i])
    && (c.stage.Downloading? || c.stage.Downloaded?) && (c.stage.Downloaded? ==> c.dataSize == |after|)
  }

  lemma PatchedStep(c: Client, p: Packet, k: nat, before: seq<Byte>, after: seq<Byte>)
    requires AreFiles(before, after) && Patched(c, k, before, after)
    requires WellFormed(p) && IsPart(p, c.nameHash, after) && p.offset >= k
    ensures Patched(Receive(c, p), k, before, after)
  {
    if c.stage.Downloading? {
      var r := Receive(c, p);
      assert r.data[..k] == c.data[..k];
      forall i | k <= i < r.dataSize
        ensures r.data[i] == after[i]
      {
        if Covers(p, i) {
          PartByte(p, c.nameHash, after, i);
          assert r.data[i] == p.Payload()[i - p.offset];
        }
      }
    }
  }

  /** If the client is downloading when the file changes to a version of the same length, it goes on asking from its
      first missing byte.  The finished download is the new version if and only if the two versions agree on
      what it already had; so always, if that was nothing. */
  lemma {:induction false} PatchedDownloadIsNewIff(c: Client, ps: seq<Packet>, k: nat, before: seq<Byte>,
                                                   after: seq<Byte>)
    requires AreFiles(before, after) && Patched(c, k, before, after)
    requires forall p <- ps :: WellFormed(p) && IsPart(p, c.nameHash, after) && p.offset >= k
    ensures var r := Received(c, ps);
            r.stage.Downloaded? ==> (r.data == after <==> before[..k] == after[..k])
    decreases |ps|
  {
    if ps == [] {
      if c.stage.Downloaded? {
        PatchedEnd(c, k, before, after);
      }
    } else {
      Unfolds(c, ps);
      PatchedStep(c, ps[0], k, before, after);
      PatchedDownloadIsNewIff(Receive(c, ps[0]), ps[1..], k, before, after);
    }
  }

  lemma PatchedEnd(c: Client, k: nat, before: seq<Byte>, after: seq<Byte>)
    requires Patched(c, k, before, after) && c.stage.Downloaded?
    ensures c.data == after <==> before[..k] == after[..k]
  {
    if before[..k] == after[..k] {
      forall i | 0 <= i < |after|
        ensures c.data[i] == after[i]
      {
        if i < k {
          assert c.data[i] == c.data[..k][i] == after[..k][i];
        }
      }
    }
  }

  /** So a change in mid-download can go unnoticed: a client ends up with the head of the old version and the tail of
      the new one. */
  lemma ChangeInMidDownloadMixesVersions(nameHash: Word)
    ensures var before := seq(2048, _ => 1 as Byte); var after := seq(2048, _ => 2 as Byte);
            var c := Client(Downloading, nameHash, [], 0, 0);
            var ps := [PacketAt(nameHash, before, 0).packet, Announcement(nameHash),
              PacketAt(nameHash, after, 1024).packet];
            && (forall p <- ps :: WellFormed(p))
            && var r := Received(c, ps);
            r.stage.Downloaded? && |r.data| == 2048 && r.data[0] == 1 && r.data[1024] == 2
  {
    var before := seq(2048, _ => 1 as Byte);
    var after := seq(2048, _ => 2 as Byte);
    var c := Client(Downloading, nameHash, [], 0, 0);
    PacketIsPart(nameHash, before, 0);
    PacketIsPart(nameHash, after, 1024);
    var p, q := PacketAt(nameHash, before, 0).packet, PacketAt(nameHash, after, 1024).packet;
    assert p.Payload()[0] == before[0] && q.Payload()[0] == after[1024];
    var ps := [p, Announcement(nameHash), q];
    var c1 := Receive(c, p);
    AnnouncementRestartsIff(c1);
    assert ps[1..] == [Announcement(nameHash), q] && ps[1..][1..] == [q] && [q][1..] == [];
    Unfolds(c, ps);
    Unfolds(c1, ps[1..]);
    Unfolds(c1, [q]);
  }

  // ----- What a slot ignores

  /** A slot takes no notice of packets for other files; nor of any while it is empty or holds a finished download;
      nor, with its texture in use, of any that is not an announcement; nor, while it is downloading, of
      announcements. */
  lemma IgnoresOtherPackets(c: Client, p: Packet)
    requires Sane(c) && WellFormed(p)
    requires || p.nameHash != c.nameHash || c.stage.Empty? || c.stage.Downloaded?
             || (c.stage.GpuLoaded? && (p.offset != 0 || p.payloadSize != 0 || p.totalSize != 0))
             || (c.stage.Downloading? && p.totalSize == 0)
    ensures Receive(c, p) == c
  {}

  /** A slot that is downloading takes every part of its file that fits its buffer, and if it has no buffer yet, one
      for the size that the packet names. */
  lemma TakesPart(c: Client, p: Packet, file: seq<Byte>)
    requires Sane(c) && c.stage.Downloading? && 0 < |file| < 0x1_0000_0000 && IsPart(p, c.nameHash, file)
    requires c.data == [] || p.offset + p.payloadSize <= |c.data|
    ensures var r := Receive(c, p);
            && |r.data| == (if c.data == [] then |file| else |c.data|)
            && (forall i :: p.offset <= i < p.offset + p.payloadSize ==> r.data[i] == file[i])
            && r.dataSize == (if p.offset == c.dataSize then c.dataSize + p.payloadSize else c.dataSize)
            && (r.stage.Downloaded? <==> r.dataSize == |file|)
  {
    var r := Receive(c, p);
    forall i | p.offset <= i < p.offset + p.payloadSize
      ensures r.data[i] == file[i]
    {
      PartByte(p, c.nameHash, file, i);
    }
  }
}
