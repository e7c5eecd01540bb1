/** How a file travels from the asset server to a game client: the server answers a request with a burst of
    packets, the client puts whatever arrives into place and asks again from its first missing byte. */
module Transfer {
  import opened Basics

  const CHUNK := 1024
  const BURST := 50

  datatype Packet = Packet(nameHash: Word, totalSize: Word, offset: Word, payloadSize: nat, data: seq<Byte>) {
    function Payload(): seq<Byte>
      requires payloadSize <= |data|
    {
      data[..payloadSize]
    }
  }

  /** C.uint(n) for non-negative n. */
  function CUint(n: nat): Word {
    n % 0x1_0000_0000
  }

  function Zeros(n: nat): (s: seq<Byte>)
    ensures |s| == n
  {
    seq(n, _ => 0)
  }

  function Min(a: int, b: int): int {
    if a <= b then a else b
  }

  // ----- The server

  datatype Sent = Sent(packet: Packet, last: bool)

  /** The packet for one offset; `last` says that nothing lies behind it. */
  function PacketAt(nameHash: Word, file: seq<Byte>, offset: nat): Sent {
    var from := Min(offset, |file|);
    var size := Min(|file| - from, CHUNK);
    Sent(Packet(nameHash, CUint(|file|), CUint(from), size, file[from..from + size] + Zeros(CHUNK - size)),
         offset + CHUNK >= |file|)
  }

  /** sendData, with the packet as a result instead of a datagram.  The caller passes totalSize = len(fileData). */
  method SendData(nameHash: Word, fileData: seq<Byte>, totalSize: nat, at: nat) returns (sent: Sent)
    requires totalSize == |fileData|
    ensures sent == PacketAt(nameHash, fileData, at)
  {
    var payloadSize: nat := 0;
    var offset := at;
    var remained := totalSize - offset;
    var last := false;
    if remained < 0 {
      payloadSize := 0;
      offset := totalSize;
      last := true;
    } else if remained <= CHUNK {
      payloadSize := remained;
      last := true;
    } else {
      payloadSize := CHUNK;
    }
    var data := Zeros(CHUNK);
    for i := 0 to payloadSize
      invariant data == fileData[offset..offset + i] + Zeros(CHUNK - i)
    {
      data := data[i := fileData[offset + i]];
    }
    sent := Sent(Packet(nameHash, CUint(totalSize), CUint(offset), payloadSize, data), last);
  }

  /** At most `left` packets from `offset` on. */
  function Burst(nameHash: Word, file: seq<Byte>, offset: nat, left: nat): (ps: seq<Packet>)
    requires left >= 1
    ensures 1 <= |ps| <= left
    decreases left
  {
    var s := PacketAt(nameHash, file, offset);
    if s.last || left == 1 then [s.packet] else [s.packet] + Burst(nameHash, file, offset + CHUNK, left - 1)
  }

  /** The burst loop of handleDataRequest. */
  method SendBurst(nameHash: Word, fileData: seq<Byte>, offset: Word) returns (packets: seq<Packet>)
    ensures packets == Burst(nameHash, fileData, offset, BURST)
  {
    hide PacketAt, Burst;
    var currentOffset: nat := offset;
    var burstCount := 0;
    packets := [];
    var sent := SendData(nameHash, fileData, |fileData|, currentOffset);
    while !sent.last
      invariant 0 <= burstCount < BURST
      invariant sent == PacketAt(nameHash, fileData, currentOffset)
      invariant packets + Burst(nameHash, fileData, currentOffset, BURST - burstCount)
                == Burst(nameHash, fileData, offset, BURST)
      decreases BURST - burstCount
    {
      BurstNext(nameHash, fileData, currentOffset, BURST - burstCount, packets);
      packets := packets + [sent.packet];
      currentOffset := currentOffset + CHUNK;
      burstCount := burstCount + 1;
      if burstCount >= BURST {
        return;
      }
      sent := SendData(nameHash, fileData, |fileData|, currentOffset);
    }
    BurstNext(nameHash, fileData, currentOffset, BURST - burstCount, packets);
    packets := packets + [sent.packet];
  }

  lemma BurstNext(nameHash: Word, file: seq<Byte>, offset: nat, left: nat, before: seq<Packet>)
    requires left >= 1
    ensures var s := PacketAt(nameHash, file, offset);
            before + Burst(nameHash, file, offset, left)
            == if s.last || left == 1 then before + [s.packet]
               else (before + [s.packet]) + Burst(nameHash, file, offset + CHUNK, left - 1)
  {
    hide PacketAt;
  }

  // ----- What a burst carries

  function Payloads(ps: seq<Packet>): seq<Byte>
    requires forall p <- ps :: p.payloadSize <= |p.data|
  {
    if ps == [] then [] else ps[0].Payload() + Payloads(ps[1..])
  }

  ghost predicate IsPart(p: Packet, nameHash: Word, file: seq<Byte>) {
    && p.nameHash == nameHash && p.totalSize == |file|
    && p.payloadSize <= |p.data| && p.offset + p.payloadSize <= |file|
    && p.Payload() == file[p.offset..p.offset + p.payloadSize]
  }

  lemma PacketIsPart(nameHash: Word, file: seq<Byte>, offset: nat)
    requires |file| < 0x1_0000_0000
    ensures var p := PacketAt(nameHash, file, offset).packet;
            && IsPart(p, nameHash, file) && |p.data| == CHUNK
            && p.offset == Min(offset, |file|) && p.payloadSize == Min(|file| - p.offset, CHUNK)
  {
    var from := Min(offset, |file|);
    var size := Min(|file| - from, CHUNK);
    assert (file[from..from + size] + Zeros(CHUNK - size))[..size] == file[from..from + size];
  }

  /** A burst tiles the file from its offset on: consecutive packets, no gap, no overlap, in order. */
  lemma {:induction false} BurstTiles(nameHash: Word, file: seq<Byte>, offset: nat, left: nat)
    requires left >= 1 && |file| < 0x1_0000_0000 && offset <= |file|
    ensures var ps := Burst(nameHash, file, offset, left);
            && (forall k :: 0 <= k < |ps| ==> IsPart(ps[k], nameHash, file) && ps[k].offset == offset + CHUNK * k)
            && (forall k :: 0 <= k < |ps| - 1 ==> ps[k].payloadSize == CHUNK)
            && (forall p <- ps :: p.payloadSize <= |p.data|)
            && Payloads(ps) == file[offset..Min(|file|, offset + CHUNK * left)]
    decreases left
  {
    hide PacketAt;
    PacketIsPart(nameHash, file, offset);
    PacketLast(nameHash, file, offset);
    var s := PacketAt(nameHash, file, offset);
    var ps := Burst(nameHash, file, offset, left);
    if s.last || left == 1 {
      assert ps == [s.packet] && ps[1..] == [];
      assert Payloads(ps) == s.packet.Payload();
    } else {
      BurstTiles(nameHash, file, offset + CHUNK, left - 1);
      var rest := Burst(nameHash, file, offset + CHUNK, left - 1);
      assert ps == [s.packet] + rest && ps[1..] == rest;
      forall k | 0 <= k < |ps|
        ensures IsPart(ps[k], nameHash, file) && ps[k].offset == offset + CHUNK * k
        ensures k < |ps| - 1 ==> ps[k].payloadSize == CHUNK
      {
        if k > 0 {
          assert ps[k] == rest[k - 1];
        }
      }
      var to := Min(|file|, offset + CHUNK * left);
      assert file[offset..offset + CHUNK] + file[offset + CHUNK..to] == file[offset..to];
    }
  }

  lemma PacketLast(nameHash: Word, file: seq<Byte>, offset: nat)
    ensures PacketAt(nameHash, file, offset).last <==> offset + CHUNK >= |file|
  {}

  // ----- The client

  datatype Stage = Empty | Downloading | Downloaded | GpuLoaded

  /** One slot of the client's texture table; no `data` stands for a null pointer. */
  datatype Client = Client(stage: Stage, nameHash: Word, data: seq<Byte>, dataSize: nat, totalSize: nat)

  /** A packet that announces a changed file: nothing of nothing. */
  predicate Announces(p: Packet) {
    p.offset == 0 && p.payloadSize == 0 && p.totalSize == 0
  }

  /** A slot takes up a packet. */
  function Receive(c: Client, p: Packet): Client
    requires p.payloadSize <= |p.data| && (c.data == [] || |c.data| == c.totalSize)
  {
    if c.stage.Downloading? && c.nameHash == p.nameHash && p.totalSize != 0 then
      var d := if c.data == [] then c.(data := Zeros(p.totalSize), totalSize := p.totalSize) else c;
      if d.totalSize < CUint(p.offset + p.payloadSize) || |d.data| < p.offset + p.payloadSize then d
      else
        var size := if p.offset == d.dataSize then d.dataSize + p.payloadSize else d.dataSize;
        d.(data := d.data[..p.offset] + p.Payload() + d.data[p.offset + p.payloadSize..],
           dataSize := size,
           stage := if size == p.totalSize then Downloaded else Downloading)
    else if c.stage.GpuLoaded? && c.nameHash == p.nameHash && Announces(p) then
      c.(stage := Downloading, dataSize := 0)
    else c
  }

  /** The 32-bit sum of offset and size passes the test of the buffer's size, and the sum itself is too large. */
  predicate Overruns(c: Client, p: Packet) {
    var size := if c.data == [] then p.totalSize else c.totalSize;
    && c.stage.Downloading? && c.nameHash == p.nameHash && p.totalSize != 0
    && CUint(p.offset + p.payloadSize) <= size < p.offset + p.payloadSize
  }

  /** No packet of the server does: a file's offsets and sizes stay below 2^32. */
  lemma ServerNeverOverruns(c: Client, nameHash: Word, file: seq<Byte>, offset: nat)
    requires |file| < 0x1_0000_0000
    ensures !Overruns(c, PacketAt(nameHash, file, offset).packet)
  {
    hide PacketAt;
    PacketIsPart(nameHash, file, offset);
  }

  class RemTexSlot {
    var stage: Stage
    var nameHash: Word
    var data: array?<Byte>
    var dataSize: nat
    var totalSize: nat

    ghost function View(): Client
      reads this, data
    {
      Client(stage, nameHash, if data == null then [] else data[..], dataSize, totalSize)
    }

    /** memcpy of the payload into place. */
    method Place(p: Packet)
      requires data != null && p.payloadSize <= |p.data| && p.offset + p.payloadSize <= data.Length
      modifies data
      ensures data[..] == old(data[..p.offset]) + p.Payload() + old(data[p.offset + p.payloadSize..])
    {
      forall k | 0 <= k < p.payloadSize {
        data[p.offset + k] := p.data[k];
      }
    }

    /** The buffer is allocated, blank, when the first part arrives. */
    method AllocateOnFirstPart(size: nat)
      requires size > 0 && (data != null ==> data.Length == totalSize > 0)
      modifies `data, `totalSize
      ensures data != null && data.Length == totalSize > 0
      ensures if old(data) == null then fresh(data) && totalSize == size && data[..] == Zeros(size)
              else data == old(data) && totalSize == old(totalSize)
    {
      if data == null {
        data := new Byte[size](_ => 0);
        totalSize := size;
      }
    }

    /** remtex_on_receive for this slot.  No packet of the server overruns the buffer. */
    method OnReceive(p: Packet)
      requires p.payloadSize <= |p.data| && !Overruns(View(), p)
      requires data != null ==> data.Length == totalSize > 0
      modifies this, data
      ensures View() == Receive(old(View()), p)
      ensures data != null ==> data.Length == totalSize > 0
    {
      hide Zeros, Packet.Payload;
      if stage.Downloading? && nameHash == p.nameHash && p.totalSize != 0 {
        AllocateOnFirstPart(p.totalSize);
        if totalSize < (p.offset + p.payloadSize) % 0x1_0000_0000 {
          return;
        }
        Place(p);
        if p.offset == dataSize {
          dataSize := dataSize + p.payloadSize;
        }
        if dataSize == p.totalSize {
          stage := Downloaded;
        }
      } else if stage.GpuLoaded? && nameHash == p.nameHash && p.offset == 0 && p.payloadSize == 0 && p.totalSize == 0 {
        stage := Downloading;
        dataSize := 0;
      }
    }

    /** remtex_render for this slot; the texture is what the source gives to OpenGL. */
    method Render() returns (texture: Option<seq<Byte>>)
      modifies this
      ensures View() == Loaded(old(View()))
      ensures texture == if old(stage).Downloaded? then Some(old(View()).data) else None
    {
      texture := None;
      if stage.Downloaded? {
        texture := Some(if data == null then [] else data[..]);
        stage := GpuLoaded;
        data := null;
      }
    }
  }

  /** The texture of a finished download goes to the GPU, and its buffer is released. */
  function Loaded(c: Client): Client {
    if c.stage.Downloaded? then c.(stage := GpuLoaded, data := []) else c
  }

  // ----- Reordered, duplicated and lost packets

  /** The client holds a correct prefix, and every other byte it holds is correct or still blank. */
  ghost predicate HoldsPrefix(c: Client, file: seq<Byte>) {
    && (c.data == [] ==> c.dataSize == 0 && c.stage.Downloading?)
    && (c.data != [] ==> |c.data| == c.totalSize == |file| && c.dataSize <= |file|
                         && c.data[..c.dataSize] == file[..c.dataSize]
                         && forall k :: 0 <= k < |file| ==> c.data[k] == file[k] || c.data[k] == 0)
    && (c.stage.Downloaded? ==> c.dataSize == |file|)
    && (c.stage.Downloading? || c.stage.Downloaded?)
  }

  /** The bytes agree with the file up to n, and are correct or blank behind. */
  ghost predicate GoodBytes(data: seq<Byte>, file: seq<Byte>, n: nat) {
    && |data| == |file| && n <= |file|
    && (forall k :: 0 <= k < n ==> data[k] == file[k])
    && (forall k :: n <= k < |file| ==> data[k] == file[k] || data[k] == 0)
  }

  lemma PlacedPart(data: seq<Byte>, file: seq<Byte>, n: nat, from: nat, to: nat)
    requires GoodBytes(data, file, n) && from <= to <= |file|
    ensures var r := data[..from] + file[from..to] + data[to..];
            GoodBytes(r, file, if from == n then to else n)
  {
    var r := data[..from] + file[from..to] + data[to..];
    assert forall k | 0 <= k < |file| :: r[k] == if from <= k < to then file[k] else data[k];
  }

  lemma GoodPrefix(data: seq<Byte>, file: seq<Byte>, n: nat)
    requires |data| == |file| && n <= |file|
    ensures GoodBytes(data, file, n)
            <==> data[..n] == file[..n] && forall k :: 0 <= k < |file| ==> data[k] == file[k] || data[k] == 0
  {
    if data[..n] == file[..n] {
      assert forall k | 0 <= k < n :: data[..n][k] == file[..n][k];
    }
  }

  lemma ReceiveKeepsPrefix(c: Client, p: Packet, file: seq<Byte>)
    requires 0 < |file| < 0x1_0000_0000 && HoldsPrefix(c, file) && IsPart(p, c.nameHash, file)
    ensures HoldsPrefix(Receive(c, p), file) && Receive(c, p).nameHash == c.nameHash
    ensures Receive(c, p).dataSize ==
            if c.stage.Downloading? && p.offset == c.dataSize then c.dataSize + p.payloadSize else c.dataSize
    ensures c.stage.Downloading? ==> (Receive(c, p).stage.Downloaded? <==> Receive(c, p).dataSize == |file|)
    ensures !c.stage.Downloading? ==> Receive(c, p) == c
  {
    if c.stage.Downloading? {
      hide GoodBytes, Packet.Payload;
      var d := if c.data == [] then Zeros(|file|) else c.data;
      var r := Receive(c, p);
      var from, to := p.offset, p.offset + p.payloadSize;
      assert r.data == d[..from] + file[from..to] + d[to..];
      GoodPrefix(d, file, c.dataSize);
      PlacedPart(d, file, c.dataSize, from, to);
      GoodPrefix(r.data, file, r.dataSize);
    }
  }

  ghost function ReceiveAll(c: Client, ps: seq<Packet>, file: seq<Byte>): (r: Client)
    requires 0 < |file| < 0x1_0000_0000 && HoldsPrefix(c, file) && forall p <- ps :: IsPart(p, c.nameHash, file)
    ensures HoldsPrefix(r, file) && r.nameHash == c.nameHash
    decreases |ps|
  {
    if ps == [] then c
    else
      ReceiveKeepsPrefix(c, ps[0], file);
      ReceiveAll(Receive(c, ps[0]), ps[1..], file)
  }

  /** Whatever packets of one version of the file arrive, in whatever order and however often, the client's
      first dataSize bytes are the file's, and a finished download is the file. */
  lemma DownloadIsTheFile(c: Client, ps: seq<Packet>, file: seq<Byte>)
    requires 0 < |file| < 0x1_0000_0000 && c.stage.Downloading? && c.data == [] && c.dataSize == 0
    requires forall p <- ps :: IsPart(p, c.nameHash, file)
    ensures var r := ReceiveAll(c, ps, file);
            && r.dataSize <= |r.data| && r.dataSize <= |file| && r.data[..r.dataSize] == file[..r.dataSize]
            && (r.stage.Downloaded? ==> r.data == file)
  {
    var r := ReceiveAll(c, ps, file);
    if r.stage.Downloaded? {
      assert r.data[..r.dataSize] == r.data && file[..r.dataSize] == file;
    }
  }

  // ----- Lossless rounds

  /** A burst requested at the client's first missing byte and received whole, in order. */
  lemma {:induction false} BurstReceived(c: Client, file: seq<Byte>, left: nat)
    requires 0 < |file| < 0x1_0000_0000 && HoldsPrefix(c, file) && c.stage.Downloading? && c.dataSize < |file|
             && left >= 1
    ensures var ps := Burst(c.nameHash, file, c.dataSize, left);
            && (forall p <- ps :: IsPart(p, c.nameHash, file))
            && var r := ReceiveAll(c, ps, file);
            && r.dataSize == Min(|file|, c.dataSize + CHUNK * left)
            && (r.stage.Downloaded? <==> r.dataSize == |file|)
    decreases left
  {
    hide PacketAt, Receive;
    var ps := Burst(c.nameHash, file, c.dataSize, left);
    BurstTiles(c.nameHash, file, c.dataSize, left);
    PacketIsPart(c.nameHash, file, c.dataSize);
    PacketLast(c.nameHash, file, c.dataSize);
    var s := PacketAt(c.nameHash, file, c.dataSize);
    ReceiveKeepsPrefix(c, s.packet, file);
    var next := Receive(c, s.packet);
    assert ps[0] == s.packet;
    if s.last || left == 1 {
      assert ps[1..] == [];
    } else {
      assert ps[1..] == Burst(c.nameHash, file, c.dataSize + CHUNK, left - 1);
      BurstReceived(next, file, left - 1);
    }
  }

  /** The client after `rounds` requests without loss. */
  ghost function AfterRounds(c: Client, file: seq<Byte>, rounds: nat): (r: Client)
    requires 0 < |file| < 0x1_0000_0000 && HoldsPrefix(c, file) && c.stage.Downloading? && c.dataSize == 0
    ensures HoldsPrefix(r, file) && r.nameHash == c.nameHash
    ensures r.dataSize == Min(|file|, rounds * (CHUNK * BURST))
    ensures r.stage.Downloaded? <==> r.dataSize == |file|
  {
    if rounds == 0 then c
    else
      var before := AfterRounds(c, file, rounds - 1);
      if before.stage.Downloaded? then before
      else
        BurstReceived(before, file, BURST);
        ReceiveAll(before, Burst(before.nameHash, file, before.dataSize, BURST), file)
  }

  /** Without loss a download takes the file's length divided by 51200, rounded up, requests. */
  lemma RoundsNeeded(c: Client, file: seq<Byte>, rounds: nat)
    requires 0 < |file| < 0x1_0000_0000 && c.stage.Downloading? && c.data == [] && c.dataSize == 0
    ensures AfterRounds(c, file, rounds).stage.Downloaded? <==> rounds >= (|file| + 51199) / 51200
    ensures AfterRounds(c, file, (|file| + 51199) / 51200).data == file
  {
    var r := AfterRounds(c, file, (|file| + 51199) / 51200);
    assert r.data[..r.dataSize] == r.data && file[..r.dataSize] == file;
  }
}
