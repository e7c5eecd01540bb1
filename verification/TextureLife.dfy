/** The life of a texture slot: parts of the file arrive, finished downloads are handed to the GPU, changes are
    announced, and it begins again.  Which bytes does the GPU get? */
module TextureLife {
  import opened Basics
  import opened Transfer
  import opened ChangedFiles

  datatype Event = Arrives(p: Packet) | Renders

  /** A texture handed to the GPU: the client as the hand-over before had left it, what has arrived since then, and the
      texture. */
  datatype Handover = Handover(start: Client, packets: seq<Packet>, texture: seq<Byte>)

  datatype Life = Life(client: Client, start: Client, packets: seq<Packet>, handed: seq<Handover>)

  ghost predicate AllWellFormed(events: seq<Event>) {
    forall e <- events :: e.Arrives? ==> WellFormed(e.p)
  }

  function Act(l: Life, e: Event): Life
    requires Sane(l.client) && (e.Arrives? ==> WellFormed(e.p))
  {
    match e
    case Arrives(p) => l.(client := Receive(l.client, p), packets := l.packets + [p])
    case Renders =>
      if l.client.stage.Downloaded? then
        var next := Loaded(l.client);
        Life(next, next, [], l.handed + [Handover(l.start, l.packets, l.client.data)])
      else l
  }

  function Live(c: Client, events: seq<Event>): (l: Life)
    requires Sane(c) && AllWellFormed(events)
    ensures Sane(l.client)
  {
    var n := |events|;
    if n == 0 then Life(c, c, [], [])
    else
      assert events[n - 1] in events;
      var l := Live(c, events[..n - 1]);
      SaneStep(l, events[n - 1]);
      Act(l, events[n - 1])
  }

  lemma SaneStep(l: Life, e: Event)
    requires Sane(l.client) && (e.Arrives? ==> WellFormed(e.p))
    ensures Sane(Act(l, e).client)
  {}

  // ----- What is handed over

  ghost predicate AllPackets(ps: seq<Packet>, nameHash: Word, before: seq<Byte>, after: seq<Byte>) {
    forall p <- ps :: WellFormed(p) && IsPacket(p, nameHash, before, after)
  }

  /** Only packets of two versions arrive, and announcements. */
  ghost predicate OfTwoVersions(events: seq<Event>, nameHash: Word, before: seq<Byte>, after: seq<Byte>) {
    forall e <- events :: e.Arrives? ==> WellFormed(e.p) && IsPacket(e.p, nameHash, before, after)
  }

  /** A hand-over is the finished download of what has arrived since the one before. */
  ghost predicate IsDownload(h: Handover, nameHash: Word, before: seq<Byte>, after: seq<Byte>) {
    && Sane(h.start) && h.start.nameHash == nameHash && AllPackets(h.packets, nameHash, before, after)
    && Received(h.start, h.packets).stage.Downloaded? && Received(h.start, h.packets).data == h.texture
  }

  ghost predicate Consistent(l: Life, nameHash: Word, before: seq<Byte>, after: seq<Byte>) {
    && Sane(l.start) && l.start.nameHash == nameHash && AllPackets(l.packets, nameHash, before, after)
    && l.client == Received(l.start, l.packets)
    && forall h <- l.handed :: IsDownload(h, nameHash, before, after)
  }

  lemma {:induction false} ReceivedSnoc(c: Client, ps: seq<Packet>, p: Packet)
    requires Sane(c) && WellFormed(p) && forall q <- ps :: WellFormed(q)
    ensures Sane(Received(c, ps)) && (forall q <- ps + [p] :: WellFormed(q))
    ensures Received(c, ps + [p]) == Receive(Received(c, ps), p)
    decreases |ps|
  {
    hide Receive;
    Unfolds(c, ps + [p]);
    if ps == [] {
      assert ([p])[1..] == [] && [] + [p] == [p];
    } else {
      Unfolds(c, ps);
      assert (ps + [p])[1..] == ps[1..] + [p];
      ReceivedSnoc(Receive(c, ps[0]), ps[1..], p);
    }
  }

  lemma ActKeeps(l: Life, e: Event, nameHash: Word, before: seq<Byte>, after: seq<Byte>)
    requires Consistent(l, nameHash, before, after) && Sane(l.client)
    requires e.Arrives? ==> WellFormed(e.p) && IsPacket(e.p, nameHash, before, after)
    ensures Consistent(Act(l, e), nameHash, before, after)
  {
    hide Receive, Received, IsPacket;
    match e
    case Arrives(p) =>
      ReceivedSnoc(l.start, l.packets, p);
    case Renders =>
      NothingYet(Loaded(l.client));
      LoadedSane(l.client);
  }

  lemma NothingYet(c: Client)
    requires Sane(c)
    ensures Received(c, []) == c
  {}

  lemma LoadedSane(c: Client)
    requires Sane(c)
    ensures Sane(Loaded(c)) && (c.stage.Downloaded? ==> Loaded(c).stage.GpuLoaded? && Loaded(c).data == [])
    ensures Loaded(c).nameHash == c.nameHash
  {}

  lemma {:induction false} LiveConsistent(c: Client, events: seq<Event>, before: seq<Byte>, after: seq<Byte>)
    requires Sane(c) && OfTwoVersions(events, c.nameHash, before, after)
    ensures AllWellFormed(events) && Consistent(Live(c, events), c.nameHash, before, after)
    decreases |events|
  {
    hide Act, Consistent, IsPacket;
    var n := |events|;
    if n == 0 {
      FreshConsistent(c, before, after);
    } else {
      assert events[n - 1] in events;
      LiveConsistent(c, events[..n - 1], before, after);
      ActKeeps(Live(c, events[..n - 1]), events[n - 1], c.nameHash, before, after);
    }
  }

  lemma FreshConsistent(c: Client, before: seq<Byte>, after: seq<Byte>)
    requires Sane(c)
    ensures Consistent(Life(c, c, [], []), c.nameHash, before, after)
  {}

  /** The texture is the new version, by the packets taken since the hand-over before. */
  ghost predicate ComesOutNew(h: Handover, before: seq<Byte>, after: seq<Byte>)
    requires Sane(h.start) && forall p <- h.packets :: WellFormed(p)
  {
    var taken := Taken(h.start, h.packets);
    BufferSize(h.start, taken) == |after| && forall i: nat :: i < |after| ==> NewAt(h.start, taken, before, after, i)
  }

  /** Whatever arrives of two versions, and whenever the client renders: each texture handed to the GPU is the new
      version if and only if the packets taken since the hand-over before say so position by position; and it is one of
      the two, and no mixture, if and only if they say so of one of the two. */
  lemma EachTextureIsOneVersionIff(c: Client, events: seq<Event>, before: seq<Byte>, after: seq<Byte>)
    requires AreFiles(before, after) && Sane(c) && OfTwoVersions(events, c.nameHash, before, after)
    ensures AllWellFormed(events)
    ensures forall h <- Live(c, events).handed ::
              && IsDownload(h, c.nameHash, before, after)
              && (h.texture == after <==> ComesOutNew(h, before, after))
              && (h.texture == before || h.texture == after
                  <==> ComesOutNew(h, before, after) || ComesOutNew(h, after, before))
  {
    hide Received, Live, ComesOutNew;
    LiveConsistent(c, events, before, after);
    forall h | h in Live(c, events).handed
      ensures h.texture == after <==> ComesOutNew(h, before, after)
      ensures h.texture == before <==> ComesOutNew(h, after, before)
    {
      TextureIsNewIff(h, c.nameHash, before, after);
    }
  }

  lemma TextureIsNewIff(h: Handover, nameHash: Word, before: seq<Byte>, after: seq<Byte>)
    requires AreFiles(before, after) && IsDownload(h, nameHash, before, after)
    ensures h.texture == after <==> ComesOutNew(h, before, after)
    ensures h.texture == before <==> ComesOutNew(h, after, before)
  {
    hide Received, Taken, NewAt, IsPacket;
    BufferIsNewIff(h.start, h.packets, before, after);
    PacketsEitherWay(h.packets, nameHash, before, after);
    BufferIsNewIff(h.start, h.packets, after, before);
  }

  lemma PacketsEitherWay(ps: seq<Packet>, nameHash: Word, before: seq<Byte>, after: seq<Byte>)
    requires AllPackets(ps, nameHash, before, after)
    ensures AllPackets(ps, nameHash, after, before)
  {}

  // ----- After the announcement

  /** What the server sends of a version, from whatever offset. */
  ghost predicate FromServer(p: Packet, nameHash: Word, file: seq<Byte>) {
    exists offset: nat :: p == PacketAt(nameHash, file, offset).packet
  }

  /** Only this version, and its announcement, arrive from now on. */
  ghost predicate OnlyNow(events: seq<Event>, nameHash: Word, after: seq<Byte>) {
    forall e <- events :: e.Arrives? ==> FromServer(e.p, nameHash, after) || e.p == Announcement(nameHash)
  }

  lemma FromServerIsPart(p: Packet, nameHash: Word, file: seq<Byte>)
    requires |file| < 0x1_0000_0000 && (FromServer(p, nameHash, file) || p == Announcement(nameHash))
    ensures WellFormed(p) && (IsPart(p, nameHash, file) || p == Announcement(nameHash))
  {
    if offset: nat :| p == PacketAt(nameHash, file, offset).packet {
      PacketIsPart(nameHash, file, offset);
    } else {
      PacketIsPart(nameHash, [], 0);
    }
  }

  lemma OnlyNowWellFormed(events: seq<Event>, nameHash: Word, after: seq<Byte>)
    requires |after| < 0x1_0000_0000 && OnlyNow(events, nameHash, after)
    ensures AllWellFormed(events)
  {
    forall e | e in events && e.Arrives?
      ensures WellFormed(e.p)
    {
      FromServerIsPart(e.p, nameHash, after);
    }
  }

  /** A client as it can be: its first missing byte lies in its buffer, and a texture in use has no buffer. */
  ghost predicate Usual(c: Client) {
    && Sane(c) && (c.stage.GpuLoaded? || c.dataSize <= |c.data|)
    && (c.stage.GpuLoaded? ==> c.data == [])
    && (c.stage.Downloaded? ==> c.data != [])
  }

  lemma UsualStep(c: Client, p: Packet)
    requires Usual(c) && WellFormed(p)
    ensures Usual(Receive(c, p)) && Usual(Loaded(c)) && Receive(c, p).nameHash == c.nameHash == Loaded(c).nameHash
  {}

  /** What the client holds is the file's, as far as it counts. */
  ghost predicate Fits(c: Client, file: seq<Byte>) {
    match c.stage
    case Downloaded => c.data == file
    case Downloading => c.data == [] || Agrees(c, file)
    case _ => true
  }

  ghost predicate Agrees(c: Client, file: seq<Byte>) {
    |c.data| == |file| && c.dataSize <= |file| && c.data[..c.dataSize] == file[..c.dataSize]
  }

  /** The buffer is too small for the file, or more of it is filled already than the file has. */
  predicate Stuck(c: Client, file: seq<Byte>) {
    c.stage.Downloading? && c.data != [] && (|c.data| < |file| || c.dataSize > |file|)
  }

  lemma FitsStep(c: Client, p: Packet, file: seq<Byte>)
    requires 0 < |file| < 0x1_0000_0000 && Usual(c) && Fits(c, file) && WellFormed(p)
    requires IsPart(p, c.nameHash, file) || p == Announcement(c.nameHash)
    ensures Fits(Receive(c, p), file)
  {
    if p == Announcement(c.nameHash) {
      AnnouncementRestartsIff(c);
    } else if c.stage.Downloading? {
      var d := if c.data == [] then c.(data := Zeros(|file|), totalSize := |file|) else c;
      AgreesStep(d, p, file);
      assert Receive(c, p) == Receive(d, p);
    }
  }

  lemma AgreesStep(c: Client, p: Packet, file: seq<Byte>)
    requires 0 < |file| < 0x1_0000_0000 && Usual(c) && c.stage.Downloading? && Agrees(c, file)
    requires WellFormed(p) && IsPart(p, c.nameHash, file)
    ensures Fits(Receive(c, p), file)
  {
    var r := Receive(c, p);
    forall i | 0 <= i < r.dataSize
      ensures r.data[i] == file[i]
    {
      if Covers(p, i) {
        PartByte(p, c.nameHash, file, i);
        assert r.data[i] == p.Payload()[i - p.offset];
      } else {
        assert c.data[i] == c.data[..c.dataSize][i] == file[..c.dataSize][i];
      }
    }
    if r.stage.Downloaded? {
      assert r.data == r.data[..r.dataSize];
    }
  }

  lemma StuckStep(c: Client, p: Packet, file: seq<Byte>)
    requires 0 < |file| < 0x1_0000_0000 && Usual(c) && Stuck(c, file) && WellFormed(p)
    requires IsPart(p, c.nameHash, file) || p == Announcement(c.nameHash)
    ensures Stuck(Receive(c, p), file)
  {}

  lemma RenderKeeps(c: Client, file: seq<Byte>)
    ensures Fits(c, file) ==> Fits(Loaded(c), file) && (c.stage.Downloaded? ==> c.data == file)
    ensures Stuck(c, file) ==> Loaded(c) == c
  {}

  /** While only one version of the file arrives, a client that fits it goes on fitting it, and hands over nothing but
      that version; a stuck client stays stuck, and hands over nothing. */
  lemma {:induction false} OneVersionLife(c: Client, events: seq<Event>, file: seq<Byte>)
    requires 0 < |file| < 0x1_0000_0000 && Usual(c) && OnlyNow(events, c.nameHash, file)
    ensures AllWellFormed(events)
    ensures var l := Live(c, events);
            && Usual(l.client) && l.client.nameHash == c.nameHash
            && (Fits(c, file) ==> Fits(l.client, file) && forall h <- l.handed :: h.texture == file)
            && (Stuck(c, file) ==> Stuck(l.client, file) && l.handed == [])
    decreases |events|
  {
    hide Receive, Fits, Stuck, Loaded;
    OnlyNowWellFormed(events, c.nameHash, file);
    var n := |events|;
    if n > 0 {
      var l, e := Live(c, events[..n - 1]), events[n - 1];
      assert e in events;
      OneVersionLife(c, events[..n - 1], file);
      OneVersionStep(l, e, file);
    }
  }

  lemma OneVersionStep(l: Life, e: Event, file: seq<Byte>)
    requires 0 < |file| < 0x1_0000_0000 && Usual(l.client) && OnlyNow([e], l.client.nameHash, file)
    ensures e.Arrives? ==> WellFormed(e.p)
    ensures var r := Act(l, e);
            && Usual(r.client) && r.client.nameHash == l.client.nameHash
            && (Fits(l.client, file) && (forall h <- l.handed :: h.texture == file)
                ==> Fits(r.client, file) && forall h <- r.handed :: h.texture == file)
            && (Stuck(l.client, file) ==> Stuck(r.client, file) && r.handed == l.handed)
  {
    hide Receive, Fits, Usual, Loaded;
    var c := l.client;
    assert e in [e];
    if e.Arrives? {
      FromServerIsPart(e.p, c.nameHash, file);
      UsualStep(c, e.p);
      if Fits(c, file) {
        FitsStep(c, e.p, file);
      }
      if Stuck(c, file) {
        StuckStep(c, e.p, file);
      }
    } else {
      AnyPacketUsual(c);
      RenderKeeps(c, file);
    }
  }

  lemma AnyPacketUsual(c: Client)
    requires Usual(c)
    ensures Usual(Loaded(c)) && Loaded(c).nameHash == c.nameHash
  {}

  // ----- The other clients hand over something else

  /** The packets that finish a download from an offset on. */
  function Rest(nameHash: Word, file: seq<Byte>, at: nat): (events: seq<Event>)
    requires at <= |file|
    decreases |file| - at
  {
    var s := PacketAt(nameHash, file, at);
    if s.last then [Arrives(s.packet)] else [Arrives(s.packet)] + Rest(nameHash, file, at + CHUNK)
  }

  lemma {:induction false} RestIsFromServer(nameHash: Word, file: seq<Byte>, at: nat)
    requires at <= |file|
    ensures OnlyNow(Rest(nameHash, file, at), nameHash, file)
    decreases |file| - at
  {
    hide PacketAt;
    var s := PacketAt(nameHash, file, at);
    PacketLast(nameHash, file, at);
    assert FromServer(s.packet, nameHash, file);
    if !s.last {
      RestIsFromServer(nameHash, file, at + CHUNK);
    }
  }

  /** A client with room enough, and not too much already, finishes; what it held stays as it was. */
  lemma {:induction false} RestFinishes(c: Client, file: seq<Byte>)
    requires 0 < |file| < 0x1_0000_0000 && Usual(c) && c.stage.Downloading? && c.data != [] && !Stuck(c, file)
    ensures AllWellFormed(Rest(c.nameHash, file, c.dataSize))
    ensures var l := Live(c, Rest(c.nameHash, file, c.dataSize));
            && l.handed == [] && l.client.stage.Downloaded? && |l.client.data| == |c.data|
            && l.client.data[..c.dataSize] == c.data[..c.dataSize]
    decreases |file| - c.dataSize
  {
    hide Receive, PacketAt;
    var s := PacketAt(c.nameHash, file, c.dataSize);
    PacketIsPart(c.nameHash, file, c.dataSize);
    PacketLast(c.nameHash, file, c.dataSize);
    var first := Arrives(s.packet);
    FinishStep(c, s.packet, file);
    var next := Receive(c, s.packet);
    if s.last {
      LiveOne(c, first);
    } else {
      RestFinishes(next, file);
      var rest := Rest(c.nameHash, file, c.dataSize + CHUNK);
      LiveCons(c, s.packet, rest);
      var l := Live(next, rest);
      assert l.client.data[..c.dataSize] == l.client.data[..next.dataSize][..c.dataSize];
      assert c.data[..c.dataSize] == next.data[..next.dataSize][..c.dataSize];
    }
  }

  lemma FinishStep(c: Client, p: Packet, file: seq<Byte>)
    requires 0 < |file| < 0x1_0000_0000 && Usual(c) && c.stage.Downloading? && c.data != []
    requires |file| <= |c.data| && p.offset == c.dataSize <= |file| && WellFormed(p) && IsPart(p, c.nameHash, file)
    ensures var r := Receive(c, p);
            && Usual(r) && r.nameHash == c.nameHash && |r.data| == |c.data| && r.dataSize == c.dataSize + p.payloadSize
            && r.data[..c.dataSize] == c.data[..c.dataSize]
            && (if r.dataSize == |file| then r.stage.Downloaded? else r.stage.Downloading?)
  {}

  lemma LiveOne(c: Client, e: Event)
    requires Sane(c) && (e.Arrives? ==> WellFormed(e.p))
    ensures AllWellFormed([e]) && Live(c, [e]) == Act(Life(c, c, [], []), e)
  {
    assert [e][..0] == [];
  }

  lemma LiveSnoc(c: Client, events: seq<Event>, e: Event)
    requires Sane(c) && AllWellFormed(events) && (e.Arrives? ==> WellFormed(e.p))
    ensures AllWellFormed(events + [e]) && Live(c, events + [e]) == Act(Live(c, events), e)
  {
    assert (events + [e])[..|events|] == events;
  }

  /** Living on after a packet. */
  lemma {:induction false} LiveCons(c: Client, p: Packet, rest: seq<Event>)
    requires Sane(c) && WellFormed(p) && AllWellFormed(rest)
    ensures AllWellFormed([Arrives(p)] + rest) && Sane(Receive(c, p))
    ensures var (l, r) := (Live(c, [Arrives(p)] + rest), Live(Receive(c, p), rest));
            l.client == r.client && (l.handed == [] <==> r.handed == [])
    decreases |rest|
  {
    hide Receive;
    LiveOne(c, Arrives(p));
    var n := |rest|;
    if n == 0 {
      assert [Arrives(p)] + rest == [Arrives(p)];
    } else {
      var e, front := rest[n - 1], rest[..n - 1];
      assert e in rest && rest == front + [e];
      LiveCons(c, p, front);
      LiveSnoc(c, [Arrives(p)] + front, e);
      LiveSnoc(Receive(c, p), front, e);
      assert [Arrives(p)] + rest == ([Arrives(p)] + front) + [e];
    }
  }

  /** Everything handed over is this version, whatever of it arrives and whenever the client renders. */
  ghost predicate OnlyHandsOver(c: Client, file: seq<Byte>)
    requires Sane(c)
  {
    forall events | AllWellFormed(events) && OnlyNow(events, c.nameHash, file) ::
      forall h <- Live(c, events).handed :: h.texture == file
  }

  lemma HandsOverOther(c: Client, events: seq<Event>, file: seq<Byte>)
    requires Sane(c) && AllWellFormed(events) && OnlyNow(events, c.nameHash, file)
    requires var l := Live(c, events).client; l.stage.Downloaded? && l.data != file
    ensures !OnlyHandsOver(c, file)
  {
    hide Live;
    LiveSnoc(c, events, Renders);
    var l := Live(c, events + [Renders]);
    var h := l.handed[|l.handed| - 1];
    assert h in l.handed && h.texture != file;
  }

  /** When only one version of the file arrives from now on, nothing but that version is handed over, in any order and
      with any losses, if and only if what the client holds now fits it or can never be finished with it. */
  lemma OnlyHandsOverIff(c: Client, file: seq<Byte>)
    requires 0 < |file| < 0x1_0000_0000 && Usual(c)
    ensures OnlyHandsOver(c, file) <==> Fits(c, file) || Stuck(c, file)
  {
    hide Live, Receive;
    if Fits(c, file) || Stuck(c, file) {
      forall events | AllWellFormed(events) && OnlyNow(events, c.nameHash, file)
        ensures forall h <- Live(c, events).handed :: h.texture == file
      {
        OneVersionLife(c, events, file);
      }
    } else if c.stage.Downloaded? {
      NoEvents(c);
      HandsOverOther(c, [], file);
    } else {
      var events := Rest(c.nameHash, file, c.dataSize);
      RestFinishes(c, file);
      RestIsFromServer(c.nameHash, file, c.dataSize);
      HandsOverOther(c, events, file);
    }
  }

  lemma NoEvents(c: Client)
    requires Sane(c)
    ensures Live(c, []) == Life(c, c, [], [])
  {}

  /** A slot as it is when the download is first asked for. */
  function Begin(nameHash: Word): Client {
    Client(Downloading, nameHash, [], 0, 0)
  }

  /** A file changes.  All the client has ever got are parts of the old version; the announcement arrives, and then
      only parts of the new one.  The textures handed over from then on are the new version, whatever arrives and
      whenever the client renders, if and only if the announcement finds the file in use; or the download finished but
      not handed over, and the file as it was; or the download unfinished, and nothing there yet, or the old version
      too short ever to be finished with the new one, or more there than the new one has, or what is there the same in
      the new one of the same length. */
  lemma ChangeIsNoticedIff(nameHash: Word, past: seq<Event>, before: seq<Byte>, after: seq<Byte>)
    requires AreFiles(before, after) && OnlyNow(past, nameHash, before)
    ensures AllWellFormed(past)
    ensures var c := Live(Begin(nameHash), past).client;
            && c.nameHash == nameHash && Sane(Receive(c, Announcement(nameHash)))
            && (OnlyHandsOver(Receive(c, Announcement(nameHash)), after)
                <==> match c.stage
                     case Downloaded => before == after
                     case Downloading => c.data == [] || |before| < |after| || c.dataSize > |after|
                                         || (|before| == |after| && before[..c.dataSize] == after[..c.dataSize])
                     case _ => true)
  {
    hide Live, Receive;
    OneVersionLife(Begin(nameHash), past, before);
    var c := Live(Begin(nameHash), past).client;
    AnnouncementRestartsIff(c);
    OnlyHandsOverIff(Receive(c, Announcement(nameHash)), after);
  }
}
