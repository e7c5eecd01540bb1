/** The asset server's file cache and the goroutines that invalidate it, as a machine whose steps interleave
    freely.  A step is what one thread does between two points where another one can get in. */
module AssetCache {
  import opened Basics

  type Hash = Word
  type Content = seq<bv8>

  // ----- Names

  /** filepath.Base without the extension. */
  function Stem(path: string): string {
    BeforeLastDot(AfterLastSlash(path))
  }

  function AfterLastSlash(path: string): string {
    if path == [] || path[|path| - 1] == '/' then [] else AfterLastSlash(path[..|path| - 1]) + [path[|path| - 1]]
  }

  function BeforeLastDot(name: string): string {
    if '.' !in name then name
    else if name[|name| - 1] == '.' then name[..|name| - 1]
    else BeforeLastDot(name[..|name| - 1])
  }

  /** hash = hash * 33 + c, cut to 32 bits. */
  function Djb2(name: string): Hash {
    if name == [] then 5381 else (Djb2(name[..|name| - 1]) * 33 + name[|name| - 1] as int) % 0x1_0000_0000
  }

  function NameHash(path: string): Hash {
    Djb2(Stem(path))
  }

  // ----- The file map

  ghost predicate Collide(files: set<string>) {
    exists f, g :: f in files && g in files && f != g && NameHash(f) == NameHash(g)
  }

  /** Every file under its hash, and nothing else. */
  ghost predicate Maps(m: map<Hash, string>, files: set<string>) {
    && (forall h <- m.Keys :: m[h] in files && NameHash(m[h]) == h)
    && (forall f <- files :: NameHash(f) in m && m[NameHash(f)] == f)
  }

  ghost function Names(files: seq<string>): set<string> {
    set f | f in files
  }

  lemma NamesSnoc(files: seq<string>, i: nat)
    requires i < |files|
    ensures Names(files[..i + 1]) == Names(files[..i]) + {files[i]}
  {
    assert files[..i + 1] == files[..i] + [files[i]];
  }

  lemma NewName(files: seq<string>, i: nat)
    requires i < |files| && forall j, k :: 0 <= j < k < |files| ==> files[j] != files[k]
    ensures files[i] !in Names(files[..i]) && files[i] in Names(files) && Names(files[..i]) <= Names(files)
  {}

  /** constructFileMap over the files the glob has found (each once): it ends the process, here by None, as
      soon as addToFileMap meets a hash for the second time. */
  method ConstructFileMap(files: seq<string>) returns (fileMap: Option<map<Hash, string>>)
    requires forall i, j :: 0 <= i < j < |files| ==> files[i] != files[j]
    ensures fileMap.Some? ==> Maps(fileMap.value, Names(files))
    ensures fileMap.None? <==> Collide(Names(files))
  {
    hide NameHash, Names;
    var m: map<Hash, string> := map[];
    NoNames();
    assert files[..0] == [];
    for i := 0 to |files|
      invariant Maps(m, Names(files[..i]))
    {
      var h := NameHash(files[i]);
      NamesSnoc(files, i);
      NewName(files, i);
      if h in m {
        assert m[h] in Names(files) && files[i] in Names(files) && m[h] != files[i];
        return None;
      }
      m := m[h := files[i]];
    }
    assert files[..|files|] == files;
    MapsExcludesCollision(m, Names(files));
    return Some(m);
  }

  lemma NoNames()
    ensures Names([]) == {}
  {}

  lemma MapsExcludesCollision(m: map<Hash, string>, files: set<string>)
    requires Maps(m, files)
    ensures !Collide(files)
  {}

  // ----- The machine

  /** Where a goroutine started by the watcher is: in its select; past the timer; after removing its file
      from waitMap; after removing the cache entry; gone. */
  datatype Phase = Waiting | Fired | Unlisted | Purged | Gone

  datatype Worker = Worker(file: string, ch: nat, phase: Phase)

  /** A channel of capacity 1, made for one file. */
  datatype Chan = Chan(file: string, tokens: nat, closed: bool)

  /** Sending: the watcher holds waitMutex and is about to send the abort token. */
  datatype Watcher = Idle | Sending(file: string)

  datatype Server = Server(
    disk: map<string, Content>,
    fileMap: map<Hash, string>,
    cache: map<Hash, Content>,
    queue: seq<string>,
    watcher: Watcher,
    waitMap: map<string, nat>,
    chans: seq<Chan>,
    workers: seq<Worker>,
    stopped: bool)

  datatype Step =
    | WriteFile(file: string, content: Content)
    | TakeEvent
    | SendAbort
    | Abort(i: nat)
    | Fire(i: nat)
    | Unlist(i: nat)
    | Purge(i: nat)
    | CloseChan(i: nat)
    | Request(nameHash: Hash, offset: Hash)

  predicate At(s: Server, i: nat, phase: Phase) {
    i < |s.workers| && s.workers[i].phase == phase && s.workers[i].ch < |s.chans|
  }

  /** A step can be taken: locks are free, sends have room, receives find something. */
  predicate Enabled(s: Server, step: Step) {
    !s.stopped &&
    match step
    case WriteFile(_, _) => true
    case TakeEvent => s.watcher.Idle? && s.queue != []
    case SendAbort =>
      s.watcher.Sending? && s.watcher.file in s.waitMap && s.waitMap[s.watcher.file] < |s.chans|
      && (var c := s.chans[s.waitMap[s.watcher.file]]; c.tokens == 0 || c.closed)
    case Abort(i) => At(s, i, Waiting) && (s.chans[s.workers[i].ch].tokens > 0 || s.chans[s.workers[i].ch].closed)
    case Fire(i) => At(s, i, Waiting)
    case Unlist(i) => At(s, i, Fired) && s.watcher.Idle?
    case Purge(i) => At(s, i, Unlisted)
    case CloseChan(i) => At(s, i, Purged)
    case Request(_, _) => true
  }

  function Move(s: Server, i: nat, phase: Phase): Server
    requires i < |s.workers|
  {
    s.(workers := s.workers[i := s.workers[i].(phase := phase)])
  }

  function SetChan(s: Server, ch: nat, c: Chan): Server
    requires ch < |s.chans|
  {
    s.(chans := s.chans[ch := c])
  }

  function Spawn(s: Server, file: string, ch: nat): Server {
    s.(workers := s.workers + [Worker(file, ch, Waiting)])
  }

  /** The map constructFileMap would build, if the files do not collide. */
  ghost function FileMapOf(files: set<string>): Option<map<Hash, string>> {
    if Collide(files) then None else Some(FileMapWithoutCollision(files))
  }

  ghost function FileMapWithoutCollision(files: set<string>): map<Hash, string>
    requires !Collide(files)
  {
    map f | f in files :: NameHash(f) := f
  }

  /** The map in force for a request: a hash that is not in it makes the server build it anew. */
  ghost function FilesFor(s: Server, nameHash: Hash): Option<map<Hash, string>> {
    if nameHash in s.fileMap then Some(s.fileMap) else FileMapOf(s.disk.Keys)
  }

  /** handleDataRequest, up to the point where the cached bytes are sent. */
  ghost function Serve(s: Server, nameHash: Hash, offset: Hash): Server {
    if nameHash == 0xFFFF_FFFF && offset == 0xFFFF_FFFF then s  // heartbeat
    else
      var files := FilesFor(s, nameHash);
      if files.None? then s.(stopped := true)
      else
        var t := s.(fileMap := files.value);
        if nameHash in t.cache then t
        else if nameHash in t.fileMap && t.fileMap[nameHash] in t.disk then
          t.(cache := t.cache[nameHash := t.disk[t.fileMap[nameHash]]])
        else t.(stopped := true)
  }

  ghost function Apply(s: Server, step: Step): Server
    requires Enabled(s, step)
  {
    match step
    case WriteFile(file, content) => s.(disk := s.disk[file := content], queue := s.queue + [file])
    case TakeEvent =>
      var file := s.queue[0];
      var t := s.(queue := s.queue[1..]);
      if file in s.waitMap then t.(watcher := Sending(file))
      else Spawn(t.(chans := t.chans + [Chan(file, 0, false)], waitMap := t.waitMap[file := |t.chans|]), file,
        |t.chans|)
    case SendAbort =>
      var ch := s.waitMap[s.watcher.file];
      if s.chans[ch].closed then s.(stopped := true)  // panic: send on closed channel
      else Spawn(SetChan(s, ch, s.chans[ch].(tokens := 1)), s.watcher.file, ch).(watcher := Idle)
    case Abort(i) =>
      var ch := s.workers[i].ch;
      if s.chans[ch].tokens > 0 then Move(SetChan(s, ch, s.chans[ch].(tokens := s.chans[ch].tokens - 1)), i, Gone)
      else Move(s, i, Gone)
    case Fire(i) => Move(s, i, Fired)
    case Unlist(i) => Move(s, i, Unlisted).(waitMap := s.waitMap - {s.workers[i].file})
    case Purge(i) => Move(s, i, Purged).(cache := s.cache - {NameHash(s.workers[i].file)})
    case CloseChan(i) =>
      var ch := s.workers[i].ch;
      if s.chans[ch].closed then s.(stopped := true)  // panic: close of closed channel
      else Move(SetChan(s, ch, s.chans[ch].(closed := true)), i, Gone)
    case Request(nameHash, offset) => Serve(s, nameHash, offset)
  }

  // ----- Counting goroutines

  function Count(ws: seq<Worker>, ch: nat, phase: Phase): nat {
    if ws == [] then 0
    else Count(ws[..|ws| - 1], ch, phase) + One(ws[|ws| - 1], ch, phase)
  }

  function One(w: Worker, ch: nat, phase: Phase): nat {
    if w.ch == ch && w.phase == phase then 1 else 0
  }

  lemma CountSpawn(ws: seq<Worker>, w: Worker, ch: nat, phase: Phase)
    ensures Count(ws + [w], ch, phase) == Count(ws, ch, phase) + One(w, ch, phase)
  {
    assert (ws + [w])[..|ws|] == ws;
  }

  lemma {:induction false} CountMove(ws: seq<Worker>, i: nat, w: Worker, ch: nat, phase: Phase)
    requires i < |ws|
    ensures Count(ws[i := w], ch, phase) == Count(ws, ch, phase) - One(ws[i], ch, phase) + One(w, ch, phase)
    decreases |ws|
  {
    var n := |ws| - 1;
    if i == n {
      assert ws[i := w][..n] == ws[..n];
    } else {
      assert ws[i := w][..n] == ws[..n][i := w];
      CountMove(ws[..n], i, w, ch, phase);
    }
  }

  lemma {:induction false} CountNone(ws: seq<Worker>, ch: nat, phase: Phase)
    requires forall i :: 0 <= i < |ws| ==> ws[i].ch != ch || ws[i].phase != phase
    ensures Count(ws, ch, phase) == 0
  {
    if ws != [] {
      CountNone(ws[..|ws| - 1], ch, phase);
    }
  }

  // ----- The invariant

  /** Waiting goroutines that no token can stop any more, and goroutines that have fired already. */
  function Obligations(s: Server, ch: nat): int
    requires ch < |s.chans|
  {
    Count(s.workers, ch, Waiting) - s.chans[ch].tokens + Count(s.workers, ch, Fired)
  }

  ghost predicate MapOk(s: Server) {
    && (forall h <- s.fileMap.Keys :: s.fileMap[h] in s.disk && NameHash(s.fileMap[h]) == h)
    && s.cache.Keys <= s.fileMap.Keys
  }

  /** A listed channel is open, belongs to its file, and somebody on it is bound to fire. */
  ghost predicate ListedOk(s: Server) {
    && (forall f <- s.waitMap.Keys ::
          s.waitMap[f] < |s.chans| && s.chans[s.waitMap[f]].file == f && !s.chans[s.waitMap[f]].closed
          && Obligations(s, s.waitMap[f]) >= 1)
    && (s.watcher.Sending? ==> s.watcher.file in s.waitMap)
  }

  /** A goroutine belongs to its channel's file, and its channel is no longer listed once it has removed
      the file from waitMap. */
  ghost predicate WorkersOk(s: Server) {
    forall i :: 0 <= i < |s.workers| ==>
      var w := s.workers[i];
      && w.ch < |s.chans| && s.chans[w.ch].file == w.file
      && (w.phase.Unlisted? || w.phase.Purged? ==> !(w.file in s.waitMap && s.waitMap[w.file] == w.ch))
  }

  /** The deletion of the file's cache entry is still to come. */
  ghost predicate DeletionDue(s: Server, file: string) {
    file in s.queue || file in s.waitMap || exists i :: 0 <= i < |s.workers| && AboutToPurge(s.workers[i], file)
  }

  predicate AboutToPurge(w: Worker, file: string) {
    w.file == file && w.phase.Unlisted?
  }

  ghost predicate FreshOrDue(s: Server)
    requires MapOk(s)
  {
    forall h <- s.cache.Keys :: s.cache[h] == s.disk[s.fileMap[h]] || DeletionDue(s, s.fileMap[h])
  }

  ghost predicate Inv(s: Server) {
    MapOk(s) && ListedOk(s) && WorkersOk(s) && FreshOrDue(s)
  }

  // ----- Each step keeps it

  lemma WriteKeeps(s: Server, file: string, content: Content)
    requires Inv(s) && Enabled(s, WriteFile(file, content))
    ensures Inv(Apply(s, WriteFile(file, content)))
  {
    hide NameHash, Count;
    var t := Apply(s, WriteFile(file, content));
    assert file in t.queue;
    forall h <- t.cache.Keys
      ensures t.cache[h] == t.disk[t.fileMap[h]] || DeletionDue(t, t.fileMap[h])
    {
      if t.fileMap[h] != file && DeletionDue(s, s.fileMap[h]) {
        DueStays(s, t, t.fileMap[h]);
      }
    }
    assert forall f <- t.waitMap.Keys :: Obligations(t, t.waitMap[f]) == Obligations(s, s.waitMap[f]);
  }

  /** A due deletion stays due when queue, waitMap and goroutines only gain. */
  lemma DueStays(s: Server, t: Server, file: string)
    requires DeletionDue(s, file)
    requires file in s.queue ==> DeletionDue(t, file)
    requires file in s.waitMap ==> DeletionDue(t, file)
    requires |s.workers| <= |t.workers|
    requires forall i :: 0 <= i < |s.workers| && AboutToPurge(s.workers[i], file) ==> AboutToPurge(t.workers[i], file)
    ensures DeletionDue(t, file)
  {
    if file !in s.queue && file !in s.waitMap {
      var i :| 0 <= i < |s.workers| && AboutToPurge(s.workers[i], file);
      assert AboutToPurge(t.workers[i], file);
    }
  }

  lemma TakeFresh(s: Server)
    requires Inv(s) && Enabled(s, TakeEvent)
    ensures MapOk(Apply(s, TakeEvent)) && FreshOrDue(Apply(s, TakeEvent))
  {
    hide NameHash, Obligations, WorkersOk;
    var t := Apply(s, TakeEvent);
    var file := s.queue[0];
    assert file in t.waitMap;
    forall h <- t.cache.Keys
      ensures t.cache[h] == t.disk[t.fileMap[h]] || DeletionDue(t, t.fileMap[h])
    {
      var f := t.fileMap[h];
      if DeletionDue(s, f) {
        assert f in s.queue ==> f == file || f in t.queue;
        DueStays(s, t, f);
      }
    }
  }

  lemma TakeListed(s: Server)
    requires Inv(s) && Enabled(s, TakeEvent)
    ensures ListedOk(Apply(s, TakeEvent))
  {
    hide NameHash, Count, MapOk, FreshOrDue;
    var t := Apply(s, TakeEvent);
    var file := s.queue[0];
    if file in s.waitMap {
      assert forall f <- t.waitMap.Keys :: Obligations(t, t.waitMap[f]) == Obligations(s, s.waitMap[f]);
    } else {
      var w := Worker(file, |s.chans|, Waiting);
      CountNone(s.workers, |s.chans|, Waiting);
      forall f <- t.waitMap.Keys
        ensures Obligations(t, t.waitMap[f]) >= 1
      {
        CountSpawn(s.workers, w, t.waitMap[f], Waiting);
        CountSpawn(s.workers, w, t.waitMap[f], Fired);
      }
    }
  }

  lemma TakeWorkers(s: Server)
    requires Inv(s) && Enabled(s, TakeEvent)
    ensures WorkersOk(Apply(s, TakeEvent))
  {
    hide NameHash, Obligations, MapOk, FreshOrDue;
  }

  lemma TakeKeeps(s: Server)
    requires Inv(s) && Enabled(s, TakeEvent)
    ensures Inv(Apply(s, TakeEvent))
  {
    hide Apply, ListedOk, WorkersOk, MapOk, FreshOrDue;
    TakeFresh(s);
    TakeListed(s);
    TakeWorkers(s);
  }

  lemma SendKeeps(s: Server)
    requires Inv(s) && Enabled(s, SendAbort)
    ensures !Apply(s, SendAbort).stopped && Inv(Apply(s, SendAbort))
  {
    hide NameHash, Count;
    var t := Apply(s, SendAbort);
    var file := s.watcher.file;
    var target := s.waitMap[file];
    var w := Worker(file, target, Waiting);
    forall f <- t.waitMap.Keys
      ensures Obligations(t, t.waitMap[f]) >= 1
    {
      var ch := t.waitMap[f];
      CountSpawn(s.workers, w, ch, Waiting);
      CountSpawn(s.workers, w, ch, Fired);
      assert Obligations(t, ch) == Obligations(s, ch);
    }
    forall h <- t.cache.Keys
      ensures t.cache[h] == t.disk[t.fileMap[h]] || DeletionDue(t, t.fileMap[h])
    {
      if DeletionDue(s, s.fileMap[h]) {
        DueStays(s, t, s.fileMap[h]);
      }
    }
  }

  /** The steps of one goroutine: how the counts change. */
  lemma MovedCounts(s: Server, i: nat, phase: Phase, ch: nat)
    requires i < |s.workers|
    ensures var w := s.workers[i]; var ws := Move(s, i, phase).workers;
            && Count(ws, ch, Waiting) == Count(s.workers, ch, Waiting) - One(w, ch, Waiting)
               + One(w.(phase := phase), ch, Waiting)
            && Count(ws, ch, Fired) == Count(s.workers, ch, Fired) - One(w, ch, Fired)
               + One(w.(phase := phase), ch, Fired)
  {
    CountMove(s.workers, i, s.workers[i].(phase := phase), ch, Waiting);
    CountMove(s.workers, i, s.workers[i].(phase := phase), ch, Fired);
  }

  lemma AbortKeeps(s: Server, i: nat)
    requires Inv(s) && Enabled(s, Abort(i))
    ensures Inv(Apply(s, Abort(i)))
  {
    hide NameHash, Count, Apply;
    var mine := s.workers[i].ch;
    var c := s.chans[mine];
    var after := if c.tokens > 0 then c.(tokens := c.tokens - 1) else c;
    AbortShape(s, i, after);
    AbortListed(s, i, after);
    MovedWorkers(s, i, after, Gone);
    QuietFreshOrDue(s, Move(SetChan(s, mine, after), i, Gone));
  }

  /** A goroutine that leaves its select or its last lock does not upset the others. */
  lemma MovedWorkers(s: Server, i: nat, after: Chan, phase: Phase)
    requires WorkersOk(s) && i < |s.workers| && !phase.Unlisted? && !phase.Purged?
    requires s.workers[i].ch < |s.chans| && after.file == s.chans[s.workers[i].ch].file
    ensures WorkersOk(Move(SetChan(s, s.workers[i].ch, after), i, phase))
  {}

  lemma AbortListed(s: Server, i: nat, after: Chan)
    requires Inv(s) && Enabled(s, Abort(i))
    requires var c := s.chans[s.workers[i].ch]; after == if c.tokens > 0 then c.(tokens := c.tokens - 1) else c
    ensures ListedOk(Move(SetChan(s, s.workers[i].ch, after), i, Gone))
  {
    hide NameHash, Count, FreshOrDue, WorkersOk, MapOk;
    var mine := s.workers[i].ch;
    var t := Move(SetChan(s, mine, after), i, Gone);
    forall f <- t.waitMap.Keys
      ensures Obligations(t, t.waitMap[f]) >= 1
    {
      var ch := t.waitMap[f];
      MovedCounts(s, i, Gone, ch);
      assert ch == mine ==> s.chans[mine].tokens > 0;
      assert Obligations(t, ch) == Obligations(s, ch);
    }
  }

  lemma AbortShape(s: Server, i: nat, after: Chan)
    requires Enabled(s, Abort(i))
    requires var c := s.chans[s.workers[i].ch]; after == if c.tokens > 0 then c.(tokens := c.tokens - 1) else c
    ensures Apply(s, Abort(i)) == Move(SetChan(s, s.workers[i].ch, after), i, Gone)
  {
    var ch := s.workers[i].ch;
    assert s.chans[ch := s.chans[ch]] == s.chans;
  }

  /** Nothing that a due deletion rests on has gone. */
  lemma QuietFreshOrDue(s: Server, t: Server)
    requires MapOk(s) && MapOk(t) && FreshOrDue(s)
    requires t.disk == s.disk && t.fileMap == s.fileMap && t.cache == s.cache && t.queue == s.queue
             && t.waitMap == s.waitMap
    requires |s.workers| == |t.workers|
    requires forall i :: 0 <= i < |s.workers| && s.workers[i].phase.Unlisted? ==> t.workers[i] == s.workers[i]
    ensures FreshOrDue(t)
  {
    forall h <- t.cache.Keys
      ensures t.cache[h] == t.disk[t.fileMap[h]] || DeletionDue(t, t.fileMap[h])
    {
      if DeletionDue(s, s.fileMap[h]) {
        DueStays(s, t, s.fileMap[h]);
      }
    }
  }

  lemma FireKeeps(s: Server, i: nat)
    requires Inv(s) && Enabled(s, Fire(i))
    ensures Inv(Apply(s, Fire(i)))
  {
    hide NameHash, Count;
    var t := Apply(s, Fire(i));
    forall f <- t.waitMap.Keys
      ensures Obligations(t, t.waitMap[f]) >= 1
    {
      MovedCounts(s, i, Fired, t.waitMap[f]);
      assert Obligations(t, t.waitMap[f]) == Obligations(s, s.waitMap[f]);
    }
    QuietFreshOrDue(s, t);
  }

  /** Taking the file off waitMap ends its obligation there, but this goroutine is about to purge. */
  lemma UnlistKeeps(s: Server, i: nat)
    requires Inv(s) && Enabled(s, Unlist(i))
    ensures Inv(Apply(s, Unlist(i)))
  {
    hide NameHash, Count;
    var t := Apply(s, Unlist(i));
    var file := s.workers[i].file;
    forall f <- t.waitMap.Keys
      ensures Obligations(t, t.waitMap[f]) >= 1
    {
      assert s.chans[s.waitMap[f]].file == f != file;
      MovedCounts(s, i, Unlisted, t.waitMap[f]);
      assert Obligations(t, t.waitMap[f]) == Obligations(s, s.waitMap[f]);
    }
    assert AboutToPurge(t.workers[i], file);
    forall h <- t.cache.Keys
      ensures t.cache[h] == t.disk[t.fileMap[h]] || DeletionDue(t, t.fileMap[h])
    {
      if s.fileMap[h] != file && DeletionDue(s, s.fileMap[h]) {
        DueStays(s, t, s.fileMap[h]);
      }
    }
  }

  lemma PurgeKeeps(s: Server, i: nat)
    requires Inv(s) && Enabled(s, Purge(i))
    ensures Inv(Apply(s, Purge(i)))
  {
    hide Count;
    var t := Apply(s, Purge(i));
    var file := s.workers[i].file;
    forall f <- t.waitMap.Keys
      ensures Obligations(t, t.waitMap[f]) >= 1
    {
      MovedCounts(s, i, Purged, t.waitMap[f]);
      assert Obligations(t, t.waitMap[f]) == Obligations(s, s.waitMap[f]);
    }
    forall h <- t.cache.Keys
      ensures t.cache[h] == t.disk[t.fileMap[h]] || DeletionDue(t, t.fileMap[h])
    {
      assert s.fileMap[h] != file;
      if DeletionDue(s, s.fileMap[h]) {
        DueStays(s, t, s.fileMap[h]);
      }
    }
  }

  lemma CloseKeeps(s: Server, i: nat)
    requires Inv(s) && Enabled(s, CloseChan(i))
    ensures Inv(Apply(s, CloseChan(i)))
  {
    if s.chans[s.workers[i].ch].closed {
      PanicKeeps(s);
    } else {
      CloseOpenKeeps(s, i);
    }
  }

  lemma PanicKeeps(s: Server)
    requires Inv(s)
    ensures Inv(s.(stopped := true))
  {
    hide Count, NameHash;
    var t := s.(stopped := true);
    assert forall f <- t.waitMap.Keys :: Obligations(t, t.waitMap[f]) == Obligations(s, s.waitMap[f]);
    QuietFreshOrDue(s, t);
  }

  lemma CloseOpenKeeps(s: Server, i: nat)
    requires Inv(s) && Enabled(s, CloseChan(i)) && !s.chans[s.workers[i].ch].closed
    ensures Inv(Apply(s, CloseChan(i)))
  {
    hide Count, NameHash;
    var mine := s.workers[i].ch;
    var t := Move(SetChan(s, mine, s.chans[mine].(closed := true)), i, Gone);
    assert t == Apply(s, CloseChan(i));
    forall f <- t.waitMap.Keys
      ensures t.waitMap[f] != mine && Obligations(t, t.waitMap[f]) >= 1
    {
      assert s.chans[s.waitMap[f]].file == f;
      MovedCounts(s, i, Gone, t.waitMap[f]);
      assert Obligations(t, t.waitMap[f]) == Obligations(s, s.waitMap[f]);
    }
    QuietFreshOrDue(s, t);
  }

  /** Building the map again keeps every file where it was. */
  lemma FilesForExtends(s: Server, nameHash: Hash)
    requires MapOk(s) && FilesFor(s, nameHash).Some?
    ensures var m := FilesFor(s, nameHash).value;
            && (forall h <- m.Keys :: m[h] in s.disk && NameHash(m[h]) == h)
            && (forall h <- s.fileMap.Keys :: h in m && m[h] == s.fileMap[h])
  {
    hide NameHash;
    if nameHash !in s.fileMap {
      var m := FileMapWithoutCollision(s.disk.Keys);
      forall h <- s.fileMap.Keys
        ensures h in m && m[h] == s.fileMap[h]
      {
        assert s.fileMap[h] in s.disk.Keys;
      }
    }
  }

  /** The map only grows, and what is newly cached is what the disk holds. */
  ghost predicate Served(s: Server, t: Server) {
    && t.disk == s.disk && MapOk(t)
    && (forall h <- s.fileMap.Keys :: h in t.fileMap && t.fileMap[h] == s.fileMap[h])
    && (forall h <- t.cache.Keys ::
          if h in s.cache then t.cache[h] == s.cache[h] else t.cache[h] == t.disk[t.fileMap[h]])
  }

  lemma ServeMap(s: Server, nameHash: Hash, offset: Hash)
    requires MapOk(s)
    ensures Served(s, Serve(s, nameHash, offset))
  {
    hide NameHash, FilesFor;
    if FilesFor(s, nameHash).Some? {
      FilesForExtends(s, nameHash);
    }
  }

  lemma ServeFrame(s: Server, nameHash: Hash, offset: Hash)
    ensures var t := Serve(s, nameHash, offset);
            && t.disk == s.disk && t.queue == s.queue && t.watcher == s.watcher && t.waitMap == s.waitMap
            && t.chans == s.chans && t.workers == s.workers
  {
    hide FilesFor;
  }

  lemma RequestKeeps(s: Server, nameHash: Hash, offset: Hash)
    requires Inv(s) && Enabled(s, Request(nameHash, offset))
    ensures Inv(Apply(s, Request(nameHash, offset)))
  {
    hide Serve, Count, NameHash;
    ServeMap(s, nameHash, offset);
    ServeFrame(s, nameHash, offset);
    var t := Serve(s, nameHash, offset);
    assert Apply(s, Request(nameHash, offset)) == t;
    assert forall f <- t.waitMap.Keys :: Obligations(t, t.waitMap[f]) == Obligations(s, s.waitMap[f]);
    forall h <- t.cache.Keys
      ensures t.cache[h] == t.disk[t.fileMap[h]] || DeletionDue(t, t.fileMap[h])
    {
      if h in s.cache && DeletionDue(s, s.fileMap[h]) {
        DueStays(s, t, s.fileMap[h]);
      }
    }
  }

  // ----- What a request does

  /** The file that a request for this hash reads: the listed one, or else the one on the disk that has the hash. */
  ghost predicate IsFileOf(s: Server, nameHash: Hash, file: string) {
    if nameHash in s.fileMap then file == s.fileMap[nameHash] else file in s.disk && NameHash(file) == nameHash
  }

  /** A request with a hash that is not listed ends the server if two files on the disk have one hash; and any request
      ends it whose hash is neither cached nor that of a file on the disk. */
  ghost predicate Ends(s: Server, nameHash: Hash) {
    || (nameHash !in s.fileMap
        && exists f, g :: f in s.disk && g in s.disk && f != g && NameHash(f) == NameHash(g))
    || (nameHash !in s.cache && !exists f :: f in s.disk && IsFileOf(s, nameHash, f))
  }

  /** The heartbeat does nothing.  Any other request either ends the server, and caches nothing; or it leaves the hash
      cached, with what was cached, or else with the present content of its file.  No other entry changes, nor does
      anything but the map of files, which is built anew exactly if the hash was not listed. */
  lemma RequestServes(s: Server, nameHash: Hash, offset: Hash)
    requires Enabled(s, Request(nameHash, offset))
    ensures var t := Apply(s, Request(nameHash, offset));
            if nameHash == 0xFFFF_FFFF && offset == 0xFFFF_FFFF then t == s
            else
              && (t.stopped <==> Ends(s, nameHash))
              && t == s.(cache := t.cache, fileMap := t.fileMap, stopped := t.stopped)
              && (nameHash in s.fileMap ==> t.fileMap == s.fileMap)
              && (nameHash !in s.fileMap && !t.stopped ==> Maps(t.fileMap, s.disk.Keys))
              && (t.stopped || nameHash in s.cache ==> t.cache == s.cache)
              && (!t.stopped && nameHash !in s.cache ==>
                    && t.cache.Keys == s.cache.Keys + {nameHash}
                    && (forall h <- s.cache.Keys :: t.cache[h] == s.cache[h])
                    && exists f :: f in s.disk && IsFileOf(s, nameHash, f) && t.cache[nameHash] == s.disk[f])
  {
    hide NameHash;
    if nameHash !in s.fileMap && !Collide(s.disk.Keys) {
      FileMapMaps(s.disk.Keys);
    }
    if FilesFor(s, nameHash).Some? {
      var m := FilesFor(s, nameHash).value;
      if nameHash in m && m[nameHash] in s.disk {
        assert IsFileOf(s, nameHash, m[nameHash]);
      }
    }
  }

  lemma FileMapMaps(files: set<string>)
    requires !Collide(files)
    ensures Maps(FileMapWithoutCollision(files), files)
  {
    hide NameHash;
  }

  lemma StepKeeps(s: Server, step: Step)
    requires Inv(s) && Enabled(s, step)
    ensures Inv(Apply(s, step))
  {
    hide Apply, Inv, Enabled;
    match step
    case WriteFile(file, content) => WriteKeeps(s, file, content);
    case TakeEvent => TakeKeeps(s);
    case SendAbort => SendKeeps(s);
    case Abort(i) => AbortKeeps(s, i);
    case Fire(i) => FireKeeps(s, i);
    case Unlist(i) => UnlistKeeps(s, i);
    case Purge(i) => PurgeKeeps(s, i);
    case CloseChan(i) => CloseKeeps(s, i);
    case Request(nameHash, offset) => RequestKeeps(s, nameHash, offset);
  }

  // ----- Runs

  /** The server after main has built the file map, with nothing cached. */
  ghost predicate Initial(s: Server) {
    && FileMapOf(s.disk.Keys) == Some(s.fileMap)
    && s.cache == map[] && s.queue == [] && s.watcher.Idle? && s.waitMap == map[] && s.chans == [] && s.workers == []
    && !s.stopped
  }

  ghost predicate IsRun(states: seq<Server>, steps: seq<Step>) {
    && |states| == |steps| + 1
    && Initial(states[0])
    && forall i :: 0 <= i < |steps| ==> Enabled(states[i], steps[i]) && states[i + 1] == Apply(states[i], steps[i])
  }

  lemma {:induction false} RunKeeps(states: seq<Server>, steps: seq<Step>, n: nat)
    requires IsRun(states, steps) && n <= |steps|
    ensures Inv(states[n])
    decreases n
  {
    hide Apply, Enabled;
    if n == 0 {
      InitialInv(states[0]);
    } else {
      RunKeeps(states, steps, n - 1);
      hide Inv;
      StepKeeps(states[n - 1], steps[n - 1]);
    }
  }

  lemma InitialInv(s: Server)
    requires Initial(s)
    ensures Inv(s)
  {}

  // ----- What it is for

  /** Some goroutine will delete the file's cache entry: it has fired or is about to purge, or more of them
      wait on an open channel than there are tokens to stop them. */
  ghost predicate Bound(s: Server, file: string) {
    || (exists i :: 0 <= i < |s.workers| && s.workers[i].file == file
                    && (s.workers[i].phase.Fired? || s.workers[i].phase.Unlisted?))
    || (exists ch :: 0 <= ch < |s.chans| && s.chans[ch].file == file && !s.chans[ch].closed
                     && Count(s.workers, ch, Waiting) > s.chans[ch].tokens)
  }

  /** In every state of every run each cached entry is the file's present content, or a write event for the
      file is still queued, or some goroutine is bound to delete the entry. */
  lemma CacheCoherent(states: seq<Server>, steps: seq<Step>, n: nat, h: Hash)
    requires IsRun(states, steps) && n <= |steps| && h in states[n].cache
    ensures var s := states[n];
            && h in s.fileMap && s.fileMap[h] in s.disk
            && (s.cache[h] == s.disk[s.fileMap[h]] || s.fileMap[h] in s.queue || Bound(s, s.fileMap[h]))
  {
    RunKeeps(states, steps, n);
    var s := states[n];
    var f := s.fileMap[h];
    if s.cache[h] != s.disk[f] && f !in s.queue {
      DueIsBound(s, f);
    }
  }

  lemma DueIsBound(s: Server, file: string)
    requires Inv(s) && DeletionDue(s, file) && file !in s.queue
    ensures Bound(s, file)
  {
    if file in s.waitMap {
      var ch := s.waitMap[file];
      if Count(s.workers, ch, Fired) > 0 {
        if forall i :: 0 <= i < |s.workers| ==> s.workers[i].ch != ch || s.workers[i].phase != Fired {
          CountNone(s.workers, ch, Fired);
        }
        var i :| 0 <= i < |s.workers| && s.workers[i].ch == ch && s.workers[i].phase == Fired;
        assert s.workers[i].file == file;
      }
    } else {
      var i :| 0 <= i < |s.workers| && AboutToPurge(s.workers[i], file);
      assert s.workers[i].file == file && s.workers[i].phase.Unlisted?;
    }
  }

  /** Once the queue is empty and all goroutines are gone, everything cached is up to date. */
  lemma SettledCacheIsFresh(states: seq<Server>, steps: seq<Step>, n: nat, h: Hash)
    requires IsRun(states, steps) && n <= |steps| && h in states[n].cache
    requires states[n].queue == [] && forall w <- states[n].workers :: w.phase.Gone?
    ensures h in states[n].fileMap && states[n].fileMap[h] in states[n].disk
    ensures states[n].cache[h] == states[n].disk[states[n].fileMap[h]]
  {
    CacheCoherent(states, steps, n, h);
    var s := states[n];
    if Bound(s, s.fileMap[h]) {
      var ch :| 0 <= ch < |s.chans| && Count(s.workers, ch, Waiting) > s.chans[ch].tokens;
      CountNone(s.workers, ch, Waiting);
    }
  }

  /** The watcher never sends on a closed channel. */
  lemma SendsFindOpenChannel(states: seq<Server>, steps: seq<Step>, n: nat)
    requires IsRun(states, steps) && n < |steps| && steps[n].SendAbort?
    ensures !states[n + 1].stopped
  {
    RunKeeps(states, steps, n);
    SendKeeps(states[n]);
  }

  // ----- What the hash of a path is

  function Power33(n: nat): nat {
    if n == 0 then 1 else 33 * Power33(n - 1)
  }

  /** The characters weighted by powers of 33, the last one by 1. */
  function Weighted(name: string): nat {
    if name == [] then 0 else name[0] as int * Power33(|name| - 1) + Weighted(name[1..])
  }

  lemma {:induction false} WeightedSnoc(name: string)
    requires name != []
    ensures Weighted(name) == Weighted(name[..|name| - 1]) * 33 + name[|name| - 1] as int
    decreases |name|
  {
    var n := |name| - 1;
    if n > 0 {
      WeightedSnoc(name[1..]);
      assert name[..n][1..] == name[1..][..n - 1];
      assert name[0] as int * (33 * Power33(n - 1)) == (name[0] as int * Power33(n - 1)) * 33;
    } else {
      assert name[..0] == [] && name[1..] == [];
    }
  }

  lemma ModStep(a: int, b: int, c: int)
    requires a == b % 0x1_0000_0000
    ensures (a * 33 + c) % 0x1_0000_0000 == (b * 33 + c) % 0x1_0000_0000
  {
    var q := b / 0x1_0000_0000;
    assert b == a + q * 0x1_0000_0000;
    assert b * 33 + c == a * 33 + c + (q * 33) * 0x1_0000_0000;
  }

  lemma {:induction false} Djb2IsPolynomial(name: string)
    ensures Djb2(name) == (5381 * Power33(|name|) + Weighted(name)) % 0x1_0000_0000
    decreases |name|
  {
    if name != [] {
      var n := |name| - 1;
      Djb2IsPolynomial(name[..n]);
      WeightedSnoc(name);
      ModStep(Djb2(name[..n]), 5381 * Power33(n) + Weighted(name[..n]), name[n] as int);
    }
  }

  lemma {:induction false} AfterSlash(dir: string, name: string)
    requires '/' !in name && (dir != [] ==> dir[|dir| - 1] == '/')
    ensures AfterLastSlash(dir + name) == name
    decreases |name|
  {
    var path := dir + name;
    if name == [] {
      assert path == dir;
    } else {
      var n := |name| - 1;
      assert path[..|path| - 1] == dir + name[..n] && path[|path| - 1] == name[n];
      AfterSlash(dir, name[..n]);
    }
  }

  lemma {:induction false} BeforeDot(stem: string, ext: string)
    requires '.' !in ext
    ensures BeforeLastDot(stem + ['.'] + ext) == stem
    decreases |ext|
  {
    var name := stem + ['.'] + ext;
    assert name[|stem|] == '.';
    if ext == [] {
      assert name[..|name| - 1] == stem;
    } else {
      assert name[..|name| - 1] == stem + ['.'] + ext[..|ext| - 1];
      BeforeDot(stem, ext[..|ext| - 1]);
    }
  }

  /** A file is listed under the hash of its name: what stands between the last slash, if there is one, and the last
      dot behind it, if there is one.  The hash is a polynomial in 33, cut to 32 bits. */
  lemma HashOfPath(dir: string, name: string, ext: string)
    requires '/' !in name + ext && '.' !in ext && (dir != [] ==> dir[|dir| - 1] == '/')
    ensures var h := (5381 * Power33(|name|) + Weighted(name)) % 0x1_0000_0000;
            NameHash(dir + (name + ['.'] + ext)) == h && ('.' !in name ==> NameHash(dir + name) == h)
  {
    var file := name + ['.'] + ext;
    assert forall c :: c in file ==> c in name + ext || c == '.';
    assert forall c :: c in name ==> c in name + ext;
    AfterSlash(dir, file);
    AfterSlash(dir, name);
    BeforeDot(name, ext);
    Djb2IsPolynomial(name);
  }
}
