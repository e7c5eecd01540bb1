/** The cache at work: a file is written, several times in a row, and then asked for.  `AssetCache` says what no run
    breaks; here is a run, from any server that is at rest, in which everything happens. */
module CacheUpdate {
  import opened Basics
  import opened AssetCache

  // ----- Sequences of steps

  ghost predicate CanTake(s: Server, steps: seq<Step>)
    decreases |steps|
  {
    steps == [] || (Enabled(s, steps[0]) && CanTake(Apply(s, steps[0]), steps[1..]))
  }

  ghost function After(s: Server, steps: seq<Step>): Server
    requires CanTake(s, steps)
    decreases |steps|
  {
    if steps == [] then s else After(Apply(s, steps[0]), steps[1..])
  }

  lemma {:induction false} TakeBoth(s: Server, a: seq<Step>, b: seq<Step>)
    requires CanTake(s, a) && CanTake(After(s, a), b)
    ensures CanTake(s, a + b) && After(s, a + b) == After(After(s, a), b)
    decreases |a|
  {
    hide Enabled, Apply;
    if a == [] {
      assert a + b == b;
    } else {
      assert (a + b)[1..] == a[1..] + b;
      TakeBoth(Apply(s, a[0]), a[1..], b);
    }
  }

  lemma TakeOne(s: Server, step: Step)
    requires Enabled(s, step)
    ensures CanTake(s, [step]) && After(s, [step]) == Apply(s, step)
  {
    hide Enabled, Apply;
    assert [step][1..] == [];
  }

  // ----- States on the way

  /** Nothing is going on. */
  ghost predicate Quiet(s: Server) {
    !s.stopped && s.queue == [] && s.watcher.Idle? && s.waitMap == map[] && forall w <- s.workers :: w.phase.Gone?
  }

  /** The goroutine of the last write waits for its timer, and nothing else is going on. */
  ghost predicate OneWaits(s: Server, file: string) {
    && !s.stopped && s.queue == [] && s.watcher.Idle? && s.workers != [] && s.chans != []
    && var (i, ch) := (|s.workers| - 1, |s.chans| - 1);
       && s.waitMap == map[file := ch] && s.chans[ch] == Chan(file, 0, false)
       && s.workers[i] == Worker(file, ch, Waiting) && forall w <- s.workers[..i] :: w.phase.Gone?
  }

  /** The server knows the same files, and holds the same of them. */
  ghost predicate SameCache(s: Server, t: Server) {
    t.fileMap == s.fileMap && t.cache == s.cache
  }

  lemma FirstWrite(s: Server, file: string, content: Content)
    requires Quiet(s)
    ensures var steps := [WriteFile(file, content), TakeEvent];
            CanTake(s, steps)
            && var t := After(s, steps);
               && OneWaits(t, file) && SameCache(s, t) && t.disk == s.disk[file := content]
               && |t.workers| == |s.workers| + 1
  {
    hide CanTake, After;
    var written := Apply(s, WriteFile(file, content));
    TakeOne(s, WriteFile(file, content));
    TakeOne(written, TakeEvent);
    TakeBoth(s, [WriteFile(file, content)], [TakeEvent]);
    assert [WriteFile(file, content)] + [TakeEvent] == [WriteFile(file, content), TakeEvent];
    var t := Apply(written, TakeEvent);
    assert t.workers[..|t.workers| - 1] == s.workers;
  }

  /** Another write before the timer runs out: the waiting goroutine is told to stop, and a new one waits. */
  lemma NextWrite(s: Server, file: string, content: Content)
    requires OneWaits(s, file)
    ensures var steps := [WriteFile(file, content), TakeEvent, SendAbort, Abort(|s.workers| - 1)];
            CanTake(s, steps)
            && var t := After(s, steps);
               && OneWaits(t, file) && SameCache(s, t) && t.disk == s.disk[file := content]
               && |t.workers| == |s.workers| + 1
  {
    hide CanTake, After;
    var i := |s.workers| - 1;
    var (a, b, c, d) := (WriteFile(file, content), TakeEvent, SendAbort, Abort(i));
    var s1 := Apply(s, a);
    var s2 := Apply(s1, b);
    var s3 := Apply(s2, c);
    Aborted(s, file, content);
    TakeOne(s, a);
    TakeOne(s1, b);
    TakeOne(s2, c);
    TakeOne(s3, d);
    TakeBoth(s, [a], [b]);
    TakeBoth(s, [a] + [b], [c]);
    TakeBoth(s, [a] + [b] + [c], [d]);
    assert [a] + [b] + [c] + [d] == [a, b, c, d];
  }

  lemma Aborted(s: Server, file: string, content: Content)
    requires OneWaits(s, file)
    ensures Enabled(s, WriteFile(file, content))
    ensures var s1 := Apply(s, WriteFile(file, content));
            Enabled(s1, TakeEvent)
            && var s2 := Apply(s1, TakeEvent);
               Enabled(s2, SendAbort)
               && var s3 := Apply(s2, SendAbort);
                  Enabled(s3, Abort(|s.workers| - 1))
                  && var t := Apply(s3, Abort(|s.workers| - 1));
                     && OneWaits(t, file) && SameCache(s, t) && t.disk == s.disk[file := content]
                     && |t.workers| == |s.workers| + 1
  {
    var (i, ch) := (|s.workers| - 1, |s.chans| - 1);
    var s2 := Apply(Apply(s, WriteFile(file, content)), TakeEvent);
    assert s2 == s.(disk := s.disk[file := content], watcher := Sending(file));
    var t := Apply(Apply(s2, SendAbort), Abort(i));
    assert t.chans == s.chans;
    assert t.workers == s.workers[..i] + [Worker(file, ch, Gone), Worker(file, ch, Waiting)];
  }

  /** The timer runs out. */
  lemma Settles(s: Server, file: string)
    requires OneWaits(s, file)
    ensures var i := |s.workers| - 1;
            var steps := [Fire(i), Unlist(i), Purge(i), CloseChan(i)];
            CanTake(s, steps)
            && var t := After(s, steps);
               && Quiet(t) && t.fileMap == s.fileMap && t.disk == s.disk && t.cache == s.cache - {NameHash(file)}
  {
    hide CanTake, After, NameHash;
    var i := |s.workers| - 1;
    var (a, b, c, d) := (Fire(i), Unlist(i), Purge(i), CloseChan(i));
    var s1 := Apply(s, a);
    var s2 := Apply(s1, b);
    var s3 := Apply(s2, c);
    Fired(s, file);
    TakeOne(s, a);
    TakeOne(s1, b);
    TakeOne(s2, c);
    TakeOne(s3, d);
    TakeBoth(s, [a], [b]);
    TakeBoth(s, [a] + [b], [c]);
    TakeBoth(s, [a] + [b] + [c], [d]);
    assert [a] + [b] + [c] + [d] == [a, b, c, d];
  }

  lemma Fired(s: Server, file: string)
    requires OneWaits(s, file)
    ensures var i := |s.workers| - 1;
            Enabled(s, Fire(i))
            && var s1 := Apply(s, Fire(i));
               Enabled(s1, Unlist(i))
               && var s2 := Apply(s1, Unlist(i));
                  Enabled(s2, Purge(i))
                  && var s3 := Apply(s2, Purge(i));
                     Enabled(s3, CloseChan(i))
                     && var t := Apply(s3, CloseChan(i));
                        Quiet(t) && t.fileMap == s.fileMap && t.disk == s.disk && t.cache == s.cache - {NameHash(file)}
  {
    hide NameHash;
    var (i, ch) := (|s.workers| - 1, |s.chans| - 1);
    var s3 := Apply(Apply(Apply(s, Fire(i)), Unlist(i)), Purge(i));
    assert s3 == s.(workers := s.workers[i := Worker(file, ch, Purged)], waitMap := map[],
                    cache := s.cache - {NameHash(file)});
    var t := Apply(s3, CloseChan(i));
    assert t.workers == s.workers[..i] + [Worker(file, ch, Gone)];
  }

  // ----- A burst of writes

  /** The steps of writing the file again and again, from the first write on; n goroutines have been started before. */
  function Rewrites(n: nat, file: string, contents: seq<Content>): seq<Step>
    requires contents != []
    decreases |contents|
  {
    var (k, last) := (|contents| - 1, contents[|contents| - 1]);
    if k == 0 then [WriteFile(file, last), TakeEvent]
    else Rewrites(n, file, contents[..k]) + [WriteFile(file, last), TakeEvent, SendAbort, Abort(n + k - 1)]
  }

  lemma {:induction false} RewritesWait(s: Server, file: string, contents: seq<Content>)
    requires Quiet(s) && contents != []
    ensures CanTake(s, Rewrites(|s.workers|, file, contents))
    ensures var t := After(s, Rewrites(|s.workers|, file, contents));
            && OneWaits(t, file) && SameCache(s, t) && t.disk == s.disk[file := contents[|contents| - 1]]
            && |t.workers| == |s.workers| + |contents|
    decreases |contents|
  {
    hide CanTake, After, OneWaits, Quiet;
    var (n, k, last) := (|s.workers|, |contents| - 1, contents[|contents| - 1]);
    if k == 0 {
      FirstWrite(s, file, last);
    } else {
      RewritesWait(s, file, contents[..k]);
      var t := After(s, Rewrites(n, file, contents[..k]));
      NextWrite(t, file, last);
      TakeBoth(s, Rewrites(n, file, contents[..k]), [WriteFile(file, last), TakeEvent, SendAbort, Abort(n + k - 1)]);
    }
  }

  /** The goroutine of the last write removes the file from the cache; then a client asks for it. */
  function PurgeAndAsk(i: nat, nameHash: Hash, offset: Hash): seq<Step> {
    [Fire(i), Unlist(i), Purge(i), CloseChan(i)] + [Request(nameHash, offset)]
  }

  /** However often a listed file is written in a row, only the last of the goroutines that are started removes it
      from the cache; the next request finds what was written last, and caches it; every other entry stays; and the
      server is at rest again. */
  lemma RewrittenFileIsServed(s: Server, file: string, contents: seq<Content>, offset: Hash)
    requires Quiet(s) && contents != [] && NameHash(file) in s.fileMap && s.fileMap[NameHash(file)] == file
    requires NameHash(file) != 0xFFFF_FFFF || offset != 0xFFFF_FFFF
    ensures var steps := Rewrites(|s.workers|, file, contents)
                         + PurgeAndAsk(|s.workers| + |contents| - 1, NameHash(file), offset);
            CanTake(s, steps)
            && var t := After(s, steps);
               && Quiet(t) && t.cache == s.cache[NameHash(file) := contents[|contents| - 1]]
               && t.disk == s.disk[file := contents[|contents| - 1]] && t.fileMap == s.fileMap
  {
    hide CanTake, After, OneWaits, NameHash;
    var (rewrites, h) := (Rewrites(|s.workers|, file, contents), NameHash(file));
    RewritesWait(s, file, contents);
    var waiting := After(s, rewrites);
    Settles(waiting, file);
    var i := |waiting.workers| - 1;
    var settled := After(waiting, [Fire(i), Unlist(i), Purge(i), CloseChan(i)]);
    RequestServes(settled, h, offset);
    TakeOne(settled, Request(h, offset));
    TakeBoth(waiting, [Fire(i), Unlist(i), Purge(i), CloseChan(i)], [Request(h, offset)]);
    TakeBoth(s, rewrites, PurgeAndAsk(i, h, offset));
    ServedAnew(settled, h, offset);
  }

  lemma ServedAnew(s: Server, nameHash: Hash, offset: Hash)
    requires !s.stopped && nameHash in s.fileMap && s.fileMap[nameHash] in s.disk && nameHash !in s.cache
    requires nameHash != 0xFFFF_FFFF || offset != 0xFFFF_FFFF
    ensures Apply(s, Request(nameHash, offset)) == s.(cache := s.cache[nameHash := s.disk[s.fileMap[nameHash]]])
  {}
}
