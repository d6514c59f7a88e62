/** `SidecarWatcher.snapshot` (infra/serve_http.py): cached sidecar data, validated by a signature that each
    caller reads file by file before it takes the lock. Threads and file writes interleave at every file
    access. A file is known by its version, which every write (a creation or a removal too) raises. */
module SidecarWatcher {
  import opened Options

  type File = nat

  type ThreadId = nat

  /** (modification time, size), or None for a file that is absent. */
  type Signature = Option<(int, int)>

  /** The watched paths, the reads one reload makes (a path may be read more than once, or be read and not
      watched), and the signature each version of a path has. */
  datatype Setup = Setup(files: set<File>, slots: map<nat, File>, sig: (File, nat) -> Signature)

  function AllFiles(c: Setup): set<File> { c.files + c.slots.Values }

  /** `start` holds every version at the moment of the call, `got` the versions whose signatures were
      taken, `read` and `result` the versions whose contents were used. */
  datatype Thread =
    | Collecting(start: map<File, nat>, got: map<File, nat>)
    | Reloading(start: map<File, nat>, got: map<File, nat>, read: map<nat, nat>)
    | Returned(start: map<File, nat>, result: map<nat, nat>)

  /** `stored` is `_signature` and `snapshot` stands for `_snapshot`. History: the versions `stored` was taken
      at, whether the last reload to end raised, and the calls served by a raising reload or by a match
      after one. */
  datatype World = World(version: map<File, nat>, stored: Option<map<File, Signature>>, storedAt: map<File, nat>,
                         snapshot: map<nat, nat>, lock: Option<ThreadId>, threads: map<ThreadId, Thread>,
                         damaged: bool, affected: set<ThreadId>)

  function Signatures(c: Setup, got: map<File, nat>): map<File, Signature> {
    map f | f in got :: c.sig(f, got[f])
  }

  datatype Event =
    | Write(f: File)
    | Call(t: ThreadId)
    | Stat(t: ThreadId, f: File)
    | Enter(t: ThreadId)              // the lock is taken and the signatures compared
    | Read(t: ThreadId, r: nat)
    | Finish(t: ThreadId)             // the snapshot is replaced and the lock released
    | Raise(t: ThreadId)              // the reload raises: logged, the old snapshot is served

  predicate Enabled(c: Setup, w: World, e: Event) {
    match e
    case Write(f) => f in w.version
    case Call(t) => t !in w.threads
    case Stat(t, f) => t in w.threads && w.threads[t].Collecting? && f in c.files && f in w.version && f !in w.threads[t].got
    case Enter(t) => t in w.threads && w.threads[t].Collecting? && w.threads[t].got.Keys == c.files && w.lock == None
    case Read(t, r) =>
      && t in w.threads && w.threads[t].Reloading? && r in c.slots
      && r !in w.threads[t].read && c.slots[r] in w.version
    case Finish(t) => t in w.threads && w.threads[t].Reloading? && w.threads[t].read.Keys == c.slots.Keys
    case Raise(t) => t in w.threads && w.threads[t].Reloading?
  }

  function Set(w: World, t: ThreadId, thread: Thread): World { w.(threads := w.threads[t := thread]) }

  function Next(c: Setup, w: World, e: Event): World
    requires Enabled(c, w, e)
  {
    match e
    case Write(f) => w.(version := w.version[f := w.version[f] + 1])
    case Call(t) => Set(w, t, Collecting(w.version, map[]))
    case Stat(t, f) =>
      var th := w.threads[t];
      Set(w, t, Collecting(th.start, th.got[f := w.version[f]]))
    case Enter(t) =>
      var th := w.threads[t];
      var signature := Signatures(c, th.got);
      if w.stored == Some(signature) then
        Set(w, t, Returned(th.start, w.snapshot)).(affected := w.affected + if w.damaged then {t} else {})
      else Set(w, t, Reloading(th.start, th.got, map[])).(stored := Some(signature), storedAt := th.got, lock := Some(t))
    case Read(t, r) =>
      var th := w.threads[t];
      Set(w, t, Reloading(th.start, th.got, th.read[r := w.version[c.slots[r]]]))
    case Finish(t) =>
      var th := w.threads[t];
      Set(w, t, Returned(th.start, th.read)).(snapshot := th.read, lock := None, damaged := false)
    case Raise(t) =>
      Set(w, t, Returned(w.threads[t].start, w.snapshot)).(lock := None, damaged := true, affected := w.affected + {t})
  }

  function Start(c: Setup): World {
    World(map f | f in AllFiles(c) :: 0, None, map[], map[], None, map[], false, {})
  }

  ghost predicate Step(c: Setup, w: World, e: Event, w': World) {
    Enabled(c, w, e) && w' == Next(c, w, e)
  }

  ghost predicate Reached(c: Setup, w: World, events: seq<Event>)
    decreases |events|
  {
    if events == [] then w == Start(c)
    else
      var last := events[|events| - 1];
      exists v :: Reached(c, v, events[..|events| - 1]) && Step(c, v, last, w)
  }

  /** The file is watched and no two versions of it have the same signature: it does not recur after
      changing. */
  ghost predicate Tracked(c: Setup, f: File) {
    f in c.files && forall v, w {:trigger c.sig(f, v), c.sig(f, w)} :: c.sig(f, v) == c.sig(f, w) ==> v == w
  }

  ghost function TrackedPart(c: Setup, version: map<File, nat>): map<File, nat> {
    map f | f in version && Tracked(c, f) :: version[f]
  }

  ghost predicate NoReloadRaises(events: seq<Event>) {
    forall i :: 0 <= i < |events| ==> !events[i].Raise?
  }

  // ----- what every reachable world satisfies -----

  /** Everything read is at least as new as `floor` for its file, and no newer than the file is now. */
  ghost predicate ReadsSince(c: Setup, version: map<File, nat>, read: map<nat, nat>, floor: map<File, nat>) {
    forall r :: r in read ==>
      r in c.slots && c.slots[r] in version && read[r] <= version[c.slots[r]]
      && (c.slots[r] in floor ==> floor[c.slots[r]] <= read[r])
  }

  ghost predicate Between(version: map<File, nat>, low: map<File, nat>, high: map<File, nat>) {
    forall f :: f in high ==> f in low && f in version && low[f] <= high[f] <= version[f]
  }

  ghost predicate GoodStart(c: Setup, version: map<File, nat>, th: Thread) {
    th.start.Keys == AllFiles(c) && Between(version, th.start, th.start)
  }

  ghost predicate GoodThread(c: Setup, version: map<File, nat>, th: Thread) {
    && GoodStart(c, version, th)
    && match th
       case Collecting(start, got) => Between(version, start, got)
       case Reloading(start, got, read) =>
         && Between(version, start, got) && got.Keys == c.files
         && ReadsSince(c, version, read, got) && ReadsSince(c, version, read, start)
       case Returned(start, result) =>
         result.Keys == c.slots.Keys && ReadsSince(c, version, result, TrackedPart(c, start))
  }

  /** Nothing is promised about what an affected call returned. */
  ghost predicate GoodOrAffected(c: Setup, w: World, t: ThreadId)
    requires t in w.threads
  {
    var th := w.threads[t];
    if t in w.affected then th.Returned? && GoodStart(c, w.version, th) else GoodThread(c, w.version, th)
  }

  ghost predicate GoodThreads(c: Setup, w: World) {
    w.affected <= w.threads.Keys && forall t :: t in w.threads ==> GoodOrAffected(c, w, t)
  }

  /** The thread that reloads holds the lock, and the stored signature is the one it took. */
  ghost predicate GoodLock(c: Setup, w: World) {
    && (forall t :: t in w.threads && w.threads[t].Reloading? <==> w.lock == Some(t))
    && (forall t :: w.lock == Some(t) ==> w.stored.Some? && w.storedAt == w.threads[t].got)
  }

  /** While nobody reloads and the last reload did not raise, the snapshot is at least as new as the stored
      signature. */
  ghost predicate GoodCache(c: Setup, w: World) {
    && (w.stored.Some? ==> w.storedAt.Keys == c.files && w.stored.value == Signatures(c, w.storedAt))
    && (w.stored.Some? && w.lock == None && !w.damaged ==>
          w.snapshot.Keys == c.slots.Keys && ReadsSince(c, w.version, w.snapshot, w.storedAt))
  }

  ghost predicate Inv(c: Setup, w: World) {
    w.version.Keys == AllFiles(c) && GoodThreads(c, w) && GoodLock(c, w) && GoodCache(c, w)
  }

  /** A signature that matches means that the versions of the tracked files match. */
  lemma SameSignaturesSameVersions(c: Setup, got: map<File, nat>, stored: map<File, nat>)
    requires got.Keys == c.files && stored.Keys == c.files
    requires Signatures(c, got) == Signatures(c, stored)
    ensures forall f :: Tracked(c, f) ==> got[f] == stored[f]
  {
    forall f | Tracked(c, f) ensures got[f] == stored[f] {
      assert Signatures(c, got)[f] == c.sig(f, got[f]) && Signatures(c, stored)[f] == c.sig(f, stored[f]);
    }
  }

  ghost predicate Newer(version: map<File, nat>, later: map<File, nat>) {
    version.Keys == later.Keys && forall f :: f in version ==> version[f] <= later[f]
  }

  lemma ReadsStayOld(c: Setup, version: map<File, nat>, later: map<File, nat>, read: map<nat, nat>, floor: map<File, nat>)
    requires Newer(version, later) && ReadsSince(c, version, read, floor)
    ensures ReadsSince(c, later, read, floor)
  {
  }

  lemma BetweenStays(version: map<File, nat>, later: map<File, nat>, low: map<File, nat>, high: map<File, nat>)
    requires Newer(version, later) && Between(version, low, high)
    ensures Between(later, low, high)
  {
  }

  lemma ThreadStaysGood(c: Setup, version: map<File, nat>, later: map<File, nat>, th: Thread)
    requires Newer(version, later) && GoodThread(c, version, th)
    ensures GoodThread(c, later, th)
  {
    hide ReadsSince, TrackedPart, Between, AllFiles;
    BetweenStays(version, later, th.start, th.start);
    match th
    case Collecting(start, got) => BetweenStays(version, later, start, got);
    case Reloading(start, got, read) =>
      BetweenStays(version, later, start, got);
      ReadsStayOld(c, version, later, read, got);
      ReadsStayOld(c, version, later, read, start);
    case Returned(start, result) => ReadsStayOld(c, version, later, result, TrackedPart(c, start));
  }

  lemma StartStaysGood(c: Setup, version: map<File, nat>, later: map<File, nat>, th: Thread)
    requires Newer(version, later) && GoodStart(c, version, th)
    ensures GoodStart(c, later, th)
  {
  }

  lemma WriteKeepsInv(c: Setup, w: World, f: File)
    requires Inv(c, w) && Enabled(c, w, Write(f))
    ensures Inv(c, Next(c, w, Write(f)))
  {
    hide Signatures, ReadsSince, GoodThread, GoodStart;
    var w' := Next(c, w, Write(f));
    forall t | t in w'.threads ensures GoodOrAffected(c, w', t) {
      assert GoodOrAffected(c, w, t);
      if t in w.affected {
        StartStaysGood(c, w.version, w'.version, w.threads[t]);
      } else {
        ThreadStaysGood(c, w.version, w'.version, w.threads[t]);
      }
    }
    if w.stored.Some? && w.lock == None && !w.damaged { ReadsStayOld(c, w.version, w'.version, w.snapshot, w.storedAt); }
  }

  /** A step of one thread that leaves the files alone leaves the other threads alone. */
  lemma OthersStayGood(c: Setup, w: World, w': World, t: ThreadId)
    requires GoodThreads(c, w) && w'.version == w.version
    requires t in w'.threads && w'.threads.Keys == w.threads.Keys + {t}
    requires forall u :: u in w.threads && u != t ==> w'.threads[u] == w.threads[u]
    requires w.affected <= w'.affected <= w.affected + {t} && GoodOrAffected(c, w', t)
    ensures GoodThreads(c, w')
  {
    hide GoodThread, GoodStart;
    forall u | u in w'.threads ensures GoodOrAffected(c, w', u) {
      if u != t { assert GoodOrAffected(c, w, u); }
    }
  }

  lemma CollectKeepsInv(c: Setup, w: World, e: Event)
    requires Inv(c, w) && Enabled(c, w, e) && (e.Call? || e.Stat?)
    ensures Inv(c, Next(c, w, e))
  {
    hide Signatures, GoodThreads, ReadsSince, TrackedPart, AllFiles;
    GoodThreadOf(c, w, e.t);
    OthersStayGood(c, w, Next(c, w, e), e.t);
  }

  lemma GoodThreadOf(c: Setup, w: World, t: ThreadId)
    requires GoodThreads(c, w)
    ensures t in w.threads ==> GoodOrAffected(c, w, t)
    ensures t !in w.threads ==> t !in w.affected
  {
  }

  lemma NothingRead(c: Setup, version: map<File, nat>, floor: map<File, nat>)
    ensures ReadsSince(c, version, map[], floor)
  {
  }

  /** The key step: a matching signature makes the cached snapshot as new as the caller's own readings. */
  lemma HitKeepsInv(c: Setup, w: World, t: ThreadId)
    requires Inv(c, w) && Enabled(c, w, Enter(t))
    requires w.stored == Some(Signatures(c, w.threads[t].got))
    ensures Inv(c, Next(c, w, Enter(t)))
  {
    hide Signatures, GoodThreads, ReadsSince, Between;
    var w', th := Next(c, w, Enter(t)), w.threads[t];
    GoodThreadOf(c, w, t);
    SameSignaturesSameVersions(c, th.got, w.storedAt);
    if !w.damaged {
      assert forall f :: f in th.start && Tracked(c, f) ==> th.start[f] <= th.got[f] by { StartBeforeGot(c, w.version, th); }
      SinceTracked(c, w.version, w.snapshot, w.storedAt, th.start);
    }
    OthersStayGood(c, w, w', t);
  }

  lemma MissKeepsInv(c: Setup, w: World, t: ThreadId)
    requires Inv(c, w) && Enabled(c, w, Enter(t))
    requires w.stored != Some(Signatures(c, w.threads[t].got))
    ensures Inv(c, Next(c, w, Enter(t)))
  {
    hide Signatures, GoodThreads, ReadsSince, Between;
    var w' := Next(c, w, Enter(t));
    GoodThreadOf(c, w, t);
    NothingRead(c, w.version, w.threads[t].got);
    NothingRead(c, w.version, w.threads[t].start);
    OthersStayGood(c, w, w', t);
  }

  lemma StartBeforeGot(c: Setup, version: map<File, nat>, th: Thread)
    requires th.Collecting? && Between(version, th.start, th.got) && th.got.Keys == c.files
    ensures forall f :: f in th.start && Tracked(c, f) ==> th.start[f] <= th.got[f]
  {
  }

  lemma SinceTracked(c: Setup, version: map<File, nat>, read: map<nat, nat>, floor: map<File, nat>, start: map<File, nat>)
    requires ReadsSince(c, version, read, floor)
    requires forall f :: f in start && Tracked(c, f) ==> f in floor && start[f] <= floor[f]
    ensures ReadsSince(c, version, read, TrackedPart(c, start))
  {
    hide Tracked;
  }

  lemma BetweenItself(version: map<File, nat>, low: map<File, nat>, high: map<File, nat>)
    requires Between(version, low, high)
    ensures Between(version, high, high)
  {
  }

  lemma OneMoreRead(c: Setup, version: map<File, nat>, read: map<nat, nat>, floor: map<File, nat>, r: nat)
    requires ReadsSince(c, version, read, floor) && r in c.slots && c.slots[r] in version
    requires Between(version, floor, floor)
    ensures ReadsSince(c, version, read[r := version[c.slots[r]]], floor)
  {
  }

  lemma ReadKeepsInv(c: Setup, w: World, t: ThreadId, r: nat)
    requires Inv(c, w) && Enabled(c, w, Read(t, r))
    ensures Inv(c, Next(c, w, Read(t, r)))
  {
    hide Signatures, GoodThreads, ReadsSince, Between, AllFiles, TrackedPart;
    var th := w.threads[t];
    GoodThreadOf(c, w, t);
    assert Between(w.version, th.got, th.got) by { BetweenItself(w.version, th.start, th.got); }
    OneMoreRead(c, w.version, th.read, th.got, r);
    OneMoreRead(c, w.version, th.read, th.start, r);
    OthersStayGood(c, w, Next(c, w, Read(t, r)), t);
  }

  lemma FinishKeepsInv(c: Setup, w: World, t: ThreadId)
    requires Inv(c, w) && Enabled(c, w, Finish(t))
    ensures Inv(c, Next(c, w, Finish(t)))
  {
    hide Signatures, GoodThreads, ReadsSince, Between;
    var th := w.threads[t];
    GoodThreadOf(c, w, t);
    SinceTracked(c, w.version, th.read, th.start, th.start);
    OthersStayGood(c, w, Next(c, w, Finish(t)), t);
  }

  lemma RaiseKeepsInv(c: Setup, w: World, t: ThreadId)
    requires Inv(c, w) && Enabled(c, w, Raise(t))
    ensures Inv(c, Next(c, w, Raise(t)))
  {
    hide Signatures, GoodThreads, ReadsSince, Between;
    GoodThreadOf(c, w, t);
    OthersStayGood(c, w, Next(c, w, Raise(t)), t);
  }

  lemma {:induction false} EveryWorldSatisfiesInv(c: Setup, w: World, events: seq<Event>)
    requires Reached(c, w, events)
    ensures Inv(c, w)
    decreases |events|
  {
    hide Inv, Next, Signatures;
    if events == [] {
      StartSatisfiesInv(c);
    } else {
      var before, e := events[..|events| - 1], events[|events| - 1];
      var v :| Reached(c, v, before) && Step(c, v, e, w);
      EveryWorldSatisfiesInv(c, v, before);
      match e {
        case Write(f) => WriteKeepsInv(c, v, f);
        case Enter(t) =>
          if v.stored == Some(Signatures(c, v.threads[t].got)) { HitKeepsInv(c, v, t); } else { MissKeepsInv(c, v, t); }
        case Read(t, r) => ReadKeepsInv(c, v, t, r);
        case Finish(t) => FinishKeepsInv(c, v, t);
        case Raise(t) => RaiseKeepsInv(c, v, t);
        case _ => CollectKeepsInv(c, v, e);
      }
    }
  }

  /** Without a raising reload no call is affected. */
  lemma {:induction false} NoRaiseNoDamage(c: Setup, w: World, events: seq<Event>)
    requires Reached(c, w, events) && NoReloadRaises(events)
    ensures !w.damaged && w.affected == {}
    decreases |events|
  {
    hide Signatures;
    if events != [] {
      var before, e := events[..|events| - 1], events[|events| - 1];
      var v :| Reached(c, v, before) && Step(c, v, e, w);
      assert e in events && NoReloadRaises(before);
      NoRaiseNoDamage(c, v, before);
    }
  }

  lemma StartSatisfiesInv(c: Setup)
    ensures Inv(c, Start(c))
  {
  }

  // ----- the promise of snapshot() -----

  /** What an unaffected call returned of a tracked file was read no earlier than the version present when it was
      made. */
  lemma SnapshotIsFresh(c: Setup, w: World, events: seq<Event>, t: ThreadId, r: nat)
    requires Reached(c, w, events)
    requires t in w.threads && w.threads[t].Returned? && t !in w.affected && r in c.slots
    ensures var th := w.threads[t];
            && r in th.result && c.slots[r] in th.start && c.slots[r] in w.version
            && (Tracked(c, c.slots[r]) ==> th.start[c.slots[r]] <= th.result[r])
            && th.result[r] <= w.version[c.slots[r]]
  {
    hide Tracked, Reached;
    EveryWorldSatisfiesInv(c, w, events);
    assert GoodOrAffected(c, w, t);
    assert c.slots[r] in c.slots.Values;
  }

  /** With no write since the call, it returned what a fresh resolve reads of the tracked files. */
  lemma QuietSnapshotIsCurrent(c: Setup, w: World, events: seq<Event>, t: ThreadId)
    requires Reached(c, w, events)
    requires t in w.threads && w.threads[t].Returned? && t !in w.affected && w.threads[t].start == w.version
    ensures w.threads[t].result.Keys == c.slots.Keys && c.slots.Values <= w.version.Keys
    ensures forall r :: r in c.slots && Tracked(c, c.slots[r]) ==> w.threads[t].result[r] == w.version[c.slots[r]]
  {
    hide Tracked, Reached;
    EveryWorldSatisfiesInv(c, w, events);
    assert GoodOrAffected(c, w, t);
    forall r | r in c.slots && Tracked(c, c.slots[r]) ensures w.threads[t].result[r] == w.version[c.slots[r]] {
      SnapshotIsFresh(c, w, events, t, r);
    }
  }

  // ----- exactly when a call is stale -----

  /** The content of one read is older than its file was then. */
  predicate BehindAt(c: Setup, content: map<nat, nat>, start: map<File, nat>, r: nat) {
    r in c.slots && r in content && c.slots[r] in start && content[r] < start[c.slots[r]]
  }

  /** The call returned, in one read, content that was replaced before it was made. */
  predicate StaleAt(c: Setup, th: Thread, r: nat) { th.Returned? && BehindAt(c, th.result, th.start, r) }

  ghost predicate Stale(c: Setup, th: Thread) { exists r :: StaleAt(c, th, r) }

  /** The step that ends a call of the thread. */
  ghost predicate Serves(c: Setup, w: World, e: Event, t: ThreadId) {
    && Enabled(c, w, e) && t in Next(c, w, e).threads && Next(c, w, e).threads[t].Returned?
    && (t in w.threads ==> !w.threads[t].Returned?)
  }

  lemma Extend(c: Setup, v: World, events: seq<Event>, e: Event)
    requires Reached(c, v, events) && Enabled(c, v, e)
    ensures Reached(c, Next(c, v, e), events + [e])
  {
    hide Next, Enabled;
    var longer := events + [e];
    assert longer[..|longer| - 1] == events && longer[|longer| - 1] == e;
    assert Step(c, v, longer[|longer| - 1], Next(c, v, e));
  }

  /** A call is stale in one read exactly when the content it is served with was replaced before the call was
      made, and it is served by a reload that raises, or by a match while the last reload to end raised or the
      file is not tracked. */
  lemma StaleExactly(c: Setup, w: World, events: seq<Event>, e: Event, t: ThreadId, r: nat)
    requires Reached(c, w, events) && Serves(c, w, e, t) && r in c.slots
    ensures t in w.threads
    ensures StaleAt(c, Next(c, w, e).threads[t], r) <==>
              && (e.Raise? || (e.Enter? && (w.damaged || !Tracked(c, c.slots[r]))))
              && BehindAt(c, w.snapshot, w.threads[t].start, r)
  {
    hide Signatures, Inv, Tracked, BehindAt, Reached;
    ServedBy(c, w, e, t);
    var after := Next(c, w, e);
    Extend(c, w, events, e);
    EveryWorldSatisfiesInv(c, w, events);
    ServedWith(c, w, e, t);
    if e.Finish? {
      ReloadedIsNotStale(c, w, t, r);
    } else if t !in after.affected && Tracked(c, c.slots[r]) {
      FreshIsNotStale(c, after, events + [e], t, r);
    }
  }

  /** A call that reloads is stale in no read. */
  lemma ReloadedIsNotStale(c: Setup, w: World, t: ThreadId, r: nat)
    requires Inv(c, w) && Enabled(c, w, Finish(t))
    ensures !StaleAt(c, Next(c, w, Finish(t)).threads[t], r)
  {
    hide Signatures, GoodLock, GoodCache;
    assert GoodOrAffected(c, w, t);
  }

  lemma ServedBy(c: Setup, w: World, e: Event, t: ThreadId)
    requires Serves(c, w, e, t)
    ensures t in w.threads && e in {Enter(t), Finish(t), Raise(t)}
  {
    hide Signatures;
  }

  lemma ServedWith(c: Setup, w: World, e: Event, t: ThreadId)
    requires Serves(c, w, e, t) && t in w.threads && e in {Enter(t), Finish(t), Raise(t)} && Inv(c, w)
    ensures var after := Next(c, w, e);
            && (t in after.affected <==> e.Raise? || (e.Enter? && w.damaged))
            && after.threads[t].start == w.threads[t].start
            && (!e.Finish? ==> after.threads[t].result == w.snapshot)
  {
    hide Signatures, GoodLock, GoodCache, GoodThread;
    assert GoodOrAffected(c, w, t);
  }

  lemma FreshIsNotStale(c: Setup, w: World, events: seq<Event>, t: ThreadId, r: nat)
    requires Reached(c, w, events) && t in w.threads && t !in w.affected
    requires r in c.slots && Tracked(c, c.slots[r])
    ensures !StaleAt(c, w.threads[t], r)
  {
    hide Reached, Tracked;
    if w.threads[t].Returned? { SnapshotIsFresh(c, w, events, t, r); }
  }

  // ----- the object itself -----

  /** The two fields a call works on while it holds the lock. */
  datatype Fields = Fields(signature: Option<map<File, Signature>>, snapshot: map<nat, nat>)

  function FieldsOf(w: World): Fields { Fields(w.stored, w.snapshot) }

  /** What the locked part of a call makes of them; `loaded` is None when the reload raises. */
  function Locked(was: Fields, taken: map<File, Signature>, loaded: Option<map<nat, nat>>): Fields {
    if was.signature == Some(taken) then was
    else Fields(Some(taken), if loaded.Some? then loaded.value else was.snapshot)
  }

  class Watcher {
    var signature: Option<map<File, Signature>>
    var current: map<nat, nat>

    /** __init__, which ends with a first call of snapshot(); if that call raises there is no watcher. */
    constructor (taken: map<File, Signature>, loaded: map<nat, nat>)
      ensures Fields(signature, current) == Locked(Fields(None, map[]), taken, Some(loaded))
      ensures signature == Some(taken) && current == loaded
    {
      signature, current := None, map[];
      new;
      var _ := Snapshot(taken, Some(loaded));
    }

    /** snapshot(), from the moment it holds the lock with the signature it took. */
    method Snapshot(taken: map<File, Signature>, loaded: Option<map<nat, nat>>) returns (result: map<nat, nat>)
      modifies this
      ensures Fields(signature, current) == Locked(old(Fields(signature, current)), taken, loaded)
      ensures result == current
    {
      if signature != Some(taken) {
        signature := Some(taken);
        if loaded.Some? { current := loaded.value; }
      }
      result := current;
    }
  }

  /** While a thread holds the lock, no step but its own last one touches the fields. */
  lemma LockProtectsFields(c: Setup, w: World, e: Event, t: ThreadId)
    requires Inv(c, w) && w.lock == Some(t) && Enabled(c, w, e)
    ensures FieldsOf(Next(c, w, e)) == FieldsOf(w) || (e in {Finish(t), Raise(t)} && Next(c, w, e).lock == None)
    ensures e !in {Finish(t), Raise(t)} ==> Next(c, w, e).lock == Some(t)
  {
    hide GoodThreads, GoodCache, Signatures;
  }

  /** The step that takes the lock is the method when the signatures match. */
  lemma MatchIsSnapshot(c: Setup, w: World, t: ThreadId, loaded: Option<map<nat, nat>>)
    requires Inv(c, w) && Enabled(c, w, Enter(t)) && Next(c, w, Enter(t)).lock == None
    ensures var after := Next(c, w, Enter(t));
            && FieldsOf(after) == Locked(FieldsOf(w), Signatures(c, w.threads[t].got), loaded)
            && t in after.threads && after.threads[t].Returned? && after.threads[t].result == after.snapshot
  {
    hide Inv, Signatures;
  }

  /** The thread took the lock in w, and the fields are still as that step left them. */
  ghost predicate Holding(c: Setup, w: World, t: ThreadId, later: World) {
    && Enabled(c, w, Enter(t)) && Next(c, w, Enter(t)).lock == Some(t)
    && FieldsOf(later) == FieldsOf(Next(c, w, Enter(t)))
  }

  /** Otherwise the method is the last step of the thread, whatever happened since it took the lock. */
  lemma ReloadIsSnapshot(c: Setup, w: World, t: ThreadId, later: World)
    requires Inv(c, w) && Holding(c, w, t, later) && Enabled(c, later, Finish(t))
    ensures var after, th := Next(c, later, Finish(t)), later.threads[t];
            && FieldsOf(after) == Locked(FieldsOf(w), Signatures(c, w.threads[t].got), Some(th.read))
            && t in after.threads && after.threads[t].Returned? && after.threads[t].result == after.snapshot
  {
    hide Inv, Signatures;
  }

  lemma RaiseIsSnapshot(c: Setup, w: World, t: ThreadId, later: World)
    requires Inv(c, w) && Holding(c, w, t, later) && Enabled(c, later, Raise(t))
    ensures var after := Next(c, later, Raise(t));
            && FieldsOf(after) == Locked(FieldsOf(w), Signatures(c, w.threads[t].got), None)
            && t in after.threads && after.threads[t].Returned? && after.threads[t].result == after.snapshot
  {
    hide Inv, Signatures;
  }
}
