/** Which files `SidecarWatcher.snapshot` (infra/serve_http.py) keeps fresh, for any choice of files watched and
    files read: one that is not watched, a recurring signature, or a raising reload serves replaced content. */
module SidecarStaleness {
  import opened Options
  import opened SidecarWatcher

  /** What a reload reads while nothing is written. */
  function Fresh(c: Setup, version: map<File, nat>): map<nat, nat> {
    map r | r in c.slots && c.slots[r] in version :: version[c.slots[r]]
  }

  function Watched(c: Setup, version: map<File, nat>): map<File, nat> {
    map f | f in version && f in c.files :: version[f]
  }

  // ----- one call, undisturbed -----

  lemma SetTwice(w: World, t: ThreadId, first: Thread, second: Thread)
    ensures Set(Set(w, t, first), t, second) == Set(w, t, second)
  {
  }

  lemma SetSame(w: World, t: ThreadId)
    requires t in w.threads
    ensures Set(w, t, w.threads[t]) == w
  {
    assert w.threads[t := w.threads[t]] == w.threads;
  }

  lemma SetIs(w: World, t: ThreadId, th: Thread)
    ensures var u := Set(w, t, th);
            && t in u.threads && u.threads[t] == th && u.version == w.version
  {
  }

  lemma ReadOne(c: Setup, v: World, events: seq<Event>, t: ThreadId, r: nat)
    requires Reached(c, v, events) && Enabled(c, v, Read(t, r))
    ensures var th := v.threads[t];
            Reached(c, Set(v, t, Reloading(th.start, th.got, th.read[r := v.version[c.slots[r]]])), events + [Read(t, r)])
  {
    hide Reached;
    Extend(c, v, events, Read(t, r));
  }

  lemma StatOne(c: Setup, v: World, events: seq<Event>, t: ThreadId, f: File)
    requires Reached(c, v, events) && Enabled(c, v, Stat(t, f))
    ensures var th := v.threads[t];
            Reached(c, Set(v, t, Collecting(th.start, th.got[f := v.version[f]])), events + [Stat(t, f)])
  {
    hide Reached;
    Extend(c, v, events, Stat(t, f));
  }

  /** Thread t takes the signatures it has not taken yet. */
  lemma {:induction false} StatRest(c: Setup, v: World, events: seq<Event>, t: ThreadId) returns (more: seq<Event>)
    requires Reached(c, v, events) && v.version.Keys == AllFiles(c)
    requires t in v.threads && v.threads[t].Collecting?
    requires forall f :: f in v.threads[t].got ==> f in c.files && v.threads[t].got[f] == v.version[f]
    ensures Reached(c, Set(v, t, Collecting(v.threads[t].start, Watched(c, v.version))), more)
    ensures NoReloadRaises(events) ==> NoReloadRaises(more)
    decreases c.files - v.threads[t].got.Keys
  {
    hide Reached, Next, Set;
    var th := v.threads[t];
    SetSame(v, t);
    if f :| f in c.files && f !in th.got {
      StatOne(c, v, events, t, f);
      var got := th.got[f := v.version[f]];
      var u := Set(v, t, Collecting(th.start, got));
      SetIs(v, t, Collecting(th.start, got));
      assert f in c.files - th.got.Keys && c.files - got.Keys == c.files - th.got.Keys - {f};
      more := StatRest(c, u, events + [Stat(t, f)], t);
      SetTwice(v, t, Collecting(th.start, got), Collecting(th.start, Watched(c, v.version)));
    } else {
      assert th.got == Watched(c, v.version);
      more := events;
    }
  }

  /** Thread t calls and takes the signatures of the versions there are. */
  lemma CallAndStat(c: Setup, v: World, events: seq<Event>, t: ThreadId) returns (more: seq<Event>)
    requires Reached(c, v, events) && v.version.Keys == AllFiles(c) && t !in v.threads
    ensures Reached(c, Set(v, t, Collecting(v.version, Watched(c, v.version))), more)
    ensures NoReloadRaises(events) ==> NoReloadRaises(more)
  {
    hide Reached;
    Extend(c, v, events, Call(t));
    var u := Next(c, v, Call(t));
    more := StatRest(c, u, events + [Call(t)], t);
    var done := Collecting(v.version, Watched(c, v.version));
    assert Set(u, t, done) == Set(v, t, done);
  }

  /** A call whose signatures match the stored ones returns the cached content. */
  lemma CallHits(c: Setup, v: World, events: seq<Event>, t: ThreadId) returns (w: World, more: seq<Event>)
    requires Reached(c, v, events) && v.version.Keys == AllFiles(c) && t !in v.threads
    requires v.lock == None && v.stored == Some(Signatures(c, Watched(c, v.version)))
    ensures Reached(c, w, more) && (NoReloadRaises(events) ==> NoReloadRaises(more))
    ensures w.threads == v.threads[t := Returned(v.version, v.snapshot)]
  {
    hide Reached, Signatures;
    more := CallAndStat(c, v, events, t);
    var u := Set(v, t, Collecting(v.version, Watched(c, v.version)));
    Extend(c, u, more, Enter(t));
    w, more := Next(c, u, Enter(t)), more + [Enter(t)];
  }

  /** A call whose signatures do not match starts a reload. */
  lemma CallMisses(c: Setup, v: World, events: seq<Event>, t: ThreadId) returns (w: World, more: seq<Event>)
    requires Reached(c, v, events) && v.version.Keys == AllFiles(c) && t !in v.threads
    requires v.lock == None && v.stored != Some(Signatures(c, Watched(c, v.version)))
    ensures Reached(c, w, more) && (NoReloadRaises(events) ==> NoReloadRaises(more))
    ensures w.version == v.version && w.snapshot == v.snapshot && w.lock == Some(t)
    ensures w.stored == Some(Signatures(c, Watched(c, v.version)))
    ensures w.threads == v.threads[t := Reloading(v.version, Watched(c, v.version), map[])]
  {
    hide Reached, Signatures;
    more := CallAndStat(c, v, events, t);
    var u := Set(v, t, Collecting(v.version, Watched(c, v.version)));
    Extend(c, u, more, Enter(t));
    w, more := Next(c, u, Enter(t)), more + [Enter(t)];
  }

  /** Thread t reads what it has not read yet. */
  lemma {:induction false} ReadRest(c: Setup, v: World, events: seq<Event>, t: ThreadId) returns (more: seq<Event>)
    requires Reached(c, v, events) && v.version.Keys == AllFiles(c)
    requires t in v.threads && v.threads[t].Reloading?
    requires forall r :: r in v.threads[t].read ==> r in c.slots && v.threads[t].read[r] == v.version[c.slots[r]]
    ensures var th := v.threads[t]; Reached(c, Set(v, t, Reloading(th.start, th.got, Fresh(c, v.version))), more)
    ensures NoReloadRaises(events) ==> NoReloadRaises(more)
    decreases c.slots.Keys - v.threads[t].read.Keys
  {
    hide Reached, Next, Set;
    var th := v.threads[t];
    SetSame(v, t);
    if r :| r in c.slots && r !in th.read {
      ReadOne(c, v, events, t, r);
      var read := th.read[r := v.version[c.slots[r]]];
      var u := Set(v, t, Reloading(th.start, th.got, read));
      SetIs(v, t, Reloading(th.start, th.got, read));
      assert r in c.slots.Keys - th.read.Keys && c.slots.Keys - read.Keys == c.slots.Keys - th.read.Keys - {r};
      more := ReadRest(c, u, events + [Read(t, r)], t);
      SetTwice(v, t, Reloading(th.start, th.got, read), Reloading(th.start, th.got, Fresh(c, v.version)));
    } else {
      assert th.read == Fresh(c, v.version);
      more := events;
    }
  }

  /** The world after a reload that read everything. */
  lemma ReloadFinishes(c: Setup, v: World, events: seq<Event>, t: ThreadId) returns (w: World, more: seq<Event>)
    requires Reached(c, v, events) && v.version.Keys == AllFiles(c)
    requires t in v.threads && v.threads[t].Reloading? && v.threads[t].read == map[]
    ensures Reached(c, w, more) && (NoReloadRaises(events) ==> NoReloadRaises(more))
    ensures w.version == v.version && w.stored == v.stored && w.lock == None && w.snapshot == Fresh(c, v.version)
    ensures w.threads.Keys == v.threads.Keys
  {
    hide Reached;
    more := ReadRest(c, v, events, t);
    var u := Set(v, t, Reloading(v.threads[t].start, v.threads[t].got, Fresh(c, v.version)));
    Extend(c, u, more, Finish(t));
    w, more := Next(c, u, Finish(t)), more + [Finish(t)];
  }

  lemma {:induction false} WriteTimes(c: Setup, v: World, events: seq<Event>, f: File, n: nat)
    returns (more: seq<Event>)
    requires Reached(c, v, events) && f in v.version
    ensures Reached(c, v.(version := v.version[f := v.version[f] + n]), more)
    ensures NoReloadRaises(events) ==> NoReloadRaises(more)
  {
    hide Reached;
    if n == 0 {
      more := events;
      assert v.version[f := v.version[f]] == v.version;
    } else {
      more := WriteTimes(c, v, events, f, n - 1);
      var u := v.(version := v.version[f := v.version[f] + (n - 1)]);
      Extend(c, u, more, Write(f));
      assert Next(c, u, Write(f)).version == v.version[f := v.version[f] + n];
      more := more + [Write(f)];
    }
  }

  lemma StartIsReached(c: Setup)
    ensures Reached(c, Start(c), [])
  {
  }

  /** The first call, made when one file has been written n times and the others never. */
  lemma FirstCallCaches(c: Setup, f: File, n: nat) returns (w: World, events: seq<Event>)
    requires f in AllFiles(c)
    ensures Reached(c, w, events) && NoReloadRaises(events)
    ensures w.version.Keys == AllFiles(c) && w.version[f] == n && w.lock == None && w.threads.Keys == {0}
    ensures w.stored == Some(Signatures(c, Watched(c, w.version))) && w.snapshot == Fresh(c, w.version)
  {
    hide Reached, Signatures;
    StartIsReached(c);
    var v := Start(c);
    events := WriteTimes(c, v, [], f, n);
    v := v.(version := v.version[f := v.version[f] + n]);
    var u;
    u, events := CallMisses(c, v, events, 0);
    w, events := ReloadFinishes(c, u, events, 0);
  }

  // ----- what goes wrong -----

  lemma OldContentIsBehind(c: Setup, r: nat, version: map<File, nat>, later: map<File, nat>)
    requires r in c.slots && c.slots[r] in version && c.slots[r] in later && version[c.slots[r]] < later[c.slots[r]]
    ensures BehindAt(c, Fresh(c, version), later, r)
  {
  }

  /** A file that changes without a change of the signature is served as it was. */
  lemma HiddenChangeServesStale(c: Setup, r: nat, n: nat, m: nat) returns (w: World, events: seq<Event>)
    requires r in c.slots && n < m && (c.slots[r] in c.files ==> c.sig(c.slots[r], n) == c.sig(c.slots[r], m))
    ensures Reached(c, w, events) && NoReloadRaises(events) && 1 in w.threads && StaleAt(c, w.threads[1], r)
  {
    hide Reached;
    var f := c.slots[r];
    assert f in AllFiles(c);
    var v, before := FirstCallCaches(c, f, n);
    events := WriteTimes(c, v, before, f, m - n);
    var u := v.(version := v.version[f := v.version[f] + (m - n)]);
    assert Signatures(c, Watched(c, u.version)) == Signatures(c, Watched(c, v.version));
    w, events := CallHits(c, u, events, 1);
    OldContentIsBehind(c, r, v.version, u.version);
  }

  /** A file that a reload reads and no signature covers is never looked at again after it changed. */
  lemma UnwatchedServesStale(c: Setup, r: nat) returns (w: World, events: seq<Event>)
    requires r in c.slots && c.slots[r] !in c.files
    ensures Reached(c, w, events) && NoReloadRaises(events) && 1 in w.threads && StaleAt(c, w.threads[1], r)
  {
    w, events := HiddenChangeServesStale(c, r, 0, 1);
  }

  /** A signature that comes back serves the old content. */
  lemma RecurrenceServesStale(c: Setup, r: nat, n: nat, m: nat) returns (w: World, events: seq<Event>)
    requires r in c.slots && n != m && c.sig(c.slots[r], n) == c.sig(c.slots[r], m)
    ensures Reached(c, w, events) && NoReloadRaises(events) && 1 in w.threads && StaleAt(c, w.threads[1], r)
  {
    w, events := HiddenChangeServesStale(c, r, if n < m then n else m, if n < m then m else n);
  }

  /** A reload that raises serves the old content to its own call and, until the files change again, to every
      later one. */
  lemma RaiseServesStale(c: Setup, r: nat, n: nat) returns (w: World, events: seq<Event>)
    requires r in c.slots && c.slots[r] in c.files && c.sig(c.slots[r], n) != c.sig(c.slots[r], n + 1)
    ensures Reached(c, w, events) && 1 in w.threads && 2 in w.threads
    ensures StaleAt(c, w.threads[1], r) && StaleAt(c, w.threads[2], r)
  {
    hide Reached, BehindAt;
    var f := c.slots[r];
    var v, before := FirstCallCaches(c, f, n);
    events := WriteTimes(c, v, before, f, 1);
    var u := v.(version := v.version[f := v.version[f] + 1]);
    assert Signatures(c, Watched(c, u.version))[f] != Signatures(c, Watched(c, v.version))[f];
    OldContentIsBehind(c, r, v.version, u.version);
    w, events := RaiseAfterMiss(c, u, events, r);
  }

  lemma RaiseAfterMiss(c: Setup, v: World, events: seq<Event>, r: nat) returns (w: World, more: seq<Event>)
    requires Reached(c, v, events) && v.version.Keys == AllFiles(c) && v.threads.Keys == {0}
    requires v.lock == None && v.stored != Some(Signatures(c, Watched(c, v.version))) && BehindAt(c, v.snapshot, v.version, r)
    ensures Reached(c, w, more) && 1 in w.threads && 2 in w.threads
    ensures StaleAt(c, w.threads[1], r) && StaleAt(c, w.threads[2], r)
  {
    hide Reached, Signatures, BehindAt, Watched;
    var reloading;
    reloading, more := CallMisses(c, v, events, 1);
    Extend(c, reloading, more, Raise(1));
    var raised := Next(c, reloading, Raise(1));
    more := more + [Raise(1)];
    w, more := CallHits(c, raised, more, 2);
  }

  // ----- exactly which files are served fresh -----

  /** No call of any run is stale in this read; `raises` says whether reloads may raise. */
  ghost predicate NeverStaleAt(c: Setup, raises: bool, r: nat) {
    forall w, events, t :: Reached(c, w, events) && (raises || NoReloadRaises(events)) && t in w.threads ==>
      !StaleAt(c, w.threads[t], r)
  }

  ghost predicate NeverStale(c: Setup, raises: bool) {
    forall w, events, t :: Reached(c, w, events) && (raises || NoReloadRaises(events)) && t in w.threads ==>
      !Stale(c, w.threads[t])
  }

  lemma NeverStaleIsPerRead(c: Setup, raises: bool)
    ensures NeverStale(c, raises) <==> forall r :: r in c.slots ==> NeverStaleAt(c, raises, r)
  {
    hide Reached, NoReloadRaises, BehindAt;
    if NeverStale(c, raises) {
      forall r | r in c.slots ensures NeverStaleAt(c, raises, r) {
        forall w, events, t | Reached(c, w, events) && (raises || NoReloadRaises(events)) && t in w.threads
          ensures !StaleAt(c, w.threads[t], r)
        {
          assert !Stale(c, w.threads[t]);
        }
      }
    }
    if forall r :: r in c.slots ==> NeverStaleAt(c, raises, r) {
      forall w, events, t | Reached(c, w, events) && (raises || NoReloadRaises(events)) && t in w.threads
        ensures !Stale(c, w.threads[t])
      {
        forall r ensures !StaleAt(c, w.threads[t], r) {
          if r !in c.slots { NoSuchRead(c, w.threads[t], r); }
        }
      }
    }
  }

  lemma NoSuchRead(c: Setup, th: Thread, r: nat)
    requires r !in c.slots
    ensures !StaleAt(c, th, r)
  {
  }

  /** One read, as long as no reload raises: it is never stale exactly when its file is watched and no
      signature of the file recurs. */
  lemma ReadIsFreshExactly(c: Setup, r: nat)
    requires r in c.slots
    ensures NeverStaleAt(c, false, r) <==> Tracked(c, c.slots[r])
  {
    hide Reached, StaleAt;
    var f := c.slots[r];
    if Tracked(c, f) {
      forall w, events, t | Reached(c, w, events) && NoReloadRaises(events) && t in w.threads
        ensures !StaleAt(c, w.threads[t], r)
      {
        NoRaiseNoDamage(c, w, events);
        FreshIsNotStale(c, w, events, t, r);
      }
    } else if f !in c.files {
      var w, events := UnwatchedServesStale(c, r);
    } else {
      var n: nat, m: nat :| c.sig(f, n) == c.sig(f, m) && n != m;
      var w, events := RecurrenceServesStale(c, r, n, m);
    }
  }

  /** As long as no reload raises, no call is ever stale exactly when every file that a reload reads is watched
      and its signature never recurs. */
  lemma FreshnessIsExact(c: Setup)
    ensures NeverStale(c, false) <==> forall f :: f in c.slots.Values ==> Tracked(c, f)
  {
    hide Tracked, NeverStaleAt, NeverStale;
    NeverStaleIsPerRead(c, false);
    forall r | r in c.slots ensures NeverStaleAt(c, false, r) <==> Tracked(c, c.slots[r]) {
      ReadIsFreshExactly(c, r);
    }
    assert forall r :: r in c.slots ==> c.slots[r] in c.slots.Values;
  }

  /** When reloads may raise, no call is ever stale exactly when a reload reads nothing: whether a change shows in
      the signature or not, one of the two goes wrong. */
  lemma RaisesAreNeverSafe(c: Setup)
    ensures NeverStale(c, true) <==> c.slots == map[]
  {
    hide Reached, StaleAt;
    NeverStaleIsPerRead(c, true);
    if r :| r in c.slots {
      var f := c.slots[r];
      if f in c.files && c.sig(f, 0) != c.sig(f, 1) {
        var w, events := RaiseServesStale(c, r, 0);
      } else {
        var w, events := HiddenChangeServesStale(c, r, 0, 1);
      }
    }
  }

  // ----- the watcher as it is built -----

  const PRODUCT_REFERENCE: File := 0
  const RELEASES: File := 1
  const REGISTRY: File := 2

  function Marker(sidecar: File): File { sidecar + 3 }

  /** The deployment's own manifest, which holds its known hazards. */
  const MANIFEST: File := 6

  /** The read of a reload that opens the manifest. */
  const HAZARDS := 4

  /** _signature_of takes the three sidecars and their markers; a _reload that finds them reads each sidecar
      twice, two of the markers, and the manifest. */
  function AsBuilt(sig: (File, nat) -> Signature): Setup {
    Setup({PRODUCT_REFERENCE, RELEASES, REGISTRY, Marker(PRODUCT_REFERENCE), Marker(RELEASES), Marker(REGISTRY)},
          map[0 := Marker(PRODUCT_REFERENCE), 1 := PRODUCT_REFERENCE, 2 := PRODUCT_REFERENCE, 3 := REGISTRY,
              HAZARDS := MANIFEST, 5 := Marker(RELEASES), 6 := RELEASES, 7 := RELEASES, 8 := REGISTRY],
          sig)
  }

  /** A change of the manifest is not served, whatever the signatures; every other file is served fresh exactly
      when its signature never recurs. */
  lemma ManifestIsServedStale(sig: (File, nat) -> Signature)
    ensures !NeverStaleAt(AsBuilt(sig), false, HAZARDS) && !NeverStale(AsBuilt(sig), false)
    ensures forall r :: r in AsBuilt(sig).slots && r != HAZARDS ==>
              (NeverStaleAt(AsBuilt(sig), false, r) <==>
                 forall v, w {:trigger sig(AsBuilt(sig).slots[r], v), sig(AsBuilt(sig).slots[r], w)} ::
                   sig(AsBuilt(sig).slots[r], v) == sig(AsBuilt(sig).slots[r], w) ==> v == w)
  {
    hide NeverStale, NeverStaleAt;
    var c := AsBuilt(sig);
    NeverStaleIsPerRead(c, false);
    forall r | r in c.slots ensures NeverStaleAt(c, false, r) <==> Tracked(c, c.slots[r]) { ReadIsFreshExactly(c, r); }
  }
}
